/** Python values as the OCR engine and the PDF library hand them to the service:
    enough of Python's dynamic typing to say which operations succeed and which raise. */
module Values {
  import opened Results
  import opened Failures

  newtype byte = x: int | 0 <= x < 256

  /** A Python `bytes` object. */
  type Bytes = seq<byte>

  datatype Value =
    | Nothing                 // None
    | List(items: seq<Value>)
    | Tuple(items: seq<Value>)
    | Str(chars: string)
    | Num(x: real)            // an int or a float
    | Opaque                  // any other object: not sized, not iterable, not a number

  predicate IsSequence(v: Value) {
    v.List? || v.Tuple?
  }

  /** `len(v)`, or nothing when `len` raises TypeError. */
  function Len(v: Value): (n: Option<nat>)
    ensures n.Some? <==> IsSequence(v) || v.Str?
  {
    match v
    case List(items) => Some(|items|)
    case Tuple(items) => Some(|items|)
    case Str(cs) => Some(|cs|)
    case _ => None
  }

  /** `v[k]` for an index within `len(v)`; a string's items are one-character strings. */
  function At(v: Value, k: nat): Value
    requires Len(v).Some? && k < Len(v).value
  {
    if v.Str? then Str([v.chars[k]]) else v.items[k]
  }

  /** `list(iter(v))`: the items a `for` loop visits, or the TypeError it raises. */
  function Elements(v: Value): (r: Result<seq<Value>, Error>)
    ensures r.Success? <==> Len(v).Some?
    ensures r.Failure? ==> r.error == Raised(TypeError)
    ensures r.Success? ==> |r.value| == Len(v).value
    ensures r.Success? ==> forall k :: 0 <= k < |r.value| ==> r.value[k] == At(v, k)
  {
    match v
    case List(items) => Success(items)
    case Tuple(items) => Success(items)
    case Str(cs) => Success(seq(|cs|, k requires 0 <= k < |cs| => Str([cs[k]])))
    case _ => Failure(Raised(TypeError))
  }

  /** The number a value denotes for `float(v)` and for a pydantic `float` field:
      numbers as they are, strings as `parse` reads them. */
  function FloatOf(v: Value, parse: string -> Option<real>): Option<real> {
    match v
    case Num(x) => Some(x)
    case Str(cs) => parse(cs)
    case _ => None
  }

  /** `float(v)`: TypeError for a value that is neither a number nor a string,
      ValueError for a string that does not parse. */
  function ToFloat(v: Value, parse: string -> Option<real>): (r: Result<real, Error>)
    ensures r.Success? <==> FloatOf(v, parse).Some?
    ensures r.Success? ==> r.value == FloatOf(v, parse).value
    ensures r.Failure? ==> r.error == (if v.Str? then Raised(ValueError) else Raised(TypeError))
  {
    match v
    case Num(x) => Success(x)
    case Str(cs) =>
      (match parse(cs)
       case Some(x) => Success(x)
       case None => Failure(Raised(ValueError)))
    case _ => Failure(Raised(TypeError))
  }

  /** What a pydantic `List[float]` field accepts: a list or tuple of numbers. */
  function FloatsOf(v: Value, parse: string -> Option<real>): (r: Option<seq<real>>)
    ensures r.Some? <==> IsSequence(v) && forall k :: 0 <= k < |v.items| ==> FloatOf(v.items[k], parse).Some?
    ensures r.Some? ==> |r.value| == |v.items|
    ensures r.Some? ==> forall k :: 0 <= k < |v.items| ==> FloatOf(v.items[k], parse) == Some(r.value[k])
  {
    if IsSequence(v) then Traverse(v.items, (e: Value) => FloatOf(e, parse)) else None
  }

  /** What a pydantic `List[List[float]]` field accepts: a list or tuple of points. */
  function PointsOf(v: Value, parse: string -> Option<real>): (r: Option<seq<seq<real>>>)
    ensures r.Some? <==> IsSequence(v) && forall k :: 0 <= k < |v.items| ==> FloatsOf(v.items[k], parse).Some?
    ensures r.Some? ==> |r.value| == |v.items|
    ensures r.Some? ==> forall k :: 0 <= k < |v.items| ==> FloatsOf(v.items[k], parse) == Some(r.value[k])
  {
    if IsSequence(v) then Traverse(v.items, (e: Value) => FloatsOf(e, parse)) else None
  }
}
