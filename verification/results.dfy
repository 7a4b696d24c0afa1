/** The two ways a step of the service can end: an optional value (Python's `None` or a
    value) and a value-or-raised-error. Both work with Dafny's `:-`, so a chain of steps
    stops at the first that gives nothing or raises, as Python's unguarded calls do. Also
    the two sequence helpers the model shares: element-wise conversion and kept positions. */
module Results {

  datatype Option<+T> = None | Some(value: T) {
    predicate IsFailure() { None? }
    function PropagateFailure<U>(): Option<U> requires None? { None }
    function Extract(): T requires Some? { value }

    /** `x if x is not None else fallback`. */
    function OrElse(fallback: T): T { if Some? then value else fallback }
  }

  datatype Result<+R, +E> = Success(value: R) | Failure(error: E) {
    predicate IsFailure() { Failure? }
    function PropagateFailure<U>(): Result<U, E> requires Failure? { Failure(error) }
    function Extract(): R requires Success? { value }
  }

  /** Converts every element with `f`; nothing when some element does not convert. */
  function Traverse<A, B>(xs: seq<A>, f: A -> Option<B>): (r: Option<seq<B>>)
    ensures r.Some? <==> forall k :: 0 <= k < |xs| ==> f(xs[k]).Some?
    ensures r.Some? ==> |r.value| == |xs| && forall k :: 0 <= k < |xs| ==> f(xs[k]) == Some(r.value[k])
  {
    if |xs| == 0 then Some([])
    else
      match f(xs[0])
      case None => None
      case Some(y) =>
        match Traverse(xs[1..], f)
        case None => None
        case Some(ys) => Some([y] + ys)
  }

  /** The positions of the elements that `keep` accepts, in increasing order. */
  function Positions<T>(xs: seq<T>, keep: T -> bool): (idx: seq<nat>)
    ensures |idx| <= |xs|
    ensures forall k :: 0 <= k < |idx| ==> idx[k] < |xs| && keep(xs[idx[k]])
    ensures forall k, l :: 0 <= k < l < |idx| ==> idx[k] < idx[l]
    ensures forall i :: 0 <= i < |xs| && keep(xs[i]) ==> i in idx
  {
    if |xs| == 0 then []
    else
      var n := |xs| - 1;
      var prefix := Positions(xs[..n], keep);
      assert forall k :: 0 <= k < |prefix| ==> xs[..n][prefix[k]] == xs[prefix[k]];
      assert forall i :: 0 <= i < n ==> xs[..n][i] == xs[i];
      if keep(xs[n]) then prefix + [n] else prefix
  }

  /** One step of `Positions`: the last element's position is added when it is kept. */
  lemma PositionsStep<T>(xs: seq<T>, keep: T -> bool)
    requires |xs| > 0
    ensures Positions(xs, keep) == Positions(xs[..|xs| - 1], keep) + (if keep(xs[|xs| - 1]) then [|xs| - 1] else [])
  {
  }
}
