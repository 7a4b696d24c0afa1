/** The OCR service: normalising the engine's raw output into records, and the two request
    pipelines (base64 image, raw pixel buffer) around the engine call. */
module OcrService {
  import opened Results
  import opened Failures
  import opened Values
  import opened Images
  import opened Collaborators
  import opened Schemas
  import opened ImageUtils

  /** The keyword defaults of process_ocr_request; note return_word_box defaults to true here. */
  const SERVICE_DEFAULTS: Options := Options(true, true, true, 0.5, 0.5, 1.6, true)

  /** An engine item the normaliser keeps: one with at least three elements. */
  predicate LongEnough(item: Value) {
    Len(item).Some? && Len(item).value >= 3
  }

  /** The positions of the items the normaliser keeps, in increasing order. */
  function KeptPositions(items: seq<Value>): (idx: seq<nat>)
    ensures |idx| <= |items|
    ensures forall k :: 0 <= k < |idx| ==> idx[k] < |items| && LongEnough(items[idx[k]])
    ensures forall k, l :: 0 <= k < l < |idx| ==> idx[k] < idx[l]
    ensures forall i :: 0 <= i < |items| && LongEnough(items[i]) ==> i in idx
  {
    Positions(items, LongEnough)
  }

  /** One kept item as an OCRResult: `bbox = item[0]`, `text = item[1]`,
      `confidence = float(item[2])`; later elements are not looked at. */
  function ToRecord(item: Value, parse: string -> Option<real>): (r: Result<OcrResult, Error>)
    requires LongEnough(item)
    ensures r.Success? <==>
      FloatOf(At(item, 2), parse).Some? && At(item, 1).Str? && PointsOf(At(item, 0), parse).Some?
    ensures r.Success? ==>
      && r.value.confidence == FloatOf(At(item, 2), parse).value
      && r.value.text == At(item, 1).chars
      && r.value.bbox == PointsOf(At(item, 0), parse).value
    ensures FloatOf(At(item, 2), parse).None? ==>
      r == Failure(if At(item, 2).Str? then Raised(ValueError) else Raised(TypeError))
    ensures FloatOf(At(item, 2), parse).Some? && r.Failure? ==> r.error == Raised(ValidationError)
  {
    var confidence :- ToFloat(At(item, 2), parse);
    match (At(item, 1), PointsOf(At(item, 0), parse))
    case (Str(text), Some(bbox)) => Success(OcrResult(text, confidence, bbox))
    case _ => Failure(Raised(ValidationError))
  }

  /** An item the loop gets past: it has a length, and if it is kept it converts. */
  predicate Convertible(item: Value, parse: string -> Option<real>) {
    Len(item).Some? && (LongEnough(item) ==> ToRecord(item, parse).Success?)
  }

  /** What the loop raises at an item it cannot get past. */
  function ItemError(item: Value, parse: string -> Option<real>): Error
    requires !Convertible(item, parse)
  {
    if Len(item).None? then Raised(TypeError) else ToRecord(item, parse).error
  }

  /** The loop of process_ocr_result over the detections, in order: short items are dropped,
      the first item that raises ends the loop. */
  function NormaliseItems(items: seq<Value>, parse: string -> Option<real>): (r: Result<seq<OcrResult>, Error>)
    ensures r.Success? ==> |r.value| <= |items|
  {
    if |items| == 0 then Success([])
    else
      var n := |items| - 1;
      match NormaliseItems(items[..n], parse)
      case Failure(e) => Failure(e)
      case Success(done) =>
        var item := items[n];
        if Len(item).None? then
          Failure(Raised(TypeError))
        else if Len(item).value < 3 then
          Success(done)
        else
          match ToRecord(item, parse)
          case Failure(e) => Failure(e)
          case Success(record) => Success(done + [record])
  }

  /** The loop gets through exactly when every item has a length and every kept item converts. */
  lemma {:induction false} NormaliseItemsSucceedsIff(items: seq<Value>, parse: string -> Option<real>)
    ensures NormaliseItems(items, parse).Success? <==> forall i :: 0 <= i < |items| ==> Convertible(items[i], parse)
  {
    if |items| > 0 {
      var n := |items| - 1;
      var prefix := items[..n];
      NormaliseItemsSucceedsIff(prefix, parse);
      assert forall i :: 0 <= i < n ==> prefix[i] == items[i];
    }
  }

  /** On success, the records are the conversions of the kept items, in order. */
  lemma {:induction false} NormaliseItemsRecords(items: seq<Value>, parse: string -> Option<real>)
    requires NormaliseItems(items, parse).Success?
    ensures var r := NormaliseItems(items, parse).value;
      var idx := KeptPositions(items);
      && |r| == |idx|
      && forall k :: 0 <= k < |idx| ==> ToRecord(items[idx[k]], parse) == Success(r[k])
  {
    if |items| > 0 {
      var n := |items| - 1;
      var prefix := items[..n];
      NormaliseItemsRecords(prefix, parse);
      var done := NormaliseItems(prefix, parse).value;
      var idx := KeptPositions(prefix);
      var r := NormaliseItems(items, parse).value;
      var all := KeptPositions(items);
      PositionsStep(items, LongEnough);
      assert all == if LongEnough(items[n]) then idx + [n] else idx;
      assert r == if LongEnough(items[n]) then done + [ToRecord(items[n], parse).value] else done;
      forall k | 0 <= k < |all|
        ensures ToRecord(items[all[k]], parse) == Success(r[k])
      {
        if k < |idx| {
          assert all[k] == idx[k] && r[k] == done[k];
          assert items[idx[k]] == prefix[idx[k]];
        }
      }
    }
  }

  /** On failure, the error is that of the first item the loop cannot get past. */
  lemma {:induction false} NormaliseItemsFirstError(items: seq<Value>, parse: string -> Option<real>)
    requires NormaliseItems(items, parse).Failure?
    ensures exists i :: (0 <= i < |items| && !Convertible(items[i], parse)
      && (forall j :: 0 <= j < i ==> Convertible(items[j], parse))
      && NormaliseItems(items, parse).error == ItemError(items[i], parse))
  {
    var n := |items| - 1;
    var prefix := items[..n];
    assert forall i :: 0 <= i < n ==> prefix[i] == items[i];
    if NormaliseItems(prefix, parse).Failure? {
      NormaliseItemsFirstError(prefix, parse);
      var i :| 0 <= i < n && !Convertible(prefix[i], parse)
        && (forall j :: 0 <= j < i ==> Convertible(prefix[j], parse))
        && NormaliseItems(prefix, parse).error == ItemError(prefix[i], parse);
      assert items[i] == prefix[i];
    } else {
      NormaliseItemsSucceedsIff(prefix, parse);
      assert !Convertible(items[n], parse);
    }
  }

  /** `process_ocr_result`: the records for the detections in `raw[0]`. */
  function Normalise(raw: Value, returnWordBox: bool, parse: string -> Option<real>): (r: Result<seq<OcrResult>, Error>)
    ensures !IsSequence(raw) || |raw.items| == 0 || raw.items[0].Nothing? ==> r == Success([])
    ensures IsSequence(raw) && |raw.items| > 0 && !raw.items[0].Nothing? ==>
      match Elements(raw.items[0])
      case Failure(e) => r == Failure(Raised(TypeError))
      case Success(items) =>
        && (r.Success? <==> forall i :: 0 <= i < |items| ==> Convertible(items[i], parse))
        && (r.Success? ==>
              && |r.value| == |KeptPositions(items)| <= |items|
              && forall k :: 0 <= k < |r.value| ==>
                   ToRecord(items[KeptPositions(items)[k]], parse) == Success(r.value[k]))
        && (r.Failure? ==> exists i :: (0 <= i < |items| && !Convertible(items[i], parse)
              && (forall j :: 0 <= j < i ==> Convertible(items[j], parse))
              && r.error == ItemError(items[i], parse)))
  {
    if !IsSequence(raw) || |raw.items| == 0 || raw.items[0].Nothing? then Success([])
    else
      var items :- Elements(raw.items[0]);
      NormaliseItemsSucceedsIff(items, parse);
      if NormaliseItems(items, parse).Success? then NormaliseItemsRecords(items, parse); NormaliseItems(items, parse)
      else NormaliseItemsFirstError(items, parse); NormaliseItems(items, parse)
  }

  /** Only `raw[0]` matters, whether `raw` is a list or a tuple and whatever follows it,
      and `return_word_box` makes no difference. */
  lemma NormaliseReadsFirstElementOnly(a: Value, b: Value, wa: bool, wb: bool, parse: string -> Option<real>)
    requires IsSequence(a) && IsSequence(b) && |a.items| > 0 && |b.items| > 0
    requires a.items[0] == b.items[0]
    ensures Normalise(a, wa, parse) == Normalise(b, wb, parse)
  {
  }

  /** The triple (results, total_time, image_size) a pipeline returns. */
  datatype Outcome = Outcome(results: seq<OcrResult>, elapsed: real, size: ImageSize)

  /** The `try` block of process_ocr_request: decode, call the engine with every option, normalise. */
  function RunOcr(engine: Engine, rt: Runtime, elapsed: real, image: string, options: Options): Result<Outcome, Error> {
    var img :- DecodeBase64Image(rt, image);
    var raw :- engine(img, WithOptions(options));
    var results :- Normalise(raw, options.returnWordBox, rt.parseFloat);
    Success(Outcome(results, elapsed, ImageSize(img.width, img.height)))
  }

  /** `process_ocr_request`. `elapsed` is the clock difference the function measures. */
  function ProcessOcrRequest(rt: Runtime, elapsed: real, image: string, options: Options): (r: Result<Outcome, Error>)
    ensures rt.engine.None? ==> r == Failure(NOT_INITIALIZED)
    ensures r.Failure? ==> r.error.Http? && r.error.status == 500
    ensures rt.engine.Some? && r.Failure? ==> r.error.detail.Wrapped? && r.error.detail.stage == OcrProcessing
    ensures rt.engine.Some? && DecodeBase64Image(rt, image).Failure? ==>
      r == Failure(Http(500, Wrapped(OcrProcessing, DecodeBase64Image(rt, image).error)))
    ensures r.Success? ==>
      var img := DecodeBase64Image(rt, image);
      && rt.engine.Some? && img.Success?
      && r.value.size == ImageSize(img.value.width, img.value.height)
      && r.value.elapsed == elapsed
      && var raw := rt.engine.value(img.value, WithOptions(options));
         raw.Success? && Normalise(raw.value, options.returnWordBox, rt.parseFloat) == Success(r.value.results)
    ensures rt.engine.Some? && DecodeBase64Image(rt, image).Success? ==>
      var img := DecodeBase64Image(rt, image).value;
      var raw := rt.engine.value(img, WithOptions(options));
      if raw.Failure? then r == Failure(Http(500, Wrapped(OcrProcessing, raw.error)))
      else
        var n := Normalise(raw.value, options.returnWordBox, rt.parseFloat);
        if n.Failure? then r == Failure(Http(500, Wrapped(OcrProcessing, n.error)))
        else r == Success(Outcome(n.value, elapsed, ImageSize(img.width, img.height)))
  {
    match rt.engine
    case None => Failure(NOT_INITIALIZED)
    case Some(engine) =>
      match RunOcr(engine, rt, elapsed, image, options)
      case Failure(e) => Failure(Rethrow(500, OcrProcessing, e))
      case Success(outcome) => Success(outcome)
  }

  /** The `try` block of process_binary_ocr: reshape, call the engine with no options, normalise. */
  function RunBinary(engine: Engine, rt: Runtime, elapsed: real, data: Bytes, height: int, width: int): Result<Outcome, Error> {
    var img :- Reshape(data, height, width);
    var raw :- engine(img, EngineDefaults);
    var results :- Normalise(raw, false, rt.parseFloat);
    Success(Outcome(results, elapsed, ImageSize(width, height)))
  }

  /** `process_binary_ocr`: the request's width and height are echoed as the image size, and a
      with non-negative dimensions, a buffer that does not have height * width * 3 bytes fails
      the reshape, which becomes a 500; one negative dimension is inferred, and the call can
      succeed while echoing the negative value. */
  function ProcessBinaryOcr(rt: Runtime, elapsed: real, data: Bytes, height: int, width: int): (r: Result<Outcome, Error>)
    ensures rt.engine.None? ==> r == Failure(NOT_INITIALIZED)
    ensures r.Failure? ==> r.error.Http? && r.error.status == 500
    ensures rt.engine.Some? && r.Failure? ==> r.error.detail.Wrapped? && r.error.detail.stage == BinaryOcrProcessing
    ensures r.Success? ==> r.value.size == ImageSize(width, height) && r.value.elapsed == elapsed
    ensures r.Success? ==> Reshape(data, height, width).Success?
    ensures rt.engine.Some? && height >= 0 && width >= 0 && |data| != height * width * 3 ==>
      r == Failure(Http(500, Wrapped(BinaryOcrProcessing, Raised(ValueError))))
    ensures rt.engine.Some? ==>
      var img := Reshape(data, height, width);
      if img.Failure? then r == Failure(Http(500, Wrapped(BinaryOcrProcessing, img.error)))
      else
        var raw := rt.engine.value(img.value, EngineDefaults);
        if raw.Failure? then r == Failure(Http(500, Wrapped(BinaryOcrProcessing, raw.error)))
        else
          var n := Normalise(raw.value, false, rt.parseFloat);
          if n.Failure? then r == Failure(Http(500, Wrapped(BinaryOcrProcessing, n.error)))
          else r == Success(Outcome(n.value, elapsed, ImageSize(width, height)))
  {
    match rt.engine
    case None => Failure(NOT_INITIALIZED)
    case Some(engine) =>
      match RunBinary(engine, rt, elapsed, data, height, width)
      case Failure(e) => Failure(Rethrow(500, BinaryOcrProcessing, e))
      case Success(outcome) => Success(outcome)
  }

  /** The echoed size is the request's, not the array's: with a negative height numpy infers
      the number of rows, and the response still reports the negative height. */
  lemma EchoedSizeIgnoresInferredHeight(rt: Runtime, elapsed: real, data: Bytes, height: int, width: int)
    requires rt.engine.Some?
    requires forall img: Image, call: Call :: rt.engine.value(img, call) == Success(Nothing)
    requires height < 0 && width > 0 && |data| % (3 * width) == 0
    ensures Reshape(data, height, width).Success?
    ensures Reshape(data, height, width).value.height == |data| / (3 * width) != height
    ensures ProcessBinaryOcr(rt, elapsed, data, height, width) == Success(Outcome([], elapsed, ImageSize(width, height)))
  {
    var img := Reshape(data, height, width).value;
    assert rt.engine.value(img, EngineDefaults) == Success(Nothing);
  }
}
