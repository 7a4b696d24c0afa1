/** The OCR endpoints: how each maps its request onto engine options, and how each reshapes
    the canonical records into its wire format (named fields or positional triples). */
module OcrEndpoints {
  import opened Results
  import opened Failures
  import opened Values
  import opened Images
  import opened Collaborators
  import opened Schemas
  import opened OcrService

  /** The OCRResponse every generic endpoint builds from an outcome. */
  function Respond(o: Outcome): OcrResponse {
    OcrResponse(true, o.results, Rounded4(o.elapsed), o.size)
  }

  /** The eight option fields of an OCRRequest, as process_ocr_request receives them. */
  function OptionsOf(req: OcrRequest): Options {
    Options(req.useDet, req.useCls, req.useRec, req.textScore, req.boxThresh, req.unclipRatio, req.returnWordBox)
  }

  /** The request that carries an image and a set of options. */
  function RequestOf(image: string, o: Options): OcrRequest {
    OcrRequest(image, o.useDet, o.useCls, o.useRec, o.textScore, o.boxThresh, o.unclipRatio, o.returnWordBox)
  }

  /** Every field of the request reaches the service: the request can be rebuilt from
      what is forwarded, and the options from the request. */
  lemma OptionsOfForwardsEveryField(req: OcrRequest, image: string, o: Options)
    ensures RequestOf(req.image, OptionsOf(req)) == req
    ensures OptionsOf(RequestOf(image, o)) == o
  {
  }

  /** The OCRRequest defaults are the service defaults, except that return_word_box is off. */
  lemma RequestDefaultsAgreeWithService(image: string)
    ensures OptionsOf(DefaultOcrRequest(image)) == SERVICE_DEFAULTS.(returnWordBox := false)
  {
  }

  /** `ocr_endpoint_v1`: the service's records, unchanged, under success = true. */
  function OcrEndpointV1(rt: Runtime, elapsed: real, req: OcrRequest): (r: Result<OcrResponse, Error>)
    ensures var p := ProcessOcrRequest(rt, elapsed, req.image, OptionsOf(req));
      && (r.Success? <==> p.Success?)
      && (r.Failure? ==> r.error == p.error)
      && (r.Success? ==>
            && r.value.success
            && r.value.results == p.value.results
            && r.value.processingTime == Rounded4(p.value.elapsed)
            && r.value.imageSize == p.value.size)
  {
    var outcome :- ProcessOcrRequest(rt, elapsed, req.image, OptionsOf(req));
    Success(Respond(outcome))
  }

  /** `ocr_endpoint` delegates to the v1 endpoint. */
  function OcrEndpoint(rt: Runtime, elapsed: real, req: OcrRequest): (r: Result<OcrResponse, Error>)
    ensures r == OcrEndpointV1(rt, elapsed, req)
  {
    OcrEndpointV1(rt, elapsed, req)
  }

  // ----- PaddleOCR compatibility -----

  /** The engine options a PaddleOCR request stands for: three fields are renamed, the rest of
      the options keep the service defaults, and the PaddleOCR-only fields are dropped. */
  function PaddleOptions(req: PaddleOcrRequest): (o: Options)
    ensures o.useCls == req.useAngleCls
    ensures o.boxThresh == req.detDbBoxThresh
    ensures o.unclipRatio == req.detDbUnclipRatio
    ensures o.useDet == SERVICE_DEFAULTS.useDet && o.useRec == SERVICE_DEFAULTS.useRec
    ensures o.textScore == SERVICE_DEFAULTS.textScore && o.returnWordBox == SERVICE_DEFAULTS.returnWordBox
  {
    SERVICE_DEFAULTS.(useCls := req.useAngleCls, boxThresh := req.detDbBoxThresh, unclipRatio := req.detDbUnclipRatio)
  }

  /** A default PaddleOCR request runs the engine with the service defaults. */
  lemma PaddleDefaultsAreServiceDefaults(image: string)
    ensures PaddleOptions(DefaultPaddleOcrRequest(image)) == SERVICE_DEFAULTS
  {
  }

  /** A PaddleOCR result entry: a dict with the keys text, confidence and bbox. */
  datatype PaddleEntry = PaddleEntry(text: string, confidence: real, bbox: seq<seq<real>>)

  /** The endpoint's conversion loop. */
  function ToPaddle(rs: seq<OcrResult>): (ps: seq<PaddleEntry>)
    ensures |ps| == |rs|
    ensures forall k :: 0 <= k < |rs| ==>
      ps[k].text == rs[k].text && ps[k].confidence == rs[k].confidence && ps[k].bbox == rs[k].bbox
  {
    if |rs| == 0 then []
    else [PaddleEntry(rs[0].text, rs[0].confidence, rs[0].bbox)] + ToPaddle(rs[1..])
  }

  function FromPaddle(ps: seq<PaddleEntry>): (rs: seq<OcrResult>)
    ensures |rs| == |ps|
  {
    if |ps| == 0 then []
    else [OcrResult(ps[0].text, ps[0].confidence, ps[0].bbox)] + FromPaddle(ps[1..])
  }

  /** The PaddleOCR shape loses nothing: the records can be read back from it, in order. */
  lemma {:induction false} PaddleRoundTrip(rs: seq<OcrResult>)
    ensures FromPaddle(ToPaddle(rs)) == rs
  {
    if |rs| > 0 {
      PaddleRoundTrip(rs[1..]);
      assert rs == [rs[0]] + rs[1..];
    }
  }

  /** Every PaddleOCR entry list is the image of some records. */
  lemma {:induction false} PaddleRoundTripBack(ps: seq<PaddleEntry>)
    ensures ToPaddle(FromPaddle(ps)) == ps
  {
    if |ps| > 0 {
      PaddleRoundTripBack(ps[1..]);
      assert ps == [ps[0]] + ps[1..];
    }
  }

  datatype PaddleResponse = PaddleResponse(
    success: bool,
    results: seq<PaddleEntry>,
    processingTime: Seconds,
    imageSize: ImageSize)

  /** `paddleocr_endpoint`. */
  function PaddleOcrEndpoint(rt: Runtime, elapsed: real, req: PaddleOcrRequest): (r: Result<PaddleResponse, Error>)
    ensures var p := ProcessOcrRequest(rt, elapsed, req.image, PaddleOptions(req));
      && (r.Success? <==> p.Success?)
      && (r.Failure? ==> r.error == p.error)
      && (r.Success? ==>
            && r.value.success
            && r.value.results == ToPaddle(p.value.results)
            && r.value.processingTime == Rounded4(p.value.elapsed)
            && r.value.imageSize == p.value.size)
  {
    var o :- ProcessOcrRequest(rt, elapsed, req.image, PaddleOptions(req));
    Success(PaddleResponse(true, ToPaddle(o.results), Rounded4(o.elapsed), o.size))
  }

  /** The OCRRequest a PaddleOCR request amounts to. */
  function PaddleAsOcrRequest(req: PaddleOcrRequest): OcrRequest {
    RequestOf(req.image, PaddleOptions(req))
  }

  /** The PaddleOCR endpoint is the v1 endpoint on the mapped request, with its records
      reshaped and nothing else changed. */
  lemma PaddleEndpointIsV1Reshaped(rt: Runtime, elapsed: real, req: PaddleOcrRequest)
    ensures var p := PaddleOcrEndpoint(rt, elapsed, req);
      var v := OcrEndpointV1(rt, elapsed, PaddleAsOcrRequest(req));
      && (p.Success? <==> v.Success?)
      && (p.Failure? ==> p.error == v.error)
      && (p.Success? ==>
            && p.value.success
            && p.value.results == ToPaddle(v.value.results)
            && p.value.processingTime == v.value.processingTime
            && p.value.imageSize == v.value.imageSize)
  {
    OptionsOfForwardsEveryField(PaddleAsOcrRequest(req), req.image, PaddleOptions(req));
  }

  /** Two PaddleOCR requests that differ only in the fields the endpoint ignores
      (lang, det_db_thresh, rec_* and cls_*) get the same answer. */
  lemma PaddleIgnoredFields(rt: Runtime, elapsed: real, a: PaddleOcrRequest, b: PaddleOcrRequest)
    requires a.image == b.image && a.useAngleCls == b.useAngleCls
    requires a.detDbBoxThresh == b.detDbBoxThresh && a.detDbUnclipRatio == b.detDbUnclipRatio
    ensures PaddleOcrEndpoint(rt, elapsed, a) == PaddleOcrEndpoint(rt, elapsed, b)
  {
    assert PaddleOptions(a) == PaddleOptions(b);
  }

  // ----- EasyOCR compatibility -----

  /** The engine options an EasyOCR request stands for: det, cls and rec forced on, the text
      score taken from text_threshold, everything else the service default. */
  function EasyOptions(req: EasyOcrRequest): (o: Options)
    ensures o.useDet && o.useCls && o.useRec
    ensures o.textScore == req.textThreshold
    ensures o.boxThresh == SERVICE_DEFAULTS.boxThresh && o.unclipRatio == SERVICE_DEFAULTS.unclipRatio
    ensures o.returnWordBox == SERVICE_DEFAULTS.returnWordBox
  {
    SERVICE_DEFAULTS.(useDet := true, useCls := true, useRec := true, textScore := req.textThreshold)
  }

  /** A default EasyOCR request differs from the service defaults only in its 0.7 text score. */
  lemma EasyDefaultsAreServiceDefaults(image: string)
    ensures EasyOptions(DefaultEasyOcrRequest(image)) == SERVICE_DEFAULTS.(textScore := 0.7)
  {
  }

  /** An EasyOCR result entry: the positional triple [bbox, text, confidence]. */
  type EasyEntry = (seq<seq<real>>, string, real)

  /** The endpoint's conversion loop. */
  function ToEasy(rs: seq<OcrResult>): (es: seq<EasyEntry>)
    ensures |es| == |rs|
    ensures forall k :: 0 <= k < |rs| ==> es[k].0 == rs[k].bbox && es[k].1 == rs[k].text && es[k].2 == rs[k].confidence
  {
    if |rs| == 0 then []
    else [(rs[0].bbox, rs[0].text, rs[0].confidence)] + ToEasy(rs[1..])
  }

  function FromEasy(es: seq<EasyEntry>): (rs: seq<OcrResult>)
    ensures |rs| == |es|
  {
    if |es| == 0 then []
    else [OcrResult(es[0].1, es[0].2, es[0].0)] + FromEasy(es[1..])
  }

  /** The positional shape loses nothing either. */
  lemma {:induction false} EasyRoundTrip(rs: seq<OcrResult>)
    ensures FromEasy(ToEasy(rs)) == rs
  {
    if |rs| > 0 {
      EasyRoundTrip(rs[1..]);
      assert rs == [rs[0]] + rs[1..];
    }
  }

  /** Every list of triples is the image of some records. */
  lemma {:induction false} EasyRoundTripBack(es: seq<EasyEntry>)
    ensures ToEasy(FromEasy(es)) == es
  {
    if |es| > 0 {
      EasyRoundTripBack(es[1..]);
      assert es == [es[0]] + es[1..];
    }
  }

  datatype EasyResponse = EasyResponse(
    success: bool,
    results: seq<EasyEntry>,
    processingTime: Seconds,
    imageSize: ImageSize)

  /** `easyocr_endpoint`. */
  function EasyOcrEndpoint(rt: Runtime, elapsed: real, req: EasyOcrRequest): (r: Result<EasyResponse, Error>)
    ensures var p := ProcessOcrRequest(rt, elapsed, req.image, EasyOptions(req));
      && (r.Success? <==> p.Success?)
      && (r.Failure? ==> r.error == p.error)
      && (r.Success? ==>
            && r.value.success
            && r.value.results == ToEasy(p.value.results)
            && r.value.processingTime == Rounded4(p.value.elapsed)
            && r.value.imageSize == p.value.size)
  {
    var o :- ProcessOcrRequest(rt, elapsed, req.image, EasyOptions(req));
    Success(EasyResponse(true, ToEasy(o.results), Rounded4(o.elapsed), o.size))
  }

  function EasyAsOcrRequest(req: EasyOcrRequest): OcrRequest {
    RequestOf(req.image, EasyOptions(req))
  }

  /** The EasyOCR endpoint is the v1 endpoint on the mapped request, records as triples. */
  lemma EasyEndpointIsV1Reshaped(rt: Runtime, elapsed: real, req: EasyOcrRequest)
    ensures var e := EasyOcrEndpoint(rt, elapsed, req);
      var v := OcrEndpointV1(rt, elapsed, EasyAsOcrRequest(req));
      && (e.Success? <==> v.Success?)
      && (e.Failure? ==> e.error == v.error)
      && (e.Success? ==>
            && e.value.success
            && e.value.results == ToEasy(v.value.results)
            && e.value.processingTime == v.value.processingTime
            && e.value.imageSize == v.value.imageSize)
  {
    OptionsOfForwardsEveryField(EasyAsOcrRequest(req), req.image, EasyOptions(req));
  }

  /** Only image and text_threshold matter to the EasyOCR endpoint. */
  lemma EasyIgnoredFields(rt: Runtime, elapsed: real, a: EasyOcrRequest, b: EasyOcrRequest)
    requires a.image == b.image && a.textThreshold == b.textThreshold
    ensures EasyOcrEndpoint(rt, elapsed, a) == EasyOcrEndpoint(rt, elapsed, b)
  {
    assert EasyOptions(a) == EasyOptions(b);
  }

  /** The same records in the three shapes: named fields twice, positional triples once. */
  lemma AdaptersCarryTheSameData(rs: seq<OcrResult>)
    ensures |ToPaddle(rs)| == |ToEasy(rs)| == |rs|
    ensures forall k :: 0 <= k < |rs| ==>
      && ToPaddle(rs)[k] == PaddleEntry(rs[k].text, rs[k].confidence, rs[k].bbox)
      && ToEasy(rs)[k] == (rs[k].bbox, rs[k].text, rs[k].confidence)
  {
  }

  // ----- Raw-buffer endpoints -----

  /** `binary_ocr_endpoint`: the engine check, then process_binary_ocr, whose HTTP error is
      caught and wrapped a second time. */
  function BinaryOcrEndpoint(rt: Runtime, elapsed: real, data: Bytes, height: int, width: int): (r: Result<OcrResponse, Error>)
    ensures rt.engine.None? ==> r == Failure(NOT_INITIALIZED)
    ensures r.Failure? ==> r.error.Http? && r.error.status == 500
    ensures rt.engine.Some? && r.Failure? ==>
      && r.error.detail.Wrapped? && r.error.detail.stage == BinaryOcrProcessing
      && r.error.detail.cause.Http? && r.error.detail.cause.detail.Wrapped?
      && r.error.detail.cause.detail.stage == BinaryOcrProcessing
    ensures r.Success? ==> r.value.success && r.value.imageSize == ImageSize(width, height)
    ensures rt.engine.Some? ==>
      var p := ProcessBinaryOcr(rt, elapsed, data, height, width);
      && (r.Success? <==> p.Success?)
      && (r.Failure? ==> r.error == Http(500, Wrapped(BinaryOcrProcessing, p.error)))
      && (r.Success? ==>
            && r.value.results == p.value.results
            && r.value.processingTime == Rounded4(p.value.elapsed)
            && r.value.imageSize == p.value.size)
  {
    match rt.engine
    case None => Failure(NOT_INITIALIZED)
    case Some(_) =>
      match ProcessBinaryOcr(rt, elapsed, data, height, width)
      case Failure(e) => Failure(Rethrow(500, BinaryOcrProcessing, e))
      case Success(o) => Success(Respond(o))
  }

  /** The option fields of a multipart form; a field the client leaves out is None. */
  datatype Form = Form(
    useDet: Option<bool>,
    useCls: Option<bool>,
    useRec: Option<bool>,
    textScore: Option<real>,
    boxThresh: Option<real>,
    unclipRatio: Option<real>,
    returnWordBox: Option<bool>)

  const EMPTY_FORM: Form := Form(None, None, None, None, None, None, None)

  /** The form as every option given. */
  function FormOf(o: Options): Form {
    Form(Some(o.useDet), Some(o.useCls), Some(o.useRec), Some(o.textScore), Some(o.boxThresh), Some(o.unclipRatio), Some(o.returnWordBox))
  }

  /** `Form(default)` parameters: each field as sent, or the endpoint's default when left out. */
  function Fill(form: Form, defaults: Options): Options {
    Options(
      form.useDet.OrElse(defaults.useDet), form.useCls.OrElse(defaults.useCls), form.useRec.OrElse(defaults.useRec),
      form.textScore.OrElse(defaults.textScore), form.boxThresh.OrElse(defaults.boxThresh),
      form.unclipRatio.OrElse(defaults.unclipRatio), form.returnWordBox.OrElse(defaults.returnWordBox))
  }

  /** An empty form runs with the endpoint's defaults; a full form ignores them. */
  lemma FillBetweenDefaultsAndValues(o: Options, defaults: Options)
    ensures Fill(EMPTY_FORM, defaults) == defaults
    ensures Fill(FormOf(o), defaults) == o
  {
  }

  /** Filling touches only the omitted fields: two defaults that agree there give the same options. */
  lemma FillReadsDefaultsOnlyWhereOmitted(form: Form, d1: Options, d2: Options)
    requires form.useDet.None? ==> d1.useDet == d2.useDet
    requires form.useCls.None? ==> d1.useCls == d2.useCls
    requires form.useRec.None? ==> d1.useRec == d2.useRec
    requires form.textScore.None? ==> d1.textScore == d2.textScore
    requires form.boxThresh.None? ==> d1.boxThresh == d2.boxThresh
    requires form.unclipRatio.None? ==> d1.unclipRatio == d2.unclipRatio
    requires form.returnWordBox.None? ==> d1.returnWordBox == d2.returnWordBox
    ensures Fill(form, d1) == Fill(form, d2)
  {
  }

  /** The form defaults of fast_ocr_endpoint. */
  const FAST_FORM_DEFAULTS: Options := Options(true, true, true, 0.5, 0.5, 1.6, false)

  /** `fast_ocr_endpoint`: reshape the buffer, call the engine with every form option,
      normalise; the request's width and height are echoed as the image size. */
  function FastOcrEndpoint(rt: Runtime, elapsed: real, data: Bytes, height: int, width: int, form: Form): (r: Result<OcrResponse, Error>)
    ensures rt.engine.None? ==> r == Failure(NOT_INITIALIZED)
    ensures r.Failure? ==> r.error.Http? && r.error.status == 500
    ensures rt.engine.Some? && r.Failure? ==> r.error.detail.Wrapped? && r.error.detail.stage == FastOcrProcessing
    ensures rt.engine.Some? && height >= 0 && width >= 0 && |data| != height * width * 3 ==>
      r == Failure(Http(500, Wrapped(FastOcrProcessing, Raised(ValueError))))
    ensures r.Success? ==>
      var options := Fill(form, FAST_FORM_DEFAULTS);
      && r.value.success
      && r.value.imageSize == ImageSize(width, height)
      && r.value.processingTime == Rounded4(elapsed)
      && var img := Reshape(data, height, width);
         && img.Success? && rt.engine.Some?
         && var raw := rt.engine.value(img.value, WithOptions(options));
            raw.Success? && Normalise(raw.value, options.returnWordBox, rt.parseFloat) == Success(r.value.results)
    ensures rt.engine.Some? ==>
      var options := Fill(form, FAST_FORM_DEFAULTS);
      var img := Reshape(data, height, width);
      if img.Failure? then r == Failure(Http(500, Wrapped(FastOcrProcessing, img.error)))
      else
        var raw := rt.engine.value(img.value, WithOptions(options));
        if raw.Failure? then r == Failure(Http(500, Wrapped(FastOcrProcessing, raw.error)))
        else
          var n := Normalise(raw.value, options.returnWordBox, rt.parseFloat);
          if n.Failure? then r == Failure(Http(500, Wrapped(FastOcrProcessing, n.error)))
          else r == Success(OcrResponse(true, n.value, Rounded4(elapsed), ImageSize(width, height)))
  {
    match rt.engine
    case None => Failure(NOT_INITIALIZED)
    case Some(engine) =>
      match FastOcr(engine, rt, elapsed, data, height, width, Fill(form, FAST_FORM_DEFAULTS))
      case Failure(e) => Failure(Rethrow(500, FastOcrProcessing, e))
      case Success(response) => Success(response)
  }

  /** The `try` block of fast_ocr_endpoint. */
  function FastOcr(engine: Engine, rt: Runtime, elapsed: real, data: Bytes, height: int, width: int, options: Options): Result<OcrResponse, Error> {
    var img :- Reshape(data, height, width);
    var raw :- engine(img, WithOptions(options));
    var results :- Normalise(raw, options.returnWordBox, rt.parseFloat);
    Success(OcrResponse(true, results, Rounded4(elapsed), ImageSize(width, height)))
  }
}
