/** The multipart upload endpoints: an image file through the base64 pipeline, and a PDF file
    through the PDF service. Both check content type, then size, before reading anything. */
module Upload {
  import opened Results
  import opened Failures
  import opened Values
  import opened Images
  import opened Collaborators
  import opened Schemas
  import opened Config
  import opened ImageUtils
  import opened OcrService
  import opened OcrEndpoints
  import opened PdfService
  import Base64

  /** An UploadFile: its declared content type and size (either may be missing) and its bytes. */
  datatype UploadedFile = UploadedFile(contentType: Option<string>, size: Option<int>, content: Bytes)

  /** The form defaults of both upload endpoints: return_word_box is on. */
  const UPLOAD_FORM_DEFAULTS: Options := Options(true, true, true, 0.5, 0.5, 1.6, true)

  lemma UploadDefaultsAreServiceDefaults()
    ensures UPLOAD_FORM_DEFAULTS == SERVICE_DEFAULTS
    ensures UPLOAD_FORM_DEFAULTS == FAST_FORM_DEFAULTS.(returnWordBox := true)
  {
  }

  /** `not file.content_type or file.content_type not in allowed`. */
  predicate TypeRejected(contentType: Option<string>, allowed: seq<string>) {
    contentType.None? || contentType.value !in allowed
  }

  /** `file.size and file.size > limit`: a missing or zero size never counts as too large. */
  predicate TooLarge(size: Option<int>, limit: int) {
    size.Some? && size.value != 0 && size.value > limit
  }

  /** `upload_file`, with the size ceiling taken from the OCR_MAX_FILE_SIZE setting. The two
      checks raise outside the `try`, so their 400s reach the client as
      they are; everything raised later, including the service's own HTTP errors, is wrapped in
      a 500 "File OCR processing error". */
  function UploadImage(rt: Runtime, elapsed: real, maxFileSizeSetting: Option<int>, file: UploadedFile, form: Form): (r: Result<OcrResponse, Error>)
    ensures TypeRejected(file.contentType, ALLOWED_IMAGE_TYPES) ==>
      r == Failure(Http(400, TypeNotAllowed(ALLOWED_IMAGE_TYPES, file.contentType)))
    ensures !TypeRejected(file.contentType, ALLOWED_IMAGE_TYPES) && TooLarge(file.size, MaxFileSize(maxFileSizeSetting)) ==>
      r == Failure(Http(400, ImageTooLarge(MaxFileSize(maxFileSizeSetting))))
    ensures (r.Failure? && r.error.Http? && r.error.status == 400) <==>
      TypeRejected(file.contentType, ALLOWED_IMAGE_TYPES) || TooLarge(file.size, MaxFileSize(maxFileSizeSetting))
    ensures r.Failure? ==> r.error.Http? && (r.error.status == 400 || r.error.status == 500)
    ensures r.Failure? && r.error.status == 500 ==>
      var p := ProcessOcrRequest(rt, elapsed, Base64.Encode(file.content), Fill(form, UPLOAD_FORM_DEFAULTS));
      p.Failure? && r.error.detail == Wrapped(FileOcrProcessing, p.error)
    ensures r.Success? ==>
      var p := ProcessOcrRequest(rt, elapsed, Base64.Encode(file.content), Fill(form, UPLOAD_FORM_DEFAULTS));
      && p.Success? && r.value.success
      && r.value.results == p.value.results
      && r.value.processingTime == Rounded4(elapsed)
      && r.value.imageSize == p.value.size
  {
    if TypeRejected(file.contentType, ALLOWED_IMAGE_TYPES) then
      Failure(Http(400, TypeNotAllowed(ALLOWED_IMAGE_TYPES, file.contentType)))
    else if TooLarge(file.size, MaxFileSize(maxFileSizeSetting)) then
      Failure(Http(400, ImageTooLarge(MaxFileSize(maxFileSizeSetting))))
    else
      match ProcessOcrRequest(rt, elapsed, Base64.Encode(file.content), Fill(form, UPLOAD_FORM_DEFAULTS))
      case Failure(e) => Failure(Rethrow(500, FileOcrProcessing, e))
      case Success(o) => Success(Respond(o))
  }

  /** Even with no engine loaded, a file of the wrong type is rejected with a 400; once the
      checks pass, the service's 500 arrives wrapped a second time. */
  lemma UploadChecksComeFirst(rt: Runtime, elapsed: real, maxFileSizeSetting: Option<int>, file: UploadedFile, form: Form)
    requires rt.engine.None?
    ensures TypeRejected(file.contentType, ALLOWED_IMAGE_TYPES) ==>
      UploadImage(rt, elapsed, maxFileSizeSetting, file, form).error.status == 400
    ensures !TypeRejected(file.contentType, ALLOWED_IMAGE_TYPES) && !TooLarge(file.size, MaxFileSize(maxFileSizeSetting)) ==>
      UploadImage(rt, elapsed, maxFileSizeSetting, file, form)
        == Failure(Http(500, Wrapped(FileOcrProcessing, NOT_INITIALIZED)))
  {
  }

  /** A base64 decoder that agrees with section 4 of RFC 4648 on well-formed text. */
  ghost predicate DecodesStandardBase64(rt: Runtime) {
    forall s: string :: Base64.Decode(s).Some? ==> rt.b64decode(s) == Success(Base64.Decode(s).value)
  }

  /** The uploaded bytes reach the image loader unchanged: the encoded payload has no comma,
      so no data-URI prefix is stripped, and decoding gives back the file's bytes. */
  lemma UploadedBytesReachLoader(rt: Runtime, content: Bytes)
    requires DecodesStandardBase64(rt)
    ensures StripDataUriPrefix(Base64.Encode(content)) == Base64.Encode(content)
    ensures rt.b64decode(StripDataUriPrefix(Base64.Encode(content))) == Success(content)
    ensures DecodeBase64Image(rt, Base64.Encode(content)).Success? <==> rt.loadRgb(content).Success?
    ensures DecodeBase64Image(rt, Base64.Encode(content)).Success? ==>
      SwapRedBlue(DecodeBase64Image(rt, Base64.Encode(content)).value) == rt.loadRgb(content).value
  {
    Base64.EncodeHasNoComma(content);
    Base64.DecodeEncode(content);
  }

  /** The PDF types upload_file_pdf accepts. */
  const PDF_TYPES: seq<string> := ["application/pdf", "image/pdf"]

  /** The PDF size ceiling: 10 GiB. */
  const MAX_PDF_SIZE: int := 1024 * 1024 * 1024 * 10

  /** The two allow-lists are disjoint: no content type passes both checks. */
  lemma NoTypePassesBothChecks(t: Option<string>)
    ensures TypeRejected(t, ALLOWED_IMAGE_TYPES) || TypeRejected(t, PDF_TYPES)
  {
  }

  /** Validating one entry as an OCRPDFResult: `bbox_image` must be a list of floats; the
      measured time is kept exactly. */
  function ValidatePdfEntry(e: PdfPageEntry, parse: string -> Option<real>): (r: Option<OcrPdfResult>)
    ensures r.Some? <==> FloatsOf(e.bboxImage, parse).Some?
    ensures r.Some? ==>
      && r.value.page == e.page && r.value.index == e.index && r.value.result == e.result
      && r.value.bboxImage == FloatsOf(e.bboxImage, parse).value
      && r.value.processingTime == Exact(e.processingTime) && r.value.imageSize == e.imageSize
  {
    var bbox :- FloatsOf(e.bboxImage, parse);
    Some(OcrPdfResult(e.page, e.index, e.result, bbox, Exact(e.processingTime), e.imageSize))
  }

  /** A box of four numbers, as the PDF library reports it, always validates. */
  lemma NumericBoxValidates(e: PdfPageEntry, parse: string -> Option<real>)
    requires e.bboxImage.Tuple? && forall k :: 0 <= k < |e.bboxImage.items| ==> e.bboxImage.items[k].Num?
    ensures ValidatePdfEntry(e, parse).Some?
  {
  }

  /** `upload_file_pdf`: the type check, the 10 GiB check, then the PDF service and the
      response validation inside the `try`, whose errors become a 500. */
  function UploadPdf(rt: Runtime, open: PdfOpener, clock: nat -> real, file: UploadedFile, form: Form): (r: Result<OcrPdfResponse, Error>)
    ensures TypeRejected(file.contentType, PDF_TYPES) ==>
      r == Failure(Http(400, TypeNotAllowed(PDF_TYPES, file.contentType)))
    ensures !TypeRejected(file.contentType, PDF_TYPES) && TooLarge(file.size, MAX_PDF_SIZE) ==>
      r == Failure(Http(400, PdfTooLarge))
    ensures (r.Failure? && r.error.Http? && r.error.status == 400) <==>
      TypeRejected(file.contentType, PDF_TYPES) || TooLarge(file.size, MAX_PDF_SIZE)
    ensures r.Failure? ==> r.error.Http? && (r.error.status == 400 || r.error.status == 500)
    ensures r.Failure? && r.error.status == 500 ==> r.error.detail.Wrapped? && r.error.detail.stage == FileOcrProcessing
    ensures r.Success? ==>
      var p := ProcessPdfOcr(rt, open, clock, file.content, Fill(form, UPLOAD_FORM_DEFAULTS));
      && p.Success? && r.value.success && |r.value.results| == |p.value|
      && forall k :: 0 <= k < |p.value| ==> ValidatePdfEntry(p.value[k], rt.parseFloat) == Some(r.value.results[k])
    ensures !TypeRejected(file.contentType, PDF_TYPES) && !TooLarge(file.size, MAX_PDF_SIZE) ==>
      var p := ProcessPdfOcr(rt, open, clock, file.content, Fill(form, UPLOAD_FORM_DEFAULTS));
      && (p.Failure? ==> r == Failure(Http(500, Wrapped(FileOcrProcessing, p.error))))
      && (p.Success? && (exists k :: 0 <= k < |p.value| && ValidatePdfEntry(p.value[k], rt.parseFloat).None?) ==>
            r == Failure(Http(500, Wrapped(FileOcrProcessing, Raised(ValidationError)))))
      && (p.Success? && (forall k :: 0 <= k < |p.value| ==> ValidatePdfEntry(p.value[k], rt.parseFloat).Some?) ==>
            r.Success?)
  {
    if TypeRejected(file.contentType, PDF_TYPES) then
      Failure(Http(400, TypeNotAllowed(PDF_TYPES, file.contentType)))
    else if TooLarge(file.size, MAX_PDF_SIZE) then
      Failure(Http(400, PdfTooLarge))
    else
      match ProcessPdfOcr(rt, open, clock, file.content, Fill(form, UPLOAD_FORM_DEFAULTS))
      case Failure(e) => Failure(Rethrow(500, FileOcrProcessing, e))
      case Success(entries) =>
        match Traverse(entries, (e: PdfPageEntry) => ValidatePdfEntry(e, rt.parseFloat))
        case None => Failure(Rethrow(500, FileOcrProcessing, Raised(ValidationError)))
        case Some(results) => Success(OcrPdfResponse(true, results))
  }

  /** A PDF that does not open is not an error: the upload succeeds with no results. */
  lemma UnreadablePdfGivesEmptyResponse(rt: Runtime, open: PdfOpener, clock: nat -> real, file: UploadedFile, form: Form)
    requires !TypeRejected(file.contentType, PDF_TYPES) && !TooLarge(file.size, MAX_PDF_SIZE)
    requires open(file.content).Failure?
    ensures UploadPdf(rt, open, clock, file, form) == Success(OcrPdfResponse(true, []))
  {
    NoImagesNoEngineNeeded(rt, open, clock, file.content, Fill(form, UPLOAD_FORM_DEFAULTS));
  }
}
