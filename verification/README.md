# rapidocr-onnxruntime-fastapi, modelled in Dafny

This project models the request and response pipeline of a FastAPI service that wraps the
RapidOCR engine. The modelled parts are:

- the normaliser that turns the engine's raw nested output into `{text, confidence, bbox}`
  records;
- the two service pipelines, one for a base64 image and one for a raw pixel buffer, with their
  error mapping;
- the generic, PaddleOCR-compatible and EasyOCR-compatible endpoints, with their option
  mappings and result shapes;
- the binary and fast raw-buffer endpoints;
- the image and PDF upload endpoints, with their content-type and size checks;
- the PDF image extraction loop and the per-image OCR loop;
- the request and response schemas with their defaults, and the configuration constants.

Everything is written as pure functions over immutable datatypes. The code the service calls
but does not own is passed in as function-typed inputs, collected in the `Collaborators.Runtime`
record:

- the engine handle, which may be absent;
- `base64.b64decode`;
- the PIL image loader;
- Python's `float` on strings.

The PDF library is represented by the data it answers with: a document is a sequence of page
fetches, each of which may fail, and each page is an image-info list whose entries may fail.
Python exceptions are the `Failures.Error` datatype. An `HTTPException` raised from a catch
block keeps its status and the stage that caught it (`Wrapped(stage, cause)`), where the
source formats a message string.

Modules, one per concern:

- `Results` has the Option and Result types and two shared sequence helpers.
- `Failures` has the errors.
- `Values` covers Python's dynamic values: `len`, indexing, iteration, `float` and the pydantic
  list coercions.
- `Config` holds the configuration constants.
- `Base64` is section 4 of RFC 4648: an encoder and a strict decoder, with a round-trip proof.
- `Images` covers pixel buffers, numpy's reshape and the RGB to BGR swap.
- `Collaborators` is the foreign code, as inputs.
- `Schemas` holds the request and response records.
- `ImageUtils` is the base64 image decoder.
- `OcrService` has the normaliser and the two pipelines.
- `OcrEndpoints` has the JSON and raw-buffer endpoints.
- `PdfService` has PDF extraction and the OCR of each image.
- `Upload` has the multipart upload endpoints.

## Model

| member | source | states |
|---|---|---|
| Values.Elements | app/services/ocr_service.py:28 | iterating a value succeeds exactly when it has a length; the elements are its items (one-character strings for a string), otherwise TypeError |
| Values.ToFloat | app/services/ocr_service.py:36 | `float(v)` succeeds exactly for a number or a parsable string; an unparsable string raises ValueError, anything else TypeError |
| Values.FloatsOf | app/models/schemas.py:42 | a `List[float]` field accepts exactly a list or tuple whose every element converts, keeping length and order |
| Values.PointsOf | app/models/schemas.py:25 | a `List[List[float]]` field accepts exactly a list or tuple of such lists, element by element |
| Config.MaxFileSize | app/core/config.py:7 | the upload ceiling is 10 * 1024 * 1024 bytes when the setting is absent, the setting otherwise |
| Config.AllowedTypesAreImageTypes | app/core/config.py:8-15 | every allowed type starts with `image/`, so no `application/` type (pdf, zip, ...) is a member under exact string equality |
| Config.WarmupEnabled | app/core/config.py:18 | warmup is on when the setting is absent, never for "false", and only for a four-character setting |
| Config.WarmupEnabledIff | app/core/config.py:18 | warmup is on when the setting is absent, and otherwise exactly when it is the four letters t, r, u, e in any mix of cases |
| Base64.Encode | app/api/endpoints/upload.py:43 | the encoding has 4 * ceil(n / 3) characters, all from the base64 alphabet or `=` |
| Base64.EncodeHasNoComma | app/api/endpoints/upload.py:43 | encoded text never contains a comma |
| Base64.DecodeEncode | app/utils/image_utils.py:19 | decoding the encoding of any byte string gives that byte string back |
| Images.Reshape | app/services/ocr_service.py:108 | with non-negative dimensions the reshape succeeds exactly when the buffer has height * width * 3 bytes; the array keeps the buffer's bytes in row-major order and the given dimensions; two inferred dimensions fail; every failure is ValueError; with exactly one negative dimension it succeeds exactly when the other is positive and divides the buffer into whole rows or columns of pixels, and the inferred dimension is the quotient |
| Images.BufferOfPixelsOf | app/api/endpoints/ocr.py:158 | flattening the reshaped pixels gives the buffer back |
| Images.PixelsOfBufferOf | app/api/endpoints/ocr.py:158 | reshaping a flattened pixel array gives the pixels back |
| Images.SwapRedBlue | app/utils/image_utils.py:26 | the colour conversion keeps height, width and pixel count, and well-formedness both ways; each pixel's first and third channels trade places and the middle one stays (RGB to BGR) |
| Images.SwapRedBlueInvolution | app/utils/image_utils.py:26 | converting twice gives back the original image |
| ImageUtils.Split | app/utils/image_utils.py:17 | `str.split` gives at least one part, no part contains the separator, and joining the parts restores the string |
| ImageUtils.StripDataUriPrefix | app/utils/image_utils.py:16-17 | the kept payload has no comma, and a string without a comma is passed on unchanged |
| ImageUtils.StripKeepsSecondSegment | app/utils/image_utils.py:16-17 | with a comma present, the payload is exactly the text strictly between the first comma and the second comma (or the end) |
| ImageUtils.StripIdempotent | app/utils/image_utils.py:16-17 | stripping twice is the same as stripping once |
| ImageUtils.DecodeBase64Image | app/utils/image_utils.py:12-29 | decoding succeeds exactly when both the base64 decode and the image load succeed; every failure is a 400 "Invalid image format" wrapping the decoder's error, or else the loader's; the result keeps the loaded image's size and is its RGB to BGR conversion |
| OcrService.KeptPositions | app/services/ocr_service.py:28-29 | the kept positions are exactly the items with length at least three, strictly increasing |
| OcrService.ToRecord | app/services/ocr_service.py:29-38 | a kept item converts exactly when `float(item[2])` succeeds, `item[1]` is a string and `item[0]` is a list of coordinate lists; the record takes its bbox, text and confidence from those three elements only; a failure is `float()`'s error when the confidence does not convert (ValueError for a string, TypeError otherwise), and a ValidationError only after that succeeds |
| OcrService.NormaliseItems | app/services/ocr_service.py:27-40 | the loop yields at most one record per detection |
| OcrService.NormaliseItemsSucceedsIff | app/services/ocr_service.py:28-38 | the loop gets through exactly when every item has a length and every item of length at least three converts |
| OcrService.NormaliseItemsRecords | app/services/ocr_service.py:28-38 | on success the records are the conversions of exactly the kept items, in their original order |
| OcrService.NormaliseItemsFirstError | app/services/ocr_service.py:28-38 | on failure the error is that of the first item the loop cannot get past: TypeError for an unsized item, else its conversion error |
| OcrService.Normalise | app/services/ocr_service.py:17-40 | a raw result that is not a list or tuple, is empty, or has a None first element gives no records; otherwise the records of `raw[0]`'s items as above, at most one per item, or a TypeError when `raw[0]` is not iterable; when an item fails, the error is that of the first item the loop cannot get past |
| OcrService.NormaliseReadsFirstElementOnly | app/services/ocr_service.py:17-28 | only `raw[0]` matters, and `return_word_box` makes no difference |
| OcrService.ProcessOcrRequest | app/services/ocr_service.py:43-91 | no engine gives the 500 "OCR model not initialized" before any decoding; every other failure, the decoder's 400 included, becomes a 500 "OCR processing error"; past the decoder, an engine error or a normaliser error is wrapped as that 500, and when both succeed the result is exactly the normalised records, the measured time and the decoded image's (width, height), the engine having got every option as given |
| OcrService.ProcessBinaryOcr | app/services/ocr_service.py:94-126 | no engine gives the not-initialised 500; the reshape's, the engine's and the normaliser's errors each become a 500 "Binary OCR processing error" wrapping them, and with non-negative height and width a buffer whose length is not height * width * 3 is such a reshape error, while with one negative dimension the reshape infers it and the call can succeed, echoing the negative value; the engine is called with no options; when every step succeeds the result is exactly the normalised records (no word boxes), the measured time and the request's width and height |
| OcrService.EchoedSizeIgnoresInferredHeight | app/services/ocr_service.py:108-122 | for any negative height and any buffer of whole rows of a positive width, the array's height is inferred as the number of rows, yet the response reports the negative height as sent |
| OcrEndpoints.OptionsOfForwardsEveryField | app/api/endpoints/ocr.py:20-29 | the eight request fields reach the service unchanged: request and options can each be rebuilt from the other |
| OcrEndpoints.RequestDefaultsAgreeWithService | app/models/schemas.py:9-18 | the OCRRequest defaults are det/cls/rec on, 0.5, 0.5, 1.6, i.e. the service defaults except that return_word_box is off |
| OcrEndpoints.OcrEndpointV1 | app/api/endpoints/ocr.py:18-36 | the v1 endpoint fails exactly when the service fails, with the same error; otherwise success is true and the records and size are the service's, unchanged |
| OcrEndpoints.OcrEndpoint | app/api/endpoints/ocr.py:39-41 | the standard endpoint answers exactly as the v1 endpoint |
| OcrEndpoints.PaddleOptions | app/api/endpoints/ocr.py:46-51 | use_angle_cls, det_db_box_thresh and det_db_unclip_ratio become use_cls, box_thresh and unclip_ratio; the other options keep the service defaults |
| OcrEndpoints.PaddleDefaultsAreServiceDefaults | app/models/schemas.py:54-65 | a PaddleOCR request left at its defaults runs the engine with the service defaults |
| OcrEndpoints.PaddleIgnoredFields | app/api/endpoints/ocr.py:46-51 | lang, det_db_thresh and the rec_* and cls_* fields have no effect on the answer |
| OcrEndpoints.ToPaddle | app/api/endpoints/ocr.py:54-60 | one named-field entry per record, same order, identical text, confidence and bbox |
| OcrEndpoints.PaddleRoundTrip | app/api/endpoints/ocr.py:54-60 | the records can be read back from the PaddleOCR entries |
| OcrEndpoints.PaddleRoundTripBack | app/api/endpoints/ocr.py:54-60 | every list of PaddleOCR entries is the image of the records read back from it |
| OcrEndpoints.PaddleOcrEndpoint | app/api/endpoints/ocr.py:44-67 | fails exactly when the service fails on the mapped options, with the same error; otherwise the service's records as PaddleOCR entries, the rounded time and the size |
| OcrEndpoints.PaddleEndpointIsV1Reshaped | app/api/endpoints/ocr.py:44-67 | the PaddleOCR endpoint is the v1 endpoint on the mapped request, with the records reshaped and the same errors, time and size |
| OcrEndpoints.EasyOptions | app/api/endpoints/ocr.py:72-78 | det, cls and rec are forced on, text_score is text_threshold, and the rest are service defaults |
| OcrEndpoints.EasyDefaultsAreServiceDefaults | app/models/schemas.py:69-83 | an EasyOCR request left at its defaults differs from the service defaults only by its 0.7 text score |
| OcrEndpoints.EasyIgnoredFields | app/api/endpoints/ocr.py:72-78 | only image and text_threshold affect the EasyOCR answer |
| OcrEndpoints.ToEasy | app/api/endpoints/ocr.py:81-87 | one `[bbox, text, confidence]` triple per record, same order |
| OcrEndpoints.EasyRoundTrip | app/api/endpoints/ocr.py:81-87 | the records can be read back from the triples |
| OcrEndpoints.EasyRoundTripBack | app/api/endpoints/ocr.py:81-87 | every list of triples is the image of the records read back from it |
| OcrEndpoints.EasyOcrEndpoint | app/api/endpoints/ocr.py:70-94 | fails exactly when the service fails on the mapped options, with the same error; otherwise the service's records as triples, the rounded time and the size |
| OcrEndpoints.EasyEndpointIsV1Reshaped | app/api/endpoints/ocr.py:70-94 | the EasyOCR endpoint is the v1 endpoint on the mapped request, with records as triples and the same errors, time and size |
| OcrEndpoints.AdaptersCarryTheSameData | app/api/endpoints/ocr.py:54-87 | both adapters carry the same text, confidence and bbox at every position |
| OcrEndpoints.BinaryOcrEndpoint | app/api/endpoints/ocr.py:97-127 | no engine gives the not-initialised 500 unwrapped; otherwise the endpoint fails exactly when the binary service does, with a 500 "Binary OCR processing error" wrapping the service's own error, and on success answers with the service's records, rounded time and echoed width and height |
| OcrEndpoints.FillBetweenDefaultsAndValues | app/api/endpoints/ocr.py:134-140 | a form with no option fields runs with the endpoint's defaults, and a form with all of them runs with exactly what was sent |
| OcrEndpoints.FillReadsDefaultsOnlyWhereOmitted | app/api/endpoints/upload.py:19-25 | a default matters only for a field the client left out |
| OcrEndpoints.FastOcrEndpoint | app/api/endpoints/ocr.py:130-190 | no engine gives the not-initialised 500; the reshape's, the engine's and the normaliser's errors each become a 500 "Fast OCR processing error" wrapping them; with non-negative height and width a buffer whose length is not height * width * 3 is a reshape error, while with one negative dimension the reshape infers it and the call can succeed, echoing the negative value; when every step succeeds the response is exactly the normalised records, the rounded time and the request's width and height, the engine having got every option as given; the options are the form fields sent, with det/cls/rec on, 0.5, 0.5, 1.6 and no word boxes for those left out |
| PdfService.PageImages | app/services/pdf_service.py:27-51 | within a page, only entries with a four-element bbox and a rendered pixmap are kept, each with its own pixmap, bbox and enumerate position, in increasing position order |
| PdfService.PageImagesComplete | app/services/pdf_service.py:27-51 | every entry with a four-element bbox and a rendered pixmap is kept, so failed entries only leave gaps in the indices |
| PdfService.PagesFrom | app/services/pdf_service.py:21-55 | every image extracted from page `first` on has a page number after `first` whose fetch succeeded, and a failed fetch of page `first` yields nothing |
| PdfService.PagesFromSound | app/services/pdf_service.py:21-55 | every extracted image comes from a page reached without a failed fetch, with that page's bbox and pixmap and its 1-based page number |
| PdfService.PagesFromOrdered | app/services/pdf_service.py:21-47 | extracted images are in strict (page, index) order |
| PdfService.PagesFromComplete | app/services/pdf_service.py:21-55 | every usable entry of every reached page is extracted |
| PdfService.ExtractImages | app/services/pdf_service.py:11-61 | a document that does not open yields nothing; otherwise exactly the usable images of the pages before the first failed page fetch, in (page, index) order, with 1-based pages; failed listings and failed entries are skipped |
| PdfService.FailedFetchHidesLaterPages | app/services/pdf_service.py:21-23 | a page fetch that raises ends the extraction, hiding later pages' usable images |
| PdfService.Collect | app/services/pdf_service.py:83-97 | unguarded calls in sequence succeed exactly when every call does, with their results in order; otherwise the first failure is what comes out |
| PdfService.OcrImages | app/services/pdf_service.py:83-106 | one entry per extracted image in order, with page, index and bbox copied and the OCR's records, unrounded time and size; any image's OCR failure aborts with the first such error |
| PdfService.ProcessPdfOcr | app/services/pdf_service.py:64-108 | the PDF OCR succeeds exactly when every extracted image's OCR does, with one entry per image carrying its page, index and bbox and that image's records, unrounded time and size; otherwise the error is the first failing image's |
| PdfService.NoImagesNoEngineNeeded | app/services/pdf_service.py:80-108 | a PDF without usable images succeeds with no entries, even with no engine |
| PdfService.NoEngineFailsOnFirstImage | app/services/pdf_service.py:83-97 | with no engine, a PDF with any usable image fails with the not-initialised 500 |
| Upload.UploadDefaultsAreServiceDefaults | app/api/endpoints/upload.py:17-26 | the upload form defaults are the service defaults, and differ from the fast endpoint's only in return_word_box |
| Upload.UploadImage | app/api/endpoints/upload.py:17-66 | the options are the form fields sent, with the service defaults (word boxes on) for those left out; a missing or unlisted content type is a 400, checked before size; a known nonzero size above the OCR_MAX_FILE_SIZE ceiling is a 400, and a size equal to it passes; these are the only 400s; every later failure is a 500 "File OCR processing error" wrapping the service error; on success the service's records and size |
| Upload.UploadChecksComeFirst | app/api/endpoints/upload.py:29-66 | even with no engine, a wrong type gets the 400; past the checks the not-initialised 500 arrives wrapped again |
| Upload.UploadedBytesReachLoader | app/api/endpoints/upload.py:42-43 | the encoded upload has no comma, so nothing is stripped, and a standard decoder hands the loader exactly the uploaded bytes |
| Upload.NoTypePassesBothChecks | app/api/endpoints/upload.py:81-86 | the image and PDF allow-lists are disjoint |
| Upload.ValidatePdfEntry | app/models/schemas.py:37-44 | an entry validates exactly when its bbox is a list of floats; the fields are copied and the time is kept unrounded |
| Upload.NumericBoxValidates | app/models/schemas.py:42 | a tuple of numbers, as the PDF library reports a bbox, always validates |
| Upload.UploadPdf | app/api/endpoints/upload.py:69-114 | the options are filled from the form as for image uploads; only application/pdf and image/pdf pass, before the 10 GiB check; these are the only 400s; past the checks, a PDF OCR error becomes a 500 "File OCR processing error" wrapping it, an entry that fails validation makes that 500 wrap a ValidationError, and when every entry validates the upload succeeds with the validated entries in order |
| Upload.UnreadablePdfGivesEmptyResponse | app/api/endpoints/upload.py:92-111 | a PDF the library cannot open gives a successful response with no results |

## Left out

- Timing: `time.time()` differences are inputs (`elapsed`, and `clock` per PDF image). `round(t, 4)` is kept symbolic (`Seconds.Rounded4`), because float rounding is not modelled.
- Float arithmetic in general: thresholds, ratios, scores and coordinates are `real` values passed through untouched. Python `float` values are reals.
- The OCR engine (RapidOCR), its construction, warmup and lifecycle: foreign inference. It is an input function that returns a raw value or raises. Its absence models `get_ocr_model()` returning None.
- PIL image loading, the `convert('RGB')` step and `base64.b64decode` are input functions. The concrete encoder is modelled because the upload path's own payload goes through it.
- The PDF library: opening, page fetching, image listing and pixmap rendering are data. `doc.close()` is not modelled. It runs after the page loop, so a failure there is caught by the outer handler and the images already collected are returned unchanged.
- Reading the uploaded bytes: the content is given. A failing read would be caught like every other error in the upload `try` blocks.
- Images.Reshape: follows numpy 1.x, where any negative dimension is the inferred one. Overflow of numpy's index type for huge dimensions is not modelled.
- Values: there are no booleans and no custom `__len__` or `__float__` objects. Pydantic v2 lax mode is assumed: `text` must be a `str`, and floats accept numbers and numeric strings.
- Config.MaxFileSize: the environment string is taken as already parsed. A non-integer setting makes `int()` fail at import time, which is not modelled.
- Config.WarmupEnabledIff: lower-casing is ASCII only. No other character lower-cases to one of the letters t, r, u, e, so the comparison with "true" decides the same as with full Unicode lower-casing.
- Message texts: an `HTTPException` detail is the stage and the cause, not the formatted string (the comments on `Failures.Stage` give each stage's message). The allow-list and size messages are kept as their parameters.
- Logging, FastAPI routing, middleware, exception handlers, application wiring and the health endpoint: framework plumbing with no logic of its own.
- Concurrency: every call is modelled as running alone.
