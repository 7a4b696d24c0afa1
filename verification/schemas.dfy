/** The request and response records of the HTTP interface, with their default values. */
module Schemas {
  import opened Results

  /** OCRRequest: a base64 image and the engine options. */
  datatype OcrRequest = OcrRequest(
    image: string,
    useDet: bool,
    useCls: bool,
    useRec: bool,
    textScore: real,
    boxThresh: real,
    unclipRatio: real,
    returnWordBox: bool)

  /** An OCRRequest whose optional fields are left at their defaults. */
  function DefaultOcrRequest(image: string): OcrRequest {
    OcrRequest(image, true, true, true, 0.5, 0.5, 1.6, false)
  }

  /** One recognised text region: its text, the engine's score and the corner points of its box. */
  datatype OcrResult = OcrResult(text: string, confidence: real, bbox: seq<seq<real>>)

  datatype ImageSize = ImageSize(width: int, height: int)

  /** A duration in seconds; `Rounded4` is `round(t, 4)`, whose float arithmetic is not modelled. */
  datatype Seconds = Exact(t: real) | Rounded4(t: real)

  /** OCRResponse */
  datatype OcrResponse = OcrResponse(
    success: bool,
    results: seq<OcrResult>,
    processingTime: Seconds,
    imageSize: ImageSize)

  /** OCRPDFResult: the OCR of one image found on a PDF page. */
  datatype OcrPdfResult = OcrPdfResult(
    page: int,
    index: int,
    result: seq<OcrResult>,
    bboxImage: seq<real>,
    processingTime: Seconds,
    imageSize: ImageSize)

  /** OCRPDFResponse */
  datatype OcrPdfResponse = OcrPdfResponse(success: bool, results: seq<OcrPdfResult>)

  /** PaddleOCRRequest. Only image, use_angle_cls, det_db_box_thresh and det_db_unclip_ratio are used. */
  datatype PaddleOcrRequest = PaddleOcrRequest(
    image: string,
    useAngleCls: bool,
    lang: string,
    detDbThresh: real,
    detDbBoxThresh: real,
    detDbUnclipRatio: real,
    recCharDictPath: Option<string>,
    recBatchNum: int,
    clsBatchNum: int,
    clsThresh: real)

  function DefaultPaddleOcrRequest(image: string): PaddleOcrRequest {
    PaddleOcrRequest(image, true, "ch", 0.3, 0.5, 1.6, None, 6, 6, 0.9)
  }

  /** EasyOCRRequest. Only image and text_threshold are used. */
  datatype EasyOcrRequest = EasyOcrRequest(
    image: string,
    languages: seq<string>,
    gpu: bool,
    modelStorageDirectory: Option<string>,
    downloadEnabled: bool,
    paragraph: bool,
    contrastThs: real,
    adjustContrast: real,
    textThreshold: real,
    linkThreshold: real,
    lowText: real,
    canvasSize: int,
    magRatio: real)

  function DefaultEasyOcrRequest(image: string): EasyOcrRequest {
    EasyOcrRequest(image, ["ch_sim", "en"], true, None, true, false, 0.1, 0.5, 0.7, 0.4, 0.4, 2560, 1.0)
  }
}
