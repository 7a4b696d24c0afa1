/** The errors the service raises: Python exceptions from library code and the
    `HTTPException`s the service code raises, with the HTTP status and the detail message. */
module Failures {
  import opened Results

  /** The class of a Python exception raised below the service code. */
  datatype Exception =
    | TypeError        // len() or iteration on an object that supports neither
    | ValueError       // float() of an unparsable string, a reshape size mismatch
    | ValidationError  // a pydantic model rejected a field
    | Other(name: string)

  /** The service-level catch blocks; each prefixes the caught error's text with its own message. */
  datatype Stage =
    | OcrProcessing        // process_ocr_request: "OCR processing error: "
    | BinaryOcrProcessing  // process_binary_ocr and binary_ocr_endpoint: "Binary OCR processing error: "
    | FastOcrProcessing    // fast_ocr_endpoint: "Fast OCR processing error: "
    | FileOcrProcessing    // upload_file and upload_file_pdf: "File OCR processing error: "
    | InvalidImageFormat   // decode_base64_image: "Invalid image format: "

  /** The `detail` of an `HTTPException`. */
  datatype Detail =
    | NotInitialized                                       // "OCR model not initialized"
    | Wrapped(stage: Stage, cause: Error)                  // the stage's message + str(cause)
    | TypeNotAllowed(allowed: seq<string>, given: Option<string>)
    | ImageTooLarge(limit: int)                            // "File too large. Max size: {limit} bytes"
    | PdfTooLarge                                          // "File too large. Max size: 10GB"

  datatype Error =
    | Raised(exc: Exception)
    | Http(status: int, detail: Detail)

  /** The error every entry point raises when the engine handle is absent. */
  const NOT_INITIALIZED: Error := Http(500, NotInitialized)

  /** `except Exception as e: raise HTTPException(status, <stage message> + str(e))` */
  function Rethrow(status: int, stage: Stage, cause: Error): Error {
    Http(status, Wrapped(stage, cause))
  }
}
