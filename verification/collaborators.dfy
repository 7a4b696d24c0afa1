/** The code the service calls but does not own, passed in as functions: the OCR engine
    handle, the base64 decoder, the image loader and Python's string-to-float parser. */
module Collaborators {
  import opened Results
  import opened Failures
  import opened Values
  import opened Images

  /** The engine's keyword arguments. Thresholds and ratios are passed through untouched. */
  datatype Options = Options(
    useDet: bool,
    useCls: bool,
    useRec: bool,
    textScore: real,
    boxThresh: real,
    unclipRatio: real,
    returnWordBox: bool)

  /** How the engine is called: with no keyword arguments, or with all of them. */
  datatype Call = EngineDefaults | WithOptions(options: Options)

  /** `ocr_model(image, **kwargs)`: the engine's raw nested output, or what it raises. */
  type Engine = (Image, Call) -> Result<Value, Error>

  datatype Runtime = Runtime(
    engine: Option<Engine>,                    // get_ocr_model(); None before start-up or after shutdown
    b64decode: string -> Result<Bytes, Error>, // base64.b64decode
    loadRgb: Bytes -> Result<Image, Error>,    // Image.open, convert('RGB') when needed, np.array
    parseFloat: string -> Option<real>)        // float(s) for a string s
}
