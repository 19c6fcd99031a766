/** Values shared by every stage of the ingestion pipeline: optional values,
    the exceptions the pipeline raises or catches, and replies of the remote
    HTTP services it talks to. */
module Base {

  datatype Option<+T> = None | Some(value: T) {
    function GetOr(default: T): T {
      match this
      case Some(v) => v
      case None => default
    }
  }

  /** Raw file contents, such as a downloaded image. */
  type Bytes = seq<bv8>

  /** The exceptions that cross the stage boundaries of the pipeline. */
  datatype Exception =
    | HttpError(status: int)        // raised by `raise_for_status` on a 4xx or 5xx reply
    | ConnectionFailure             // the HTTP library raised before any reply arrived
    | ValueError(message: string)
    | RuntimeError(message: string)
    | FileNotFound(message: string)
    | KeyError(key: string)
    | IndexRejected                 // the vector index refused a range, delete or upsert call

  /** A Python computation that either returns a value or raises. */
  datatype Result<+T> = Ok(value: T) | Raised(exception: Exception)

  /** The reply of one HTTP request: a status code and a decoded body, or
      nothing at all when the request itself failed (timeout, refused
      connection). */
  datatype Reply<+T> = Received(status: int, body: T) | NoResponse

  /** `Response.raise_for_status()` raises for client and server errors only;
      any other status (1xx, 2xx, 3xx) passes silently. */
  predicate RaisesForStatus(status: int) {
    400 <= status < 600
  }

  /** `str(e)` for the pipeline's own exceptions; the text of the HTTP
      library's exceptions is not modelled, only a short stand-in. */
  function Message(e: Exception): string
  {
    match e
    case HttpError(_) => "HTTP error status"
    case ConnectionFailure => "connection failed"
    case ValueError(msg) => msg
    case RuntimeError(msg) => msg
    case FileNotFound(msg) => msg
    case KeyError(k) => "'" + k + "'"
    case IndexRejected => "vector index request failed"
  }
}
