/** Values that the backend's Python code passes around besides documents:
    optional values, the exceptions that can escape a fetch or an index
    write, and the "returned a value or raised" shape of a call. */
module Outcomes {

  datatype Option<+T> = None | Some(value: T)

  /** The exceptions that can reach the batch loop's `except Exception`
      handler or escape the single-item endpoint. */
  datatype Exception =
    | RequestError(detail: string)     // raised by the HTTP client fetching the listing page
    | AttributeError(detail: string)   // `.text` looked up on a missing anchor (None)
    | KeyError(key: string)            // an anchor without the looked-up attribute
    | StoreError(detail: string)       // raised by the search-index client

  /** Python's `str(e)`: a KeyError prints the repr of its key, the other
      exceptions print their message. The repr is written here as the key
      between single quotes, which is what Python prints for a key without
      quote characters, backslashes or non-printing characters. "href" is
      the only key the reading of the listing page can miss; the other keys
      the code looks up have plain ASCII names, for which this is exact
      too. */
  function Str(e: Exception): (m: string)
    ensures e.KeyError? ==> |m| == |e.key| + 2 && m[0] == '\'' && m[|m| - 1] == '\''
    ensures e.KeyError? ==> m[1..|m| - 1] == e.key
    ensures !e.KeyError? ==> m == e.detail
  {
    match e
    case KeyError(k) => "'" + k + "'"
    case RequestError(d) => d
    case AttributeError(d) => d
    case StoreError(d) => d
  }

  /** The outcome of a Python call: it returned a value or raised. */
  datatype Raises<+T> = Ok(value: T) | Raised(exc: Exception)
}
