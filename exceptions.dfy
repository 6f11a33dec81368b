/** The Python exceptions the scripts raise or catch, and `str(e)` for each. */
module Exceptions {
  import opened Text

  datatype Exc =
    | JSONDecodeError(message: string)      // `json.loads` rejected the line
    | AttributeError(typeName: string)      // `.get` called on a value that is not a dict
    | TypeError(message: string)
    | HTTPError(message: string)            // raised by `raise_for_status`
    | RequestException(message: string)     // timeout, DNS or connection failure, invalid URL
    | OSError(errno: nat, strerror: string, filename: string)
    | IndexError(message: string)
    | ValueError(message: string)
    | Exception(message: string)            // a plain `Exception` raised by the scripts

  /** `str(e)`. */
  function Describe(e: Exc): string {
    match e
    case JSONDecodeError(m) => m
    case AttributeError(t) => "'" + t + "' object has no attribute 'get'"
    case TypeError(m) => m
    case HTTPError(m) => m
    case RequestException(m) => m
    case OSError(n, s, f) => "[Errno " + NatToString(n) + "] " + s + ": " + StrRepr(f)
    case IndexError(m) => m
    case ValueError(m) => m
    case Exception(m) => m
  }

  /** What a Python call does: return a value or raise. */
  datatype Outcome<+T> = Ok(value: T) | Raised(exc: Exc)
}
