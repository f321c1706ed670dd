/** Option and Result, used where the Java code returns null or throws. */
module Wrappers {

  /** A value or Java's null. */
  datatype Option<+T> = None | Some(value: T) {
    function GetOr(default: T): T {
      match this
      case Some(v) => v
      case None => default
    }
  }

  /** A normal return or a thrown exception. */
  datatype Result<+T, +E> = Ok(value: T) | Err(error: E)
}

/** The exceptions the core throws, checked and unchecked alike. */
module Exceptions {

  datatype Exception =
    | ServiceHostNotFound                 // no registered domain matches the Host header
    | NoAvailableEndpoints                // every candidate endpoint failed
    | CacheNotAvailable                   // the cache store cannot be reached
    | InvalidServiceDefinition(definition: string)
    | IllegalArgument(text: string)       // Enum.valueOf on an unknown strategy name, a socket address with a port out of range
    | NumberFormat(text: string)          // Long.parseLong / Integer.parseInt on a non-number
    | IndexOutOfBounds(text: string)      // split(...)[i] on a string with too few pieces, get(i) on a short list
    | NullPointer                         // a method called on a null reference
}
