/** Error kinds and the value-or-error shape shared by both packages.
    Go returns `(value, error)` pairs; here a call either succeeds with a
    value or fails with one error tag. Error message text is not modelled. */
module Results {

  datatype Error =
    | SegmentNotFound   // parth: "path segment index %d does not exist"
    | IntNotFound       // parth: "path segment does not contain int"
    | FloatNotFound     // parth: "path segment does not contain float"
    | IndexOutOfRange   // a Go run-time panic: a byte read past the end of a string
    | OutOfBounds       // pathparse: "%d is out of bounds"
    | Unparsable        // a syntax or range error reported by strconv

  datatype Option<+T> = None | Some(value: T)

  datatype Result<+T> = Ok(value: T) | Err(error: Error) {

    /** The value on success, the given zero value on failure. */
    function GetOr(zero: T): T {
      match this
      case Ok(v) => v
      case Err(_) => zero
    }

    /** The error a failure reports, None on success. */
    function Failure(): Option<Error> {
      match this
      case Ok(_) => None
      case Err(e) => Some(e)
    }
  }
}
