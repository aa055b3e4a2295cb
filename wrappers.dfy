/** Outcomes of the client's calls: a value, or the exception Python would raise. */
module Wrappers {

  datatype Option<+T> = None | Some(value: T)

  /** The failures the prediction client can surface to its caller. */
  datatype Error =
    | ImageLoadError          // the image could not be opened or re-encoded
    | TransportError          // the POST to the prediction service did not complete
    | DecodeError             // the response body was not JSON
    | KeyError(key: string)   // a key looked up in the decoded response is missing
    | TypeError               // a method was called with the wrong number of arguments

  datatype Result<+T> = Ok(value: T) | Err(error: Error)
}
