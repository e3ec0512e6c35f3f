/** Optional values, results, and the errors the core raises. */
module Results {

  /** A value that may be absent: Python's `None`. */
  datatype Option<+T> = None | Some(value: T)

  /** The exceptions the modelled code raises and does not catch itself. */
  datatype Error =
    | InvalidCollection(collection: string)  // ValueError from the controller's constructor
    | InvalidService(service: string)        // ValueError from retrieve_last_monitoring_dt
    | ApiError                               // ConnectionError on a page after the first, or a transport failure
    | BadDate(text: string)                  // ValueError from strptime

  /** Either a value or the exception that replaced it. */
  datatype Result<+T> = Ok(value: T) | Err(error: Error)
}
