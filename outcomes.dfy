/** Failures of the bridge. Each constructor stands for a Go `error` value
    (or a `log.Panic`) that main.go can meet; a panic is modelled as a
    `Fail` result of the loop that would have panicked. */
module Outcomes {

  datatype Error =
    | RuntimeFailure(cause: string)   // the Docker API was unreachable or a body could not be read
    | DecodeFailure(cause: string)    // a JSON payload from the Docker API did not decode
    | RegistryFailure                 // etcd did not accept a set or a delete
    | MetadataFailure(cause: string)  // the cloud metadata lookup failed
    | HostnameNotString               // `info["publicHostname"].(string)` would panic

  /** A value, or the error that replaced it. */
  datatype Result<T> = Ok(value: T) | Err(error: Error)

  /** The `error` return of a Go function that returns nothing else. */
  datatype Outcome = Pass | Fail(error: Error)
}
