/** Result types shared by the models. */
module Wrappers {
  datatype Option<+T> = None | Some(value: T)

  datatype Result<+T> = Ok(value: T) | Err(error: Error)

  /** The exception classes the modelled code raises. */
  datatype Error =
    | ValueError
    | IndexError
    | OverflowError
    | ConflictError
    | EventStoreError
    | IntegrityError
    | ReplayError
    | EnrollmentError
    | ConfigurationError
    | IntegrationError
}
