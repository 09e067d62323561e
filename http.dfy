/** The error responses the route handlers send with an early `return`. */
module Http {

  /** A status code and the `error` field of the JSON body. */
  datatype HttpError = HttpError(status: nat, error: string)
}
