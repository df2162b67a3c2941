/** `GlobalExceptionHandler`: turns an exception escaping a controller into
    an error response. The timestamp and the request description it adds are
    left out. */
module GlobalExceptionHandler {
  import opened Wrappers
  import opened Exceptions
  import opened Errors
  import PermissionService

  /** `HttpStatus.INTERNAL_SERVER_ERROR`. */
  const InternalServerError: int := 500

  /** `ErrorDetails` without its timestamp and request. */
  datatype ErrorDetails = ErrorDetails(errorType: ErrorType, errorCode: int, message: Message)

  datatype Response = Response(body: ErrorDetails, status: int)

  /** The response for one error type: the type, its code and the message. */
  function Details(errorType: ErrorType, e: Exception): (r: Response)
    ensures r.status == InternalServerError
    ensures r.body.errorType == errorType && r.body.message == e.message
    ensures FromCode(r.body.errorCode) == Some(errorType)
  {
    Response(ErrorDetails(errorType, errorType.Code(), e.message), InternalServerError)
  }

  /** Spring picks the most specific matching `@ExceptionHandler`: the
      optimistic-lock handler for `OptimisticLockException`, the generic one
      for every other exception. */
  function Handle(e: Exception): (r: Response)
    ensures r.status == InternalServerError
    ensures r.body.message == e.message
    ensures r.body.errorType == OptimisticLockingException <==> e.kind == OptimisticLock
    ensures r.body.errorType == GenericException <==> e.kind != OptimisticLock
  {
    if e.kind == OptimisticLock then Details(OptimisticLockingException, e)
    else Details(GenericException, e)
  }

  /** A client reading the body recovers the error type from the code alone,
      and from its JSON value. */
  lemma ResponseIdentifiesType(e: Exception)
    ensures var d := Handle(e).body;
      && FromCode(d.errorCode) == Some(d.errorType)
      && FromJsonValue(d.errorType.ToJsonValue()) == Some(d.errorType)
      && (d.errorCode == 1 <==> e.kind == OptimisticLock)
  {
    JsonValueRoundTrip(Handle(e).body.errorType);
  }

  /** The service's own version check throws a plain `RuntimeException`, not
      an `OptimisticLockException`, so a stale update reaches the client as a
      generic error with code 0. */
  lemma VersionMismatchIsGeneric()
    ensures var r := Handle(Throw(Runtime, PermissionService.VersionMismatchMessage));
      && r.body.errorType == GenericException
      && r.body.errorCode == 0
      && r.body.message == Text("Version mismatch")
  {
  }
}
