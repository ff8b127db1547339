/**
 * ExceptionFilter.OnException: map an exception to an ObjectResult with a status code and an
 * `error` body, store it in the exception context and mark the exception handled.
 *
 * Only DeviceAlreadyExistsException has a case of its own (409 with its message); every
 * other exception gets 500 with a fixed text. The filter's logger is not part of this model.
 */
module ExceptionFilter {
  import opened Wrappers
  import opened Exceptions

  const Status409Conflict := 409
  const Status500InternalServerError := 500
  const UnexpectedErrorText := "An unexpected error occurred."

  /** An ObjectResult whose value is the anonymous object `{ error = … }`. */
  datatype ObjectResult = ObjectResult(statusCode: int, error: string)

  /** The switch expression that picks the response. */
  function ResponseFor(e: Exception): (r: ObjectResult)
    ensures r.statusCode == Status409Conflict || r.statusCode == Status500InternalServerError
    ensures r.statusCode == Status409Conflict <==> e.DeviceAlreadyExists?
    ensures e.DeviceAlreadyExists? ==> r.error == Message(e)
    ensures r.statusCode == Status500InternalServerError ==> r.error == UnexpectedErrorText
  {
    match e
    case DeviceAlreadyExists(_) => ObjectResult(Status409Conflict, Message(e))
    case _ => ObjectResult(Status500InternalServerError, UnexpectedErrorText)
  }

  /** A 500 response carries nothing of the exception: any two exceptions that reach it get the same response. */
  lemma UnexpectedResponseIsUniform(e1: Exception, e2: Exception)
    requires !e1.DeviceAlreadyExists? && !e2.DeviceAlreadyExists?
    ensures ResponseFor(e1) == ResponseFor(e2)
    ensures ResponseFor(e1) == ObjectResult(Status500InternalServerError, UnexpectedErrorText)
  {
  }

  /** The 409 body names the conflicting serial number: it stands verbatim after the fixed prefix. */
  lemma {:induction false} ConflictBodyNamesSerial(serialText: string)
    ensures var r := ResponseFor(DeviceAlreadyExists(serialText));
      r.statusCode == Status409Conflict
      && |AlreadyExistsPrefix| + |serialText| <= |r.error|
      && r.error[|AlreadyExistsPrefix|..|AlreadyExistsPrefix| + |serialText|] == serialText
  {
  }

  /** The part of ExceptionContext the filter reads and writes. */
  class ExceptionContext {
    const exception: Exception
    var result: Option<ObjectResult>
    var exceptionHandled: bool

    constructor (exception: Exception)
      ensures this.exception == exception && result == None && !exceptionHandled
    {
      this.exception := exception;
      result := None;
      exceptionHandled := false;
    }
  }

  method OnException(context: ExceptionContext)
    modifies context
    ensures context.result == Some(ResponseFor(context.exception))
    ensures context.exceptionHandled
  {
    var response := ResponseFor(context.exception);
    context.result := Some(response);
    context.exceptionHandled := true;
  }
}
