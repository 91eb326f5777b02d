/**
 * The global exception filter (`GlobalExceptionFilter.catch`): every exception that reaches it is
 * classified into an HTTP status, a message and an error label, and answered with a JSON body
 * carrying the same status.
 */
module ExceptionFilter {
  import opened Common

  /** A value found in a `message` or `error` field: a string, or a list of strings (validation messages). */
  datatype Value = Str(s: string) | Strs(items: seq<string>)

  /** JavaScript truthiness of such a value: only the empty string is falsy (an array, even empty, is truthy). */
  predicate Truthy(v: Value) {
    !(v.Str? && v.s == "")
  }

  /** What `HttpException.getResponse()` returns: an object whose fields may be missing, or a bare string. */
  datatype HttpResponse =
    | ObjectResponse(message: Option<Value>, error: Option<Value>)
    | StringResponse(text: string)

  /** The kinds of exception the filter tells apart; everything else is `OtherError`. */
  datatype Exception =
    | HttpException(status: int, response: HttpResponse)
    | MongoError(code: int)
    | OtherError

  /** The JSON body written back: `{ statusCode, message, error }` (the timestamp is left out). */
  datatype ErrorBody = ErrorBody(statusCode: int, message: Value, error: Value)

  /** The HTTP status the response is sent with, and its body. */
  datatype Reply = Reply(status: int, body: ErrorBody)

  const InternalServerErrorStatus: int := 500
  const ConflictStatus: int := 409
  const DuplicateKeyCode: int := 11000
  const DefaultMessage: string := "Internal server error"
  const DefaultError: string := "Internal Server Error"

  /**
   * `obj.field || fallback`: the result is the field's own value or the fallback, a present truthy
   * field is never overridden, and a truthy fallback guarantees a truthy result.
   */
  function OrElse(field: Option<Value>, fallback: Value): (v: Value)
    ensures v == fallback || field == Some(v)
    ensures field.Some? && Truthy(field.value) ==> v == field.value
    ensures Truthy(fallback) ==> Truthy(v)
  {
    if field.Some? && Truthy(field.value) then field.value else fallback
  }

  /** `catch`: choose status, message and error from the exception kind and reply with them. */
  function Catch(e: Exception): (r: Reply)
    ensures r.body.statusCode == r.status
    ensures e.HttpException? ==> r.status == e.status
    ensures e.HttpException? && e.response.StringResponse? ==>
      r.body.message == Str(e.response.text) && r.body.error == Str(DefaultError)
    ensures e.HttpException? && e.response.ObjectResponse? ==>
      && r.body.message == OrElse(e.response.message, Str(DefaultMessage))
      && r.body.error == OrElse(e.response.error, Str(DefaultError))
    ensures e.HttpException? && e.response.ObjectResponse? ==> Truthy(r.body.message) && Truthy(r.body.error)
    ensures e.MongoError? && e.code == DuplicateKeyCode ==>
      r == Reply(ConflictStatus, ErrorBody(ConflictStatus, Str("Duplicate entry"), Str("Conflict")))
    ensures (e.OtherError? || (e.MongoError? && e.code != DuplicateKeyCode)) ==>
      r == Reply(InternalServerErrorStatus,
                 ErrorBody(InternalServerErrorStatus, Str(DefaultMessage), Str(DefaultError)))
  {
    var (status, message, error) :=
      (match e
      case HttpException(s, ObjectResponse(m, err)) =>
        (s, OrElse(m, Str(DefaultMessage)), OrElse(err, Str(DefaultError)))
      case HttpException(s, StringResponse(text)) =>
        (s, Str(text), Str(DefaultError))
      case MongoError(code) =>
        if code == DuplicateKeyCode then (ConflictStatus, Str("Duplicate entry"), Str("Conflict"))
        else (InternalServerErrorStatus, Str(DefaultMessage), Str(DefaultError))
      case OtherError =>
        (InternalServerErrorStatus, Str(DefaultMessage), Str(DefaultError)));
    Reply(status, ErrorBody(status, message, error))
  }

  /**
   * Only an HTTP exception or a duplicate-key error can produce a status other than 500, and only a
   * duplicate-key error produces 409 without being an HTTP exception.
   */
  lemma {:induction false} StatusSources(e: Exception)
    ensures Catch(e).status != InternalServerErrorStatus ==>
      e.HttpException? || (e.MongoError? && e.code == DuplicateKeyCode)
    ensures !e.HttpException? ==>
      (Catch(e).status == ConflictStatus <==> e.MongoError? && e.code == DuplicateKeyCode)
  {
  }
}
