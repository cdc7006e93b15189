/**
 * The application's error classes and the global Express error handler
 * (backend/src/utils/errors.js). A thrown error is a value; the handler's
 * response is a function of that value and of whether the process runs in
 * development mode.
 */
module Errors {
  import opened Common

  /** One `{ field, message }` entry of a validation error's details. */
  datatype FieldDetail = FieldDetail(field: string, message: string)

  /** The class a thrown error was constructed from; `NativeClass` is any error that is not an AppError. */
  datatype ErrorClass =
    | ValidationClass
    | AuthenticationClass
    | AuthorizationClass
    | NotFoundClass
    | AppClass
    | NativeClass

  /**
   * The fields of a thrown error that the handler reads. Properties that may be
   * missing are optional; `isOperational` is false when it is missing.
   */
  datatype ThrownError = ThrownError(
    cls: ErrorClass,
    message: string,
    statusCode: Option<int>,
    status: Option<int>,
    code: Option<string>,
    isOperational: bool,
    details: Option<seq<FieldDetail>>)

  /** The JSON body of every error response. */
  datatype ErrorBody = ErrorBody(
    error: string,
    code: string,
    details: Option<seq<FieldDetail>>,
    debug: Option<string>)

  datatype HttpResponse = HttpResponse(status: int, body: ErrorBody)

  const InvalidCredentialsMessage: string := "Credenciales inválidas"
  const ForbiddenMessage: string := "No tienes permiso para realizar esta acción"
  const ResourceNotFoundMessage: string := "Recurso no encontrado"
  const InternalErrorMessage: string := "Ha ocurrido un error interno"
  const EndpointNotFoundMessage: string := "Endpoint no encontrado"

  // ---------------------------------------------------------------------------
  // Constructors (errors.js:11-58). Every AppError is operational.

  function AppError(message: string, statusCode: Option<int>, code: string := "ERROR"): (e: ThrownError)
    ensures e.isOperational && e.message == message && e.statusCode == statusCode
    ensures e.code == Some(code) && e.status == None && e.details == None
  {
    ThrownError(AppClass, message, statusCode, None, Some(code), true, None)
  }

  function ValidationError(message: string, details: Option<seq<FieldDetail>> := Some([])): (e: ThrownError)
    ensures e.cls == ValidationClass && e.isOperational && e.message == message && e.details == details
  {
    AppError(message, Some(400), "VALIDATION_ERROR").(cls := ValidationClass, details := details)
  }

  function AuthenticationError(message: string := InvalidCredentialsMessage): (e: ThrownError)
    ensures e.cls == AuthenticationClass && e.isOperational && e.message == message
  {
    AppError(message, Some(401), "AUTHENTICATION_ERROR").(cls := AuthenticationClass)
  }

  function AuthorizationError(message: string := ForbiddenMessage): (e: ThrownError)
    ensures e.cls == AuthorizationClass && e.isOperational && e.message == message
  {
    AppError(message, Some(403), "AUTHORIZATION_ERROR").(cls := AuthorizationClass)
  }

  function NotFoundError(message: string := ResourceNotFoundMessage): (e: ThrownError)
    ensures e.cls == NotFoundClass && e.isOperational && e.message == message
  {
    AppError(message, Some(404), "NOT_FOUND").(cls := NotFoundClass)
  }

  // ---------------------------------------------------------------------------
  // Response shaping (errors.js:63-109).

  /** `a || b` on optional numbers: a missing value and `0` are falsy. */
  function OrInt(a: Option<int>, b: int): int
  {
    if a.Some? && a.value != 0 then a.value else b
  }

  function OrString(a: Option<string>, b: string): string
  {
    if PresentString(a) then a.value else b
  }

  /**
   * The response of the global error handler. The body has no field that could
   * carry a stack trace; the message of a non-operational error is replaced by
   * a fixed text and shows up again only as `debug` in development mode.
   */
  function ErrorHandler(err: ThrownError, development: bool): (r: HttpResponse)
    ensures r.status != 0
    ensures r.status == (if err.statusCode.Some? && err.statusCode.value != 0 then err.statusCode.value
                         else if err.status.Some? && err.status.value != 0 then err.status.value
                         else 500)
    ensures err.isOperational ==> r.body.error == err.message
    ensures !err.isOperational ==> r.body.error == InternalErrorMessage
    ensures r.body.code != ""
    ensures PresentString(err.code) ==> r.body.code == err.code.value
    ensures !PresentString(err.code) ==> r.body.code == "INTERNAL_ERROR"
    ensures r.body.details.Some? <==> err.cls == ValidationClass && err.details.Some?
    ensures r.body.details.Some? ==> r.body.details == err.details
    ensures r.body.debug.Some? <==> development && !err.isOperational
    ensures r.body.debug.Some? ==> r.body.debug.value == err.message
  {
    var status := OrInt(err.statusCode, OrInt(err.status, 500));
    var details := if err.cls == ValidationClass && err.details.Some? then err.details else None;
    var debug := if development && !err.isOperational then Some(err.message) else None;
    HttpResponse(status, ErrorBody(if err.isOperational then err.message else InternalErrorMessage,
                                   OrString(err.code, "INTERNAL_ERROR"), details, debug))
  }

  /** The catch-all for unknown routes. */
  function NotFoundHandler(): (r: HttpResponse)
    ensures r.status == 404 && r.body.code == "NOT_FOUND"
    ensures r.body.details == None && r.body.debug == None
  {
    HttpResponse(404, ErrorBody(EndpointNotFoundMessage, "NOT_FOUND", None, None))
  }

  // ---------------------------------------------------------------------------
  // Properties of the class table.

  /** Each error class fixes the status and code of its response, and keeps its own message. */
  lemma {:induction false} StatusCodeTable(message: string, development: bool)
    ensures var r := ErrorHandler(ValidationError(message), development);
      r.status == 400 && r.body.code == "VALIDATION_ERROR" && r.body.error == message
    ensures var r := ErrorHandler(AuthenticationError(message), development);
      r.status == 401 && r.body.code == "AUTHENTICATION_ERROR" && r.body.error == message
    ensures var r := ErrorHandler(AuthorizationError(message), development);
      r.status == 403 && r.body.code == "AUTHORIZATION_ERROR" && r.body.error == message
    ensures var r := ErrorHandler(NotFoundError(message), development);
      r.status == 404 && r.body.code == "NOT_FOUND" && r.body.error == message
  {
  }

  /** An operational error never produces a `debug` field, in any mode. */
  lemma {:induction false} AppErrorsNeverDebug(e: ThrownError, development: bool)
    requires e.isOperational
    ensures ErrorHandler(e, development).body.debug == None
  {
  }

  /**
   * Because the default details `[]` is truthy, a ValidationError built without
   * details still answers with an (empty) `details` array.
   */
  lemma {:induction false} DefaultDetailsAlwaysSent(message: string, development: bool)
    ensures ErrorHandler(ValidationError(message), development).body.details == Some([])
  {
  }
}
