/**
 The two error-handling middlewares of the products service, as pure functions.

 An error is an abstract record of the three properties the handlers read.
 A handler either writes one response (`Respond`) or hands the error on to
 the next middleware (`Forward`), which is what `next(err)` does.
 */
module ErrorHandlers {
  import opened Wrappers

  const BadRequest: int := 400
  const InternalServerError: int := 500
  const FallbackMessage: string := "We gonna fix this ASAP!"

  /** The failure value thrown by a route handler.
      `status` is `err.status` (absent when undefined), `isValidationError`
      stands for `err instanceof mongoose.Error.ValidationError`, and
      `message` is `err.message` (absent when undefined). */
  datatype HttpError = HttpError(status: Option<int>, isValidationError: bool, message: Option<string>)

  /** What `res.status(status).send({ message })` writes. An absent message
      is the body's `message: undefined`. */
  datatype Response = Response(status: int, message: Option<string>)

  datatype Action = Respond(response: Response) | Forward(err: HttpError)

  /** JavaScript truthiness of `err.status`: `undefined` and `0` are falsy. */
  predicate StatusTruthy(status: Option<int>) {
    status.Some? && status.value != 0
  }

  /** JavaScript truthiness of `err.message`: `undefined` and `""` are falsy. */
  predicate MessageTruthy(message: Option<string>) {
    message.Some? && message.value != ""
  }

  /** The guard of the first stage. `err.status === 400` is strict equality,
      so only a present integer 400 matches. */
  predicate IsBadRequest(err: HttpError) {
    err.status == Some(BadRequest) || err.isValidationError
  }

  /** Stage 1: answer 400 with the error's own message, or pass the error on. */
  function BadRequestHandler(err: HttpError): (a: Action)
    ensures a.Respond? <==> IsBadRequest(err)
    ensures a.Respond? ==> a.response.status == 400 && a.response.message == err.message
    ensures a.Forward? ==> a.err == err
  {
    if IsBadRequest(err) then Respond(Response(BadRequest, err.message)) else Forward(err)
  }

  /** Stage 2: always answer, with `err.status || 500` and
      `err.message || "We gonna fix this ASAP!"`. */
  function GenericErrorHandler(err: HttpError): (a: Action)
    ensures a.Respond?
    ensures a.response.status != 0
    ensures StatusTruthy(err.status) ==> a.response.status == err.status.value
    ensures !StatusTruthy(err.status) ==> a.response.status == 500
    ensures MessageTruthy(a.response.message)
    ensures MessageTruthy(err.message) ==> a.response.message == err.message
    ensures !MessageTruthy(err.message) ==> a.response.message == Some("We gonna fix this ASAP!")
  {
    var status := if StatusTruthy(err.status) then err.status.value else InternalServerError;
    var message := if MessageTruthy(err.message) then err.message else Some(FallbackMessage);
    Respond(Response(status, message))
  }

  /** The two stages composed in their fixed order: stage 2 sees only what
      stage 1 forwards. */
  function HandleError(err: HttpError): (r: Response)
    ensures r.status == 400 <==> IsBadRequest(err)
    ensures r.status != 0
    ensures IsBadRequest(err) ==> r == Response(400, err.message)
    ensures !IsBadRequest(err) ==> r == GenericErrorHandler(err).response
    ensures !err.isValidationError && StatusTruthy(err.status) ==> r.status == err.status.value
    ensures !IsBadRequest(err) && !StatusTruthy(err.status) ==> r.status == 500
    ensures !IsBadRequest(err) ==> MessageTruthy(r.message)
  {
    match BadRequestHandler(err)
    case Respond(response) => response
    case Forward(e) => GenericErrorHandler(e).response
  }
}
