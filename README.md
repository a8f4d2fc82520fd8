# Error-translation middleware of the products service

This project models the two error-handling middlewares of a small Express/Mongoose
REST service for "products" (`src/errorHandlers.js`), and proves what they answer
for every possible error.

- **Stage 1, `badRequestHandler`**: an error whose `status` is exactly 400, or which
  is a Mongoose validation error, gets HTTP 400 with body `{ message: err.message }`.
  Any other error is passed unchanged to the next middleware with `next(err)`.
- **Stage 2, `genericErrorHandler`**: always answers, with `err.status || 500` and
  `err.message || "We gonna fix this ASAP!"`.

An error is the record `HttpError(status, isValidationError, message)`. JavaScript
falsiness is explicit: an absent or zero status counts as missing, and so does an
absent or empty message. A handler is a pure function returning `Respond(response)`
or `Forward(err)`. The composition of the two stages is modelled twice:

- as the direct function `HandleError`;
- as an Express-style dispatch `RunChain` over an ordered stack of stages.

A lemma shows that the two agree on the registered stack `[BadRequestStage, GenericStage]`.

Files:
- `Wrappers.dfy`: `Option`.
- `ErrorHandlers.dfy`: the error record, the two stages and their composition.
- `MiddlewareChain.dfy`: stage dispatch, "one response from the first stage that
  answers", and the lemmas about the registered stack.

Stage 2 uses `||`, so a status of 0 also falls back to 500.
Stage 1 copies `err.message` as it is, so its message may be absent.

## Model

| member | source | states |
|---|---|---|
| ErrorHandlers.BadRequestHandler | src/errorHandlers.js:3-9 | responds exactly when the status is the integer 400 or the error is a validation error (whatever its status); a response is always 400 and carries the error's own message, with no default substituted; otherwise the identical error is forwarded |
| ErrorHandlers.GenericErrorHandler | src/errorHandlers.js:11-13 | always responds; the status is the error's status when present and non-zero, otherwise 500, and is never 0; the message is the error's message when present and non-empty, otherwise "We gonna fix this ASAP!", so it is never absent or empty |
| ErrorHandlers.HandleError | src/errorHandlers.js:3-13 | the final status is 400 if and only if stage 1 fires; stage 1's response is 400 with the message as given; otherwise stage 2 answers on the unchanged error; a non-zero status of a non-validation error is preserved; the final status is never 0 |
| MiddlewareChain.Invoke | src/errorHandlers.js:3-13 | no stage alters the error it forwards, and the fallback stage never forwards |
| MiddlewareChain.RunChain | src/errorHandlers.js:3-13 | dispatch writes at most one response, that of the first stage that answers: every stage before it forwarded the same error and no later stage ran; with no response every stage forwarded |
| MiddlewareChain.RunChainAppend | src/errorHandlers.js:6-8 | stages appended after a stack are reached only when every stage of the stack forwarded |
| MiddlewareChain.FallbackAlwaysResponds | src/errorHandlers.js:11-13 | any stack holding the fallback stage answers every error, no later than that stage |
| MiddlewareChain.ErrorStackIsComposition | src/errorHandlers.js:3-13 | the registered stack answers every error exactly once: stage 1 alone when it fires, otherwise stage 1 then stage 2; the response is HandleError's |
| MiddlewareChain.StagesAfterFallbackUnreached | src/errorHandlers.js:11-13 | in any stack, error middleware registered after a fallback stage is never reached, because the fallback never calls next; the registered stack is one instance |

## Left out

- The `instanceof mongoose.Error.ValidationError` test is a foreign class check; it is the flag `isValidationError`.
- The `req`, `res` and `next` objects are not modelled. A response is a returned value, not a call to `res.status(...).send(...)`.
- JSON serialisation of the body is left to the framework. For example, a body with an absent message is sent as `{}`.
- Statuses that are not integers are not modelled; the status is an optional integer. A string `"400"` fails the strict `===` test, and `NaN` is falsy.
- Messages that are not strings are not modelled; only an absent or empty message is falsy.
- Whether the framework accepts a given status value, such as a code outside the HTTP range, is its own business. The model returns the status the handler chooses.
- The final handler that Express supplies when every error middleware forwards is not modelled. `RunChain` then returns no response.
- The order in which the server registers the two middlewares is taken as stage 1 then stage 2. The server bootstrap is not part of this model.
- The route handlers, the product model and the server are not among the files modelled. The integration tests in `__tests__/products.test.js` are HTTP and database I/O.
