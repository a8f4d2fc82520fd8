/**
 The error middlewares as an ordered stack, dispatched the way Express runs
 error-handling middleware: each stage in turn receives the error until one
 of them writes a response; a stage that calls `next(err)` hands the same
 error to the following stage.
 */
module MiddlewareChain {
  import opened Wrappers
  import opened ErrorHandlers

  datatype Stage = BadRequestStage | GenericStage

  /** The stack the service registers: the classifier before the fallback. */
  const ErrorStack: seq<Stage> := [BadRequestStage, GenericStage]

  /** Runs one stage on an error. No stage alters the error it forwards. */
  function Invoke(stage: Stage, err: HttpError): (a: Action)
    ensures a.Forward? ==> a.err == err
    ensures stage == GenericStage ==> a.Respond?
  {
    match stage
    case BadRequestStage => BadRequestHandler(err)
    case GenericStage => GenericErrorHandler(err)
  }

  /** The outcome of dispatching an error: how many stages were invoked and
      the response written, if any stage wrote one. */
  datatype Dispatch = Dispatch(invoked: nat, response: Option<Response>)

  /** Dispatches `err` through `stack`. The contract is "at most one response,
      from the first stage that answers": every stage before it forwarded,
      no stage after it ran, and with no response every stage forwarded. */
  function RunChain(stack: seq<Stage>, err: HttpError): (d: Dispatch)
    ensures d.invoked <= |stack|
    ensures forall i :: 0 <= i < d.invoked - 1 ==> Invoke(stack[i], err).Forward?
    ensures d.response.Some? ==>
      0 < d.invoked && Invoke(stack[d.invoked - 1], err) == Respond(d.response.value)
    ensures d.response.None? ==>
      d.invoked == |stack| && forall i :: 0 <= i < |stack| ==> Invoke(stack[i], err).Forward?
  {
    if stack == [] then Dispatch(0, None)
    else
      match Invoke(stack[0], err)
      case Respond(response) => Dispatch(1, Some(response))
      case Forward(e) =>
        var rest := RunChain(stack[1..], e);
        Dispatch(rest.invoked + 1, rest.response)
  }

  /** Dispatching through `front + back` is dispatching through `front`, and
      reaches `back` only when every stage of `front` forwarded. */
  lemma {:induction false} RunChainAppend(front: seq<Stage>, back: seq<Stage>, err: HttpError)
    ensures RunChain(front + back, err) ==
      if RunChain(front, err).response.Some? then RunChain(front, err)
      else Dispatch(|front| + RunChain(back, err).invoked, RunChain(back, err).response)
  {
    if front == [] {
      assert front + back == back;
    } else {
      assert (front + back)[0] == front[0];
      assert (front + back)[1..] == front[1..] + back;
      match Invoke(front[0], err)
      case Respond(_) =>
      case Forward(_) => RunChainAppend(front[1..], back, err);
    }
  }

  /** A stack holding the fallback stage always answers, no later than the
      first fallback it holds. */
  lemma FallbackAlwaysResponds(stack: seq<Stage>, err: HttpError, k: nat)
    requires k < |stack| && stack[k] == GenericStage
    ensures RunChain(stack, err).response.Some?
    ensures RunChain(stack, err).invoked <= k + 1
  {
  }

  /** The registered stack answers every error exactly once: stage 1 alone
      when it fires, otherwise stage 2 on the unchanged error; the response is
      the composed `HandleError`. */
  lemma ErrorStackIsComposition(err: HttpError)
    ensures RunChain(ErrorStack, err) ==
      Dispatch(if IsBadRequest(err) then 1 else 2, Some(HandleError(err)))
  {
  }

  /** Error middleware registered after a fallback stage is never reached:
      the registered stack is the instance `k == 1`. */
  lemma StagesAfterFallbackUnreached(front: seq<Stage>, back: seq<Stage>, err: HttpError, k: nat)
    requires k < |front| && front[k] == GenericStage
    ensures RunChain(front + back, err) == RunChain(front, err)
  {
    FallbackAlwaysResponds(front, err, k);
    RunChainAppend(front, back, err);
  }
}
