/** The execution context that all nodes of a run share: control counters and retrieval counters. */
module ExecutionState {
  import opened Values

  datatype Control = Control(loopCount: int, retryCount: int, maxLoops: int, maxRetries: int, terminate: bool)

  /** A partial control record; absent fields keep their value. */
  datatype ControlPatch = ControlPatch(
    loopCount: Option<int>, retryCount: Option<int>,
    maxLoops: Option<int>, maxRetries: Option<int>, terminate: Option<bool>)

  const NO_PATCH := ControlPatch(None, None, None, None, None)

  function Pick<T>(patch: Option<T>, current: T): T {
    if patch.Some? then patch.value else current
  }

  function Patched(c: Control, p: ControlPatch): Control {
    Control(Pick(p.loopCount, c.loopCount), Pick(p.retryCount, c.retryCount),
            Pick(p.maxLoops, c.maxLoops), Pick(p.maxRetries, c.maxRetries), Pick(p.terminate, c.terminate))
  }

  predicate LimitBroken(c: Control) {
    c.retryCount > c.maxRetries || c.loopCount > c.maxLoops
  }

  function WithRetry(c: Control, incrementLoop: bool): Control {
    c.(retryCount := c.retryCount + 1, loopCount := c.loopCount + if incrementLoop then 1 else 0)
  }

  datatype Counters = Counters(
    totalRequests: nat, totalSuccesses: nat, totalEmpties: nat, totalFailures: nat, totalDurationMs: nat,
    maxRequests: nat, maxFailures: nat, maxDurationMs: nat)

  datatype AttemptStatus = Success | Empty | Failure

  /** The counters after one request. */
  function Recorded(c: Counters, durationMs: int, status: AttemptStatus): Counters {
    var next := c.(totalRequests := c.totalRequests + 1,
                   totalDurationMs := c.totalDurationMs + if durationMs > 0 then durationMs else 0);
    match status
    case Success => next.(totalSuccesses := next.totalSuccesses + 1)
    case Empty => next.(totalEmpties := next.totalEmpties + 1)
    case Failure => next.(totalFailures := next.totalFailures + 1)
  }

  predicate BudgetExceeded(c: Counters) {
    || c.totalRequests >= c.maxRequests
    || c.totalFailures >= c.maxFailures
    || c.totalDurationMs >= c.maxDurationMs
  }

  /** Every request is counted under exactly one outcome. */
  predicate Balanced(c: Counters) {
    c.totalRequests == c.totalSuccesses + c.totalEmpties + c.totalFailures
  }

  class ExecutionContext {
    var control: Control
    var retrieval: Counters

    constructor (control: Control, retrieval: Counters)
      ensures this.control == control && this.retrieval == retrieval
    {
      this.control := control;
      this.retrieval := retrieval;
    }

    method PatchControl(patch: ControlPatch)
      modifies this`control
      ensures control == Patched(old(control), patch)
      ensures control.loopCount == (if patch.loopCount.Some? then patch.loopCount.value else old(control).loopCount)
      ensures control.retryCount == (if patch.retryCount.Some? then patch.retryCount.value else old(control).retryCount)
      ensures control.maxLoops == (if patch.maxLoops.Some? then patch.maxLoops.value else old(control).maxLoops)
      ensures control.maxRetries == (if patch.maxRetries.Some? then patch.maxRetries.value else old(control).maxRetries)
      ensures control.terminate == (if patch.terminate.Some? then patch.terminate.value else old(control).terminate)
    {
      control := Patched(control, patch);
    }

    /** Counts a retry and reports whether a control limit is now broken. */
    method RegisterNodeRetry(incrementLoopCount: bool) returns (limitViolation: bool)
      modifies this`control
      ensures control == WithRetry(old(control), incrementLoopCount)
      ensures limitViolation == LimitBroken(control)
      ensures limitViolation <==> control.retryCount > control.maxRetries || control.loopCount > control.maxLoops
    {
      PatchControl(NO_PATCH.(retryCount := Some(control.retryCount + 1),
                             loopCount := Some(control.loopCount + if incrementLoopCount then 1 else 0)));
      limitViolation := LimitBroken(control);
    }

    method RecordRetrievalAttempt(durationMs: int, status: AttemptStatus)
      modifies this`retrieval
      ensures retrieval == Recorded(old(retrieval), durationMs, status)
    {
      var next := retrieval;
      next := next.(totalRequests := next.totalRequests + 1);
      if durationMs > 0 {
        next := next.(totalDurationMs := next.totalDurationMs + durationMs);
      }
      match status {
        case Success => next := next.(totalSuccesses := next.totalSuccesses + 1);
        case Empty => next := next.(totalEmpties := next.totalEmpties + 1);
        case Failure => next := next.(totalFailures := next.totalFailures + 1);
      }
      retrieval := next;
    }
  }
}
