/** Retrieval orchestration: what one retriever plan does, request by request, and what a node makes of its plans. */
module Retrieval {
  import opened Values
  import opened ExecutionState
  import opened Matches

  datatype QueryResult = QueryResult(query: string, topK: int, matches: seq<Match>)

  datatype Plan = Plan(
    key: string, query: string, fallbackQuery: Option<string>, topK: int,
    maxRetries: nat, minMatches: nat, minScore: Option<real>, failOnError: bool)

  datatype RetrievalError =
    | BudgetExhausted
    | RequestFailed(message: string)
    | TooFewMatches(found: nat, required: nat, key: string)
    | NothingFound

  datatype PlanRun = PlanRun(plan: Plan, result: QueryResult, satisfied: bool, error: Option<RetrievalError>)

  /** How a plan ends: with a run record or by throwing. */
  datatype Outcome = Ran(run: PlanRun) | Threw(error: RetrievalError)

  /** The answer of the knowledge service to one request. */
  datatype Answer = Answered(result: QueryResult) | Refused(message: string)

  /** The knowledge service as an oracle: the answer to a plan's query at an attempt, and how long it took. */
  datatype Service = Service(ask: (Plan, nat, nat) -> Answer, took: (Plan, nat, nat) -> int)

  function KeepScored(matches: seq<Match>, minScore: real): seq<Match> {
    if |matches| == 0 then []
    else
      var rest, m := KeepScored(matches[..|matches| - 1], minScore), matches[|matches| - 1];
      if m.score >= minScore then rest + [m] else rest
  }

  function Filtered(result: QueryResult, minScore: Option<real>): QueryResult {
    if minScore.None? then result else result.(matches := KeepScored(result.matches, minScore.value))
  }

  // ----- one plan as a machine that stops at every request

  /** `Ready` is about to check the budget, `Waiting` has a request under way. */
  datatype Phase = Ready | Waiting | Finished(outcome: Outcome)

  datatype PlanState = PlanState(
    queryIdx: nat, attempt: nat, lastResult: Option<QueryResult>, lastError: Option<RetrievalError>, phase: Phase)

  const PLAN_START := PlanState(0, 1, None, None, Ready)

  function QueryCount(plan: Plan): nat {
    if plan.fallbackQuery.Some? then 2 else 1
  }

  function MaxAttempts(plan: Plan, queryIdx: nat): nat {
    if queryIdx == 0 then 1 + plan.maxRetries else 1
  }

  function EmptyRun(plan: Plan, error: Option<RetrievalError>): PlanRun {
    PlanRun(plan, QueryResult(plan.query, plan.topK, []), false, error)
  }

  /** A plan that may fail hard throws its error; one that fails softly hands it over in its record. */
  function FailPlan(softFail: bool, run: PlanRun): Outcome
    requires run.error.Some?
  {
    if run.plan.failOnError && !softFail then Threw(run.error.value) else Ran(run)
  }

  /** What is left when all attempts are used up. */
  function Conclude(plan: Plan, softFail: bool, s: PlanState): Outcome {
    if s.lastResult.Some? then
      var result := s.lastResult.value;
      if |result.matches| >= plan.minMatches then Ran(PlanRun(plan, result, true, None))
      else
        var error := TooFewMatches(|result.matches|, plan.minMatches, plan.key);
        FailPlan(softFail, PlanRun(plan, result, false, Some(error)))
    else if s.lastError.Some? then FailPlan(softFail, EmptyRun(plan, s.lastError))
    else Ran(EmptyRun(plan, None))
  }

  /** The next attempt of the query, the fallback query, or the end. */
  function NextAttempt(plan: Plan, softFail: bool, s: PlanState): PlanState {
    if s.attempt < MaxAttempts(plan, s.queryIdx) then s.(attempt := s.attempt + 1, phase := Ready)
    else if s.queryIdx + 1 < QueryCount(plan) then s.(queryIdx := s.queryIdx + 1, attempt := 1, phase := Ready)
    else s.(phase := Finished(Conclude(plan, softFail, s)))
  }

  /** The budget check before a request. */
  function Check(plan: Plan, softFail: bool, s: PlanState, exceeded: bool): PlanState {
    if exceeded then s.(phase := Finished(FailPlan(softFail, EmptyRun(plan, Some(BudgetExhausted)))))
    else s.(phase := Waiting)
  }

  function StatusOf(plan: Plan, answer: Answer): AttemptStatus {
    match answer
    case Refused(_) => Failure
    case Answered(result) =>
      if |Filtered(result, plan.minScore).matches| >= plan.minMatches then Success else Empty
  }

  /** The answer to a request. */
  function Receive(plan: Plan, softFail: bool, s: PlanState, answer: Answer): PlanState {
    match answer
    case Refused(message) => NextAttempt(plan, softFail, s.(lastError := Some(RequestFailed(message))))
    case Answered(result) =>
      var filtered := Filtered(result, plan.minScore);
      if |filtered.matches| >= plan.minMatches then
        s.(lastResult := Some(filtered), phase := Finished(Ran(PlanRun(plan, filtered, true, None))))
      else NextAttempt(plan, softFail, s.(lastResult := Some(filtered)))
  }

  /** Attempts that are left, the current one included. */
  function Left(plan: Plan, s: PlanState): nat {
    if s.phase.Finished? then 0
    else
      var maxAttempts := MaxAttempts(plan, s.queryIdx);
      var here := if s.attempt <= maxAttempts then maxAttempts - s.attempt + 1 else 1;
      if s.queryIdx + 1 < QueryCount(plan) then here + 1 else here
  }

  lemma AttemptsRunOut(plan: Plan, softFail: bool, s: PlanState, answer: Answer)
    requires !s.phase.Finished?
    ensures Left(plan, Receive(plan, softFail, s, answer)) < Left(plan, s)
  {
  }

  // ----- a plan that runs alone

  datatype Alone = Alone(outcome: Outcome, counters: Counters)

  function Drive(plan: Plan, softFail: bool, service: Service, s: PlanState, c: Counters): Alone
    decreases Left(plan, s)
  {
    match s.phase
    case Finished(outcome) => Alone(outcome, c)
    case _ =>
      var checked := if s.phase.Ready? then Check(plan, softFail, s, BudgetExceeded(c)) else s;
      if checked.phase.Finished? then Alone(checked.phase.outcome, c)
      else
        var answer := service.ask(plan, s.queryIdx, s.attempt);
        AttemptsRunOut(plan, softFail, checked, answer);
        Drive(plan, softFail, service, Receive(plan, softFail, checked, answer),
              Recorded(c, service.took(plan, s.queryIdx, s.attempt), StatusOf(plan, answer)))
  }

  /** Runs one plan against the shared counters: the attempts of the primary query, then the fallback query. */
  method RunRetrieverPlan(plan: Plan, softFail: bool, service: Service, context: ExecutionContext)
    returns (outcome: Outcome)
    modifies context`retrieval
    ensures Alone(outcome, context.retrieval)
         == Drive(plan, softFail, service, PLAN_START, old(context.retrieval))
  {
    var lastError: Option<RetrievalError> := None;
    var lastResult: Option<QueryResult> := None;
    ghost var start := context.retrieval;
    ghost var s := PLAN_START;
    var queryIdx := 0;
    while queryIdx < QueryCount(plan)
      invariant queryIdx <= QueryCount(plan)
      invariant Drive(plan, softFail, service, s, context.retrieval)
             == Drive(plan, softFail, service, PLAN_START, start)
      invariant s.lastResult == lastResult && s.lastError == lastError
      invariant if queryIdx < QueryCount(plan) then s.queryIdx == queryIdx && s.attempt == 1 && s.phase == Ready
                else s.phase == Finished(Conclude(plan, softFail, s))
    {
      var attempt := 1;
      var maxAttempts := MaxAttempts(plan, queryIdx);
      while attempt <= maxAttempts
        invariant Drive(plan, softFail, service, s, context.retrieval)
               == Drive(plan, softFail, service, PLAN_START, start)
        invariant s.lastResult == lastResult && s.lastError == lastError
        invariant 1 <= attempt <= maxAttempts + 1
        invariant attempt <= maxAttempts ==> s.queryIdx == queryIdx && s.attempt == attempt && s.phase == Ready
        invariant attempt > maxAttempts ==>
          if queryIdx + 1 < QueryCount(plan) then s.queryIdx == queryIdx + 1 && s.attempt == 1 && s.phase == Ready
          else s.phase == Finished(Conclude(plan, softFail, s))
      {
        if BudgetExceeded(context.retrieval) {
          return FailPlan(softFail, EmptyRun(plan, Some(BudgetExhausted)));
        }
        var answer := service.ask(plan, queryIdx, attempt);
        s := Receive(plan, softFail, s.(phase := Waiting), answer);
        context.RecordRetrievalAttempt(service.took(plan, queryIdx, attempt), StatusOf(plan, answer));
        match answer {
          case Answered(result) =>
            var filtered := Filtered(result, plan.minScore);
            lastResult := Some(filtered);
            if |filtered.matches| >= plan.minMatches {
              return Ran(PlanRun(plan, filtered, true, None));
            }
          case Refused(message) =>
            lastError := Some(RequestFailed(message));
        }
        attempt := attempt + 1;
      }
      queryIdx := queryIdx + 1;
    }
    if lastResult.Some? {
      var found := |lastResult.value.matches|;
      if found < plan.minMatches {
        var failed := PlanRun(plan, lastResult.value, false, Some(TooFewMatches(found, plan.minMatches, plan.key)));
        if plan.failOnError && !softFail {
          return Threw(TooFewMatches(found, plan.minMatches, plan.key));
        }
        return Ran(failed);
      }
      return Ran(PlanRun(plan, lastResult.value, true, None));
    }
    if lastError.Some? && plan.failOnError && !softFail {
      return Threw(lastError.value);
    }
    return Ran(EmptyRun(plan, lastError));
  }

  // ----- what a plan can do to the budget

  /** The plan was stopped by a budget check. */
  predicate Denied(outcome: Outcome) {
    match outcome
    case Ran(run) => run.error == Some(BudgetExhausted)
    case Threw(error) => error == BudgetExhausted
  }

  ghost predicate SameBudget(c: Counters, d: Counters) {
    c.maxRequests == d.maxRequests && c.maxFailures == d.maxFailures && c.maxDurationMs == d.maxDurationMs
  }

  /** A plan that runs alone never exceeds the request limit, makes at most `2 + maxRetries` requests and counts each
      of them under one outcome; one that fails softly never throws. */
  lemma {:induction false} AloneKeepsBudget(plan: Plan, softFail: bool, service: Service, s: PlanState, c: Counters)
    requires Balanced(c) && (s.phase.Waiting? ==> c.totalRequests < c.maxRequests)
    requires s.phase.Finished? && softFail ==> s.phase.outcome.Ran?
    ensures var r := Drive(plan, softFail, service, s, c);
      && Balanced(r.counters) && SameBudget(c, r.counters)
      && c.totalRequests <= r.counters.totalRequests <= c.totalRequests + Left(plan, s)
      && (c.totalRequests <= c.maxRequests ==> r.counters.totalRequests <= c.maxRequests)
      && (softFail ==> r.outcome.Ran?)
    decreases Left(plan, s)
  {
    if !s.phase.Finished? {
      var checked := if s.phase.Ready? then Check(plan, softFail, s, BudgetExceeded(c)) else s;
      if !checked.phase.Finished? {
        var answer := service.ask(plan, s.queryIdx, s.attempt);
        AttemptsRunOut(plan, softFail, checked, answer);
        var next := Receive(plan, softFail, checked, answer);
        var counted := Recorded(c, service.took(plan, s.queryIdx, s.attempt), StatusOf(plan, answer));
        assert Balanced(counted) && SameBudget(c, counted) && counted.totalRequests == c.totalRequests + 1;
        assert softFail && next.phase.Finished? ==> next.phase.outcome.Ran?;
        hide Receive;
        hide Recorded;
        AloneKeepsBudget(plan, softFail, service, next, counted);
      }
    }
  }

  lemma RequestsOfOnePlan(plan: Plan, softFail: bool, service: Service, c: Counters)
    requires Balanced(c)
    ensures var r := Drive(plan, softFail, service, PLAN_START, c);
      && r.counters.totalRequests - c.totalRequests <= 2 + plan.maxRetries
      && Balanced(r.counters)
      && (c.totalRequests <= c.maxRequests ==> r.counters.totalRequests <= c.maxRequests)
      && (softFail ==> r.outcome.Ran?)
  {
    AloneKeepsBudget(plan, softFail, service, PLAN_START, c);
  }

  /** What the plan answers when the budget never binds: a function of the service alone. */
  function Unlimited(plan: Plan, softFail: bool, service: Service, s: PlanState): Outcome
    decreases Left(plan, s)
  {
    match s.phase
    case Finished(outcome) => outcome
    case _ =>
      var answer := service.ask(plan, s.queryIdx, s.attempt);
      AttemptsRunOut(plan, softFail, s.(phase := Waiting), answer);
      Unlimited(plan, softFail, service, Receive(plan, softFail, s.(phase := Waiting), answer))
  }

  lemma {:induction false} AloneIsUnlimited(plan: Plan, softFail: bool, service: Service, s: PlanState, c: Counters)
    requires !Denied(Drive(plan, softFail, service, s, c).outcome)
    ensures Drive(plan, softFail, service, s, c).outcome == Unlimited(plan, softFail, service, s)
    decreases Left(plan, s)
  {
    if !s.phase.Finished? {
      var checked := if s.phase.Ready? then Check(plan, softFail, s, BudgetExceeded(c)) else s;
      if !checked.phase.Finished? {
        var answer := service.ask(plan, s.queryIdx, s.attempt);
        AttemptsRunOut(plan, softFail, checked, answer);
        assert checked == s.(phase := Waiting);
        AloneIsUnlimited(plan, softFail, service, Receive(plan, softFail, checked, answer),
                         Recorded(c, service.took(plan, s.queryIdx, s.attempt), StatusOf(plan, answer)));
      }
    }
  }

  // ----- several plans at once

  /** Plans that run concurrently share the counters; every stretch between two requests is atomic. */
  datatype System = System(states: seq<PlanState>, counters: Counters)

  /** The scheduler lets a plan go on; a request that comes back took `durationMs`. */
  datatype Event = Event(plan: nat, durationMs: int)

  function Launch(plans: seq<Plan>, c: Counters): System {
    System(seq(|plans|, _ => PLAN_START), c)
  }

  function Fire(plans: seq<Plan>, softFail: bool, service: Service, sys: System, e: Event): System {
    if e.plan >= |plans| || e.plan >= |sys.states| then sys
    else
      var plan, s := plans[e.plan], sys.states[e.plan];
      match s.phase
      case Finished(_) => sys
      case Ready => sys.(states := sys.states[e.plan := Check(plan, softFail, s, BudgetExceeded(sys.counters))])
      case Waiting =>
        var answer := service.ask(plan, s.queryIdx, s.attempt);
        System(sys.states[e.plan := Receive(plan, softFail, s, answer)],
               Recorded(sys.counters, e.durationMs, StatusOf(plan, answer)))
  }

  /** The system after a run of events, in any interleaving. */
  function Interleave(plans: seq<Plan>, softFail: bool, service: Service, c: Counters, events: seq<Event>): System {
    if |events| == 0 then Launch(plans, c)
    else
      var before := Interleave(plans, softFail, service, c, events[..|events| - 1]);
      Fire(plans, softFail, service, before, events[|events| - 1])
  }

  function InFlight(states: seq<PlanState>): nat {
    if |states| == 0 then 0
    else InFlight(states[..|states| - 1]) + if states[|states| - 1].phase.Waiting? then 1 else 0
  }

  lemma {:induction false} InFlightUpdate(states: seq<PlanState>, i: nat, s: PlanState)
    requires i < |states|
    ensures InFlight(states[i := s]) + (if states[i].phase.Waiting? then 1 else 0)
         == InFlight(states) + (if s.phase.Waiting? then 1 else 0)
    ensures !states[i].phase.Waiting? ==> InFlight(states) < |states|
  {
    var m := |states| - 1;
    if i < m {
      InFlightUpdate(states[..m], i, s);
      assert states[i := s][..m] == states[..m][i := s];
    } else {
      assert states[i := s][..m] == states[..m];
      InFlightBound(states[..m]);
    }
  }

  lemma {:induction false} InFlightBound(states: seq<PlanState>)
    ensures InFlight(states) <= |states|
  {
    if |states| > 0 { InFlightBound(states[..|states| - 1]); }
  }

  ghost predicate BudgetKept(plans: seq<Plan>, c: Counters, sys: System) {
    && |sys.states| == |plans| && Balanced(sys.counters) && SameBudget(c, sys.counters)
    && (|plans| > 0 ==> sys.counters.totalRequests + InFlight(sys.states) <= c.maxRequests + |plans| - 1)
  }

  /** Over all interleavings of `k` plans the request limit is overrun by at most `k - 1`, by nothing when there is
      one plan; and requests are successes, empties and failures at every step. */
  lemma {:induction false} OverrunIsBounded(plans: seq<Plan>, softFail: bool, service: Service, c: Counters,
                                          events: seq<Event>)
    requires Balanced(c) && c.totalRequests <= c.maxRequests
    ensures BudgetKept(plans, c, Interleave(plans, softFail, service, c, events))
  {
    if |events| == 0 {
      NoneInFlight(seq(|plans|, _ => PLAN_START));
    } else {
      var init, e := events[..|events| - 1], events[|events| - 1];
      OverrunIsBounded(plans, softFail, service, c, init);
      FireKeepsBudget(plans, softFail, service, c, Interleave(plans, softFail, service, c, init), e);
    }
  }

  lemma {:induction false} NoneInFlight(states: seq<PlanState>)
    requires forall i :: 0 <= i < |states| ==> !states[i].phase.Waiting?
    ensures InFlight(states) == 0
  {
    if |states| > 0 { NoneInFlight(states[..|states| - 1]); }
  }

  lemma FireKeepsBudget(plans: seq<Plan>, softFail: bool, service: Service, c: Counters, sys: System, e: Event)
    requires BudgetKept(plans, c, sys)
    ensures BudgetKept(plans, c, Fire(plans, softFail, service, sys, e))
  {
    hide InFlight;
    if e.plan < |plans| {
      var plan, s := plans[e.plan], sys.states[e.plan];
      match s.phase {
        case Finished(_) =>
        case Ready => InFlightUpdate(sys.states, e.plan, Check(plan, softFail, s, BudgetExceeded(sys.counters)));
        case Waiting =>
          var next := Receive(plan, softFail, s, service.ask(plan, s.queryIdx, s.attempt));
          assert !next.phase.Waiting?;
          InFlightUpdate(sys.states, e.plan, next);
      }
    }
  }

  // ----- the bound is reached

  lemma InterleaveOneMore(plans: seq<Plan>, softFail: bool, service: Service, c: Counters, events: seq<Event>, e: Event)
    ensures Interleave(plans, softFail, service, c, events + [e])
         == Fire(plans, softFail, service, Interleave(plans, softFail, service, c, events), e)
  {
    assert (events + [e])[..|events|] == events;
  }

  lemma {:induction false} StartFirst(plans: seq<Plan>, softFail: bool, service: Service, c: Counters, n: nat)
    returns (events: seq<Event>)
    requires n <= |plans| && !BudgetExceeded(c)
    ensures var sys := Interleave(plans, softFail, service, c, events);
      && |sys.states| == |plans| && sys.counters == c
      && forall i :: 0 <= i < |plans| ==> sys.states[i] == if i < n then PLAN_START.(phase := Waiting) else PLAN_START
  {
    if n == 0 {
      events := [];
    } else {
      var before := StartFirst(plans, softFail, service, c, n - 1);
      events := before + [Event(n - 1, 0)];
      InterleaveOneMore(plans, softFail, service, c, before, Event(n - 1, 0));
      hide Interleave;
    }
  }

  lemma {:induction false} FinishFirst(plans: seq<Plan>, softFail: bool, service: Service, c: Counters, n: nat)
    returns (events: seq<Event>)
    requires n <= |plans| && !BudgetExceeded(c)
    ensures var sys := Interleave(plans, softFail, service, c, events);
      && |sys.states| == |plans| && sys.counters.totalRequests == c.totalRequests + n
      && forall i :: n <= i < |plans| ==> sys.states[i] == PLAN_START.(phase := Waiting)
  {
    if n == 0 {
      events := StartFirst(plans, softFail, service, c, |plans|);
    } else {
      var before := FinishFirst(plans, softFail, service, c, n - 1);
      events := before + [Event(n - 1, 0)];
      InterleaveOneMore(plans, softFail, service, c, before, Event(n - 1, 0));
      hide Interleave;
      hide Receive;
    }
  }

  /** The overrun happens: with one request left, plans that all check the budget before any of them finishes end
      `k - 1` above the limit. */
  lemma OverrunIsReached(plans: seq<Plan>, softFail: bool, service: Service, c: Counters)
    requires !BudgetExceeded(c) && c.totalRequests == c.maxRequests - 1
    ensures exists events ::
      Interleave(plans, softFail, service, c, events).counters.totalRequests == c.maxRequests + |plans| - 1
  {
    var events := FinishFirst(plans, softFail, service, c, |plans|);
  }
}
