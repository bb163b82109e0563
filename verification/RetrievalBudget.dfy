/** When do concurrent plans keep the request limit, and when does no budget check stop a plan? */
module RetrievalBudget {
  import opened ExecutionState
  import opened Retrieval

  function Sum(ms: seq<nat>): nat {
    if |ms| == 0 then 0 else Sum(ms[..|ms| - 1]) + ms[|ms| - 1]
  }

  lemma {:induction false} SumUpdate(ms: seq<nat>, i: nat, m: nat)
    requires i < |ms|
    ensures Sum(ms[i := m]) + ms[i] == Sum(ms) + m
  {
    var n := |ms| - 1;
    if i < n {
      SumUpdate(ms[..n], i, m);
      assert ms[i := m][..n] == ms[..n][i := m];
    } else {
      assert ms[i := m][..n] == ms[..n];
    }
  }

  lemma {:induction false} SomePositive(ms: seq<nat>)
    requires Sum(ms) > 0
    ensures exists i :: 0 <= i < |ms| && ms[i] > 0
  {
    var n := |ms| - 1;
    if ms[n] == 0 {
      SomePositive(ms[..n]);
      var i :| 0 <= i < n && ms[..n][i] > 0;
      assert ms[i] > 0;
    }
  }

  lemma ThirdPositive(ms: seq<nat>, a: nat, b: nat) returns (i: nat)
    requires a < |ms| && b < |ms| && a != b && Sum(ms) > ms[a] + ms[b]
    ensures i < |ms| && i != a && i != b && ms[i] > 0
  {
    SumUpdate(ms, a, 0);
    SumUpdate(ms[a := 0], b, 0);
    var rest := ms[a := 0][b := 0];
    SomePositive(rest);
    i :| 0 <= i < |rest| && rest[i] > 0;
  }

  // ----- the requests a plan makes when no budget stops it

  function FreeRequests(plan: Plan, softFail: bool, service: Service, s: PlanState): nat
    decreases Left(plan, s)
  {
    if s.phase.Finished? then 0
    else
      var answer := service.ask(plan, s.queryIdx, s.attempt);
      AttemptsRunOut(plan, softFail, s.(phase := Waiting), answer);
      1 + FreeRequests(plan, softFail, service, Receive(plan, softFail, s.(phase := Waiting), answer))
  }

  lemma {:induction false} FreeRequestsBound(plan: Plan, softFail: bool, service: Service, s: PlanState)
    ensures FreeRequests(plan, softFail, service, s) <= Left(plan, s)
    decreases Left(plan, s)
  {
    if !s.phase.Finished? {
      var answer := service.ask(plan, s.queryIdx, s.attempt);
      AttemptsRunOut(plan, softFail, s.(phase := Waiting), answer);
      FreeRequestsBound(plan, softFail, service, Receive(plan, softFail, s.(phase := Waiting), answer));
    }
  }

  /** What each plan still has to ask. */
  function Remaining(plans: seq<Plan>, softFail: bool, service: Service, states: seq<PlanState>): seq<nat>
    requires |states| == |plans|
  {
    seq(|plans|, i requires 0 <= i < |plans| => FreeRequests(plans[i], softFail, service, states[i]))
  }

  /** What all plans ask together. */
  function FreeTotal(plans: seq<Plan>, softFail: bool, service: Service): nat {
    Sum(Remaining(plans, softFail, service, seq(|plans|, _ => PLAN_START)))
  }

  lemma RemainingUpdate(plans: seq<Plan>, softFail: bool, service: Service, states: seq<PlanState>, i: nat,
                        s: PlanState)
    requires |states| == |plans| && i < |plans|
    ensures Sum(Remaining(plans, softFail, service, states[i := s]))
            + FreeRequests(plans[i], softFail, service, states[i])
         == Sum(Remaining(plans, softFail, service, states)) + FreeRequests(plans[i], softFail, service, s)
  {
    var ms := Remaining(plans, softFail, service, states);
    var m := FreeRequests(plans[i], softFail, service, s);
    assert Remaining(plans, softFail, service, states[i := s]) == ms[i := m];
    SumUpdate(ms, i, m);
  }

  /** A step that starts a request leaves the plan what it has to ask, one that receives an answer takes one away,
      and a refusal takes all. */
  lemma RequestCounted(plan: Plan, softFail: bool, service: Service, s: PlanState)
    requires !s.phase.Finished?
    ensures FreeRequests(plan, softFail, service, s) > 0
    ensures s.phase.Ready? ==>
      && FreeRequests(plan, softFail, service, Check(plan, softFail, s, false))
         == FreeRequests(plan, softFail, service, s)
      && FreeRequests(plan, softFail, service, Check(plan, softFail, s, true)) == 0
    ensures
      FreeRequests(plan, softFail, service,
                   Receive(plan, softFail, s.(phase := Waiting), service.ask(plan, s.queryIdx, s.attempt)))
      == FreeRequests(plan, softFail, service, s) - 1
  {
    AttemptsRunOut(plan, softFail, s.(phase := Waiting), service.ask(plan, s.queryIdx, s.attempt));
  }

  // ----- the request limit in all interleavings

  /** The limit is kept for all counters and interleavings exactly when at most one plan runs. */
  lemma LimitKeptAlways(plans: seq<Plan>, softFail: bool, service: Service)
    ensures |plans| <= 1 <==>
      forall c, events | Balanced(c) && c.totalRequests <= c.maxRequests ::
        Interleave(plans, softFail, service, c, events).counters.totalRequests <= c.maxRequests
  {
    if |plans| <= 1 {
      forall c, events | Balanced(c) && c.totalRequests <= c.maxRequests
        ensures Interleave(plans, softFail, service, c, events).counters.totalRequests <= c.maxRequests
      {
        OverrunIsBounded(plans, softFail, service, c, events);
        if |plans| == 0 { NoPlanNoRequest(plans, softFail, service, c, events); }
      }
    } else {
      var c := Counters(0, 0, 0, 0, 0, 1, 1, 1);
      OverrunIsReached(plans, softFail, service, c);
      var events :|
        Interleave(plans, softFail, service, c, events).counters.totalRequests == c.maxRequests + |plans| - 1;
      assert Balanced(c);
    }
  }

  lemma {:induction false} NoPlanNoRequest(plans: seq<Plan>, softFail: bool, service: Service, c: Counters,
                                           events: seq<Event>)
    requires plans == []
    ensures Interleave(plans, softFail, service, c, events).counters == c
  {
    if |events| > 0 { NoPlanNoRequest(plans, softFail, service, c, events[..|events| - 1]); }
  }

  ghost predicate WithinFree(plans: seq<Plan>, softFail: bool, service: Service, c: Counters, sys: System) {
    && |sys.states| == |plans|
    && sys.counters.totalRequests + Sum(Remaining(plans, softFail, service, sys.states))
       <= c.totalRequests + FreeTotal(plans, softFail, service)
  }

  lemma {:induction false} RequestsWithinFree(plans: seq<Plan>, softFail: bool, service: Service, c: Counters,
                                              events: seq<Event>)
    ensures WithinFree(plans, softFail, service, c, Interleave(plans, softFail, service, c, events))
  {
    if |events| > 0 {
      var init, e := events[..|events| - 1], events[|events| - 1];
      RequestsWithinFree(plans, softFail, service, c, init);
      FireWithinFree(plans, softFail, service, c, Interleave(plans, softFail, service, c, init), e);
    }
  }

  lemma FireWithinFree(plans: seq<Plan>, softFail: bool, service: Service, c: Counters, sys: System, e: Event)
    requires WithinFree(plans, softFail, service, c, sys)
    ensures WithinFree(plans, softFail, service, c, Fire(plans, softFail, service, sys, e))
  {
    if e.plan < |plans| && !sys.states[e.plan].phase.Finished? {
      var plan, s := plans[e.plan], sys.states[e.plan];
      RequestCounted(plan, softFail, service, s);
      assert s.phase.Waiting? ==> s == s.(phase := Waiting);
      RemainingUpdate(plans, softFail, service, sys.states, e.plan,
                      Fire(plans, softFail, service, sys, e).states[e.plan]);
      hide Remaining;
      hide Sum;
      hide FreeRequests;
      hide FreeTotal;
      hide Receive;
    }
  }

  /** Nothing is asked once the limit is reached. */
  lemma {:induction false} NothingAsked(plans: seq<Plan>, softFail: bool, service: Service, c: Counters,
                                        events: seq<Event>)
    requires c.totalRequests >= c.maxRequests
    ensures var sys := Interleave(plans, softFail, service, c, events);
      && |sys.states| == |plans| && sys.counters == c
      && forall i :: 0 <= i < |plans| ==> !sys.states[i].phase.Waiting?
  {
    if |events| > 0 { NothingAsked(plans, softFail, service, c, events[..|events| - 1]); }
  }

  /** Between requests; the plans want more than the limit allows, and nothing else stops them. */
  ghost predicate Overdrawn(plans: seq<Plan>, softFail: bool, service: Service, sys: System, a: nat, b: nat) {
    && |sys.states| == |plans| && a < |plans| && b < |plans| && a != b
    && (forall i :: 0 <= i < |plans| ==> !sys.states[i].phase.Waiting?)
    && !sys.states[a].phase.Finished? && !sys.states[b].phase.Finished?
    && !BudgetExceeded(sys.counters)
    && var wanted := Sum(Remaining(plans, softFail, service, sys.states));
    && sys.counters.totalRequests + wanted > sys.counters.maxRequests
    && sys.counters.totalFailures + wanted <= sys.counters.maxFailures
  }

  /** One plan makes one request, from the check to the answer. */
  lemma OneRequest(plans: seq<Plan>, softFail: bool, service: Service, c: Counters, events: seq<Event>, i: nat)
    returns (longer: seq<Event>)
    requires i < |plans|
    requires var sys := Interleave(plans, softFail, service, c, events);
      |sys.states| == |plans| && sys.states[i].phase.Ready? && !BudgetExceeded(sys.counters)
    ensures var sys := Interleave(plans, softFail, service, c, events);
      var s, answer := sys.states[i], service.ask(plans[i], sys.states[i].queryIdx, sys.states[i].attempt);
      Interleave(plans, softFail, service, c, longer)
      == System(sys.states[i := Receive(plans[i], softFail, s.(phase := Waiting), answer)],
                Recorded(sys.counters, 0, StatusOf(plans[i], answer)))
  {
    longer := events + [Event(i, 0)];
    InterleaveOneMore(plans, softFail, service, c, events, Event(i, 0));
    InterleaveOneMore(plans, softFail, service, c, longer, Event(i, 0));
    longer := longer + [Event(i, 0)];
    hide Interleave;
    hide Receive;
    hide Recorded;
    hide StatusOf;
  }

  /** Both plans check the budget before either of them is answered. */
  lemma TwoAtOnce(plans: seq<Plan>, softFail: bool, service: Service, c: Counters, events: seq<Event>, a: nat, b: nat)
    returns (longer: seq<Event>)
    requires a < |plans| && b < |plans| && a != b
    requires var sys := Interleave(plans, softFail, service, c, events);
      && |sys.states| == |plans| && !BudgetExceeded(sys.counters)
      && sys.states[a].phase.Ready? && sys.states[b].phase.Ready?
    ensures Interleave(plans, softFail, service, c, longer).counters.totalRequests
         == Interleave(plans, softFail, service, c, events).counters.totalRequests + 2
  {
    longer := events + [Event(a, 0)];
    InterleaveOneMore(plans, softFail, service, c, events, Event(a, 0));
    InterleaveOneMore(plans, softFail, service, c, longer, Event(b, 0));
    longer := longer + [Event(b, 0)];
    InterleaveOneMore(plans, softFail, service, c, longer, Event(a, 0));
    longer := longer + [Event(a, 0)];
    InterleaveOneMore(plans, softFail, service, c, longer, Event(b, 0));
    longer := longer + [Event(b, 0)];
    hide Interleave;
    hide Receive;
    hide StatusOf;
  }

  /** Such plans overrun the limit: they ask one by one until one request is left, then two ask at once. */
  lemma {:induction false} OverdrawnOverruns(plans: seq<Plan>, softFail: bool, service: Service, c: Counters,
                                             events: seq<Event>, a: nat, b: nat)
    returns (longer: seq<Event>)
    requires Overdrawn(plans, softFail, service, Interleave(plans, softFail, service, c, events), a, b)
    ensures var before := Interleave(plans, softFail, service, c, events).counters;
      Interleave(plans, softFail, service, c, longer).counters.totalRequests > before.maxRequests
    decreases var before := Interleave(plans, softFail, service, c, events).counters;
      before.maxRequests - before.totalRequests
  {
    var sys := Interleave(plans, softFail, service, c, events);
    if sys.counters.maxRequests - sys.counters.totalRequests == 1 {
      longer := TwoAtOnce(plans, softFail, service, c, events, a, b);
    } else {
      var i := NextToAsk(plans, softFail, service, sys, a, b);
      var next := OneRequest(plans, softFail, service, c, events, i);
      hide Interleave;
      StillOverdrawn(plans, softFail, service, sys, Interleave(plans, softFail, service, c, next), a, b, i);
      longer := OverdrawnOverruns(plans, softFail, service, c, next, a, b);
    }
  }

  /** A plan whose request leaves two plans with something to ask. */
  lemma NextToAsk(plans: seq<Plan>, softFail: bool, service: Service, sys: System, a: nat, b: nat) returns (i: nat)
    requires Overdrawn(plans, softFail, service, sys, a, b)
    requires sys.counters.maxRequests - sys.counters.totalRequests > 1
    ensures i < |plans| && !sys.states[i].phase.Finished?
    ensures i == a || i == b ==> FreeRequests(plans[i], softFail, service, sys.states[i]) > 1
  {
    var ms := Remaining(plans, softFail, service, sys.states);
    if ms[a] > 1 {
      i := a;
    } else if ms[b] > 1 {
      i := b;
    } else {
      i := ThirdPositive(ms, a, b);
    }
  }

  lemma StillOverdrawn(plans: seq<Plan>, softFail: bool, service: Service, sys: System, next: System,
                       a: nat, b: nat, i: nat)
    requires Overdrawn(plans, softFail, service, sys, a, b)
    requires sys.counters.maxRequests - sys.counters.totalRequests > 1
    requires i < |plans| && !sys.states[i].phase.Finished?
    requires i == a || i == b ==> FreeRequests(plans[i], softFail, service, sys.states[i]) > 1
    requires var s, answer := sys.states[i], service.ask(plans[i], sys.states[i].queryIdx, sys.states[i].attempt);
      next == System(sys.states[i := Receive(plans[i], softFail, s.(phase := Waiting), answer)],
                     Recorded(sys.counters, 0, StatusOf(plans[i], answer)))
    ensures Overdrawn(plans, softFail, service, next, a, b)
    ensures next.counters.maxRequests == sys.counters.maxRequests
    ensures next.counters.totalRequests == sys.counters.totalRequests + 1
  {
    var s := next.states[i];
    RequestCounted(plans[i], softFail, service, sys.states[i]);
    RemainingUpdate(plans, softFail, service, sys.states, i, s);
    assert !s.phase.Waiting?;
    assert s.phase.Finished? ==> FreeRequests(plans[i], softFail, service, s) == 0;
    assert Sum(Remaining(plans, softFail, service, next.states))
        == Sum(Remaining(plans, softFail, service, sys.states)) - 1;
    hide Sum;
    hide Remaining;
    hide FreeRequests;
    hide Receive;
  }

  /** For given counters, when no other budget binds: all interleavings keep the limit exactly if at most one plan
      runs, if nothing may be asked any more, or if all that the plans ask fits into what is left. */
  lemma LimitKeptFrom(plans: seq<Plan>, softFail: bool, service: Service, c: Counters)
    requires Balanced(c) && c.totalRequests <= c.maxRequests
    requires c.totalFailures + FreeTotal(plans, softFail, service) <= c.maxFailures
    requires c.totalFailures < c.maxFailures && c.totalDurationMs < c.maxDurationMs
    ensures (forall events :: Interleave(plans, softFail, service, c, events).counters.totalRequests <= c.maxRequests)
       <==> || |plans| <= 1 || c.totalRequests == c.maxRequests
            || c.totalRequests + FreeTotal(plans, softFail, service) <= c.maxRequests
  {
    if |plans| <= 1 {
      LimitKeptAlways(plans, softFail, service);
    } else if c.totalRequests == c.maxRequests {
      forall events ensures Interleave(plans, softFail, service, c, events).counters.totalRequests <= c.maxRequests {
        NothingAsked(plans, softFail, service, c, events);
      }
    } else if c.totalRequests + FreeTotal(plans, softFail, service) <= c.maxRequests {
      forall events ensures Interleave(plans, softFail, service, c, events).counters.totalRequests <= c.maxRequests {
        RequestsWithinFree(plans, softFail, service, c, events);
      }
    } else {
      assert Interleave(plans, softFail, service, c, []) == Launch(plans, c);
      var events := OverdrawnOverruns(plans, softFail, service, c, [], 0, 1);
      assert Interleave(plans, softFail, service, c, events).counters.totalRequests > c.maxRequests;
    }
  }

  // ----- budgets that stop nobody

  /** `n` requests of at most `slowest` milliseconds fit into every budget. */
  ghost predicate Fits(c: Counters, n: nat, slowest: nat) {
    && (n > 0 ==> !BudgetExceeded(c))
    && c.totalRequests + n <= c.maxRequests
    && c.totalFailures + n <= c.maxFailures
    && c.totalDurationMs + slowest * n <= c.maxDurationMs
  }

  lemma FitsFewer(c: Counters, n: nat, m: nat, slowest: nat)
    requires Fits(c, n, slowest) && m <= n
    ensures Fits(c, m, slowest)
  {
    assert slowest * n == slowest * m + slowest * (n - m);
  }

  lemma FitsStep(c: Counters, n: nat, slowest: nat, durationMs: int, status: AttemptStatus)
    requires Fits(c, n, slowest) && n > 0 && durationMs <= slowest
    ensures Fits(Recorded(c, durationMs, status), n - 1, slowest)
  {
    assert slowest * n == slowest * (n - 1) + slowest;
    if n > 1 && slowest > 0 { assert slowest * (n - 1) > 0; }
  }

  /** No budget check has stopped the plan. */
  ghost predicate Unhindered(s: PlanState) {
    && (s.lastError.Some? ==> s.lastError.value.RequestFailed?)
    && (s.phase.Finished? ==> !Denied(s.phase.outcome))
  }

  lemma ReceiveUnhindered(plan: Plan, softFail: bool, s: PlanState, answer: Answer)
    requires Unhindered(s) && s.phase.Waiting?
    ensures Unhindered(Receive(plan, softFail, s, answer))
  {
  }

  lemma {:induction false} FitsAlone(plan: Plan, softFail: bool, service: Service, s: PlanState, c: Counters,
                                     others: nat, slowest: nat)
    requires Unhindered(s) && Fits(c, FreeRequests(plan, softFail, service, s) + others, slowest)
    requires forall q, a :: service.took(plan, q, a) <= slowest
    ensures var r := Drive(plan, softFail, service, s, c); !Denied(r.outcome) && Fits(r.counters, others, slowest)
    decreases Left(plan, s)
  {
    if !s.phase.Finished? {
      var waiting, answer := s.(phase := Waiting), service.ask(plan, s.queryIdx, s.attempt);
      RequestCounted(plan, softFail, service, s);
      AttemptsRunOut(plan, softFail, waiting, answer);
      ReceiveUnhindered(plan, softFail, waiting, answer);
      var took := service.took(plan, s.queryIdx, s.attempt);
      FitsStep(c, FreeRequests(plan, softFail, service, s) + others, slowest, took, StatusOf(plan, answer));
      assert (if s.phase.Ready? then Check(plan, softFail, s, BudgetExceeded(c)) else s) == waiting;
      FitsAlone(plan, softFail, service, Receive(plan, softFail, waiting, answer),
                Recorded(c, took, StatusOf(plan, answer)), others, slowest);
    }
  }

  ghost predicate FittingSystem(plans: seq<Plan>, softFail: bool, service: Service, slowest: nat, sys: System) {
    && |sys.states| == |plans|
    && (forall i :: 0 <= i < |plans| ==> Unhindered(sys.states[i]))
    && Fits(sys.counters, Sum(Remaining(plans, softFail, service, sys.states)), slowest)
  }

  lemma {:induction false} FitsTogether(plans: seq<Plan>, softFail: bool, service: Service, c: Counters,
                                        events: seq<Event>, slowest: nat)
    requires Fits(c, FreeTotal(plans, softFail, service), slowest)
    requires forall i :: 0 <= i < |events| ==> events[i].durationMs <= slowest
    ensures FittingSystem(plans, softFail, service, slowest, Interleave(plans, softFail, service, c, events))
  {
    if |events| > 0 {
      var init, e := events[..|events| - 1], events[|events| - 1];
      FitsTogether(plans, softFail, service, c, init, slowest);
      FireFits(plans, softFail, service, slowest, Interleave(plans, softFail, service, c, init), e);
    }
  }

  lemma SumAtLeast(ms: seq<nat>, i: nat)
    requires i < |ms|
    ensures Sum(ms) >= ms[i]
  {
    SumUpdate(ms, i, 0);
  }

  lemma FireFits(plans: seq<Plan>, softFail: bool, service: Service, slowest: nat, sys: System, e: Event)
    requires FittingSystem(plans, softFail, service, slowest, sys) && e.durationMs <= slowest
    ensures FittingSystem(plans, softFail, service, slowest, Fire(plans, softFail, service, sys, e))
  {
    if e.plan < |plans| && !sys.states[e.plan].phase.Finished? {
      var plan, s := plans[e.plan], sys.states[e.plan];
      var ms := Remaining(plans, softFail, service, sys.states);
      SumAtLeast(ms, e.plan);
      RequestCounted(plan, softFail, service, s);
      var next := Fire(plans, softFail, service, sys, e);
      RemainingUpdate(plans, softFail, service, sys.states, e.plan, next.states[e.plan]);
      assert Sum(ms) > 0;
      if s.phase.Waiting? {
        assert s == s.(phase := Waiting);
        var answer := service.ask(plan, s.queryIdx, s.attempt);
        ReceiveUnhindered(plan, softFail, s, answer);
        FitsStep(sys.counters, Sum(ms), slowest, e.durationMs, StatusOf(plan, answer));
      }
      hide Remaining;
      hide Sum;
      hide FreeRequests;
      hide Receive;
      hide Recorded;
    }
  }

  /** The most that all plans can ask: two requests more than its retries each. */
  function MostRequests(plans: seq<Plan>): nat {
    Sum(seq(|plans|, i requires 0 <= i < |plans| => 2 + plans[i].maxRetries))
  }

  lemma {:induction false} SumMonotone(ms: seq<nat>, ns: seq<nat>)
    requires |ms| == |ns| && forall i :: 0 <= i < |ms| ==> ms[i] <= ns[i]
    ensures Sum(ms) <= Sum(ns)
  {
    if |ms| > 0 { SumMonotone(ms[..|ms| - 1], ns[..|ns| - 1]); }
  }

  lemma FreeTotalBound(plans: seq<Plan>, softFail: bool, service: Service)
    ensures FreeTotal(plans, softFail, service) <= MostRequests(plans)
  {
    forall i | 0 <= i < |plans|
      ensures FreeRequests(plans[i], softFail, service, PLAN_START) <= 2 + plans[i].maxRetries
    {
      FreeRequestsBound(plans[i], softFail, service, PLAN_START);
    }
    SumMonotone(Remaining(plans, softFail, service, seq(|plans|, _ => PLAN_START)),
                seq(|plans|, i requires 0 <= i < |plans| => 2 + plans[i].maxRetries));
  }

  /** When the most that the plans can ask fits, no interleaving lets a budget check stop a plan, and no limit is
      exceeded. */
  lemma {:induction false} AmpleBudgetStopsNobody(plans: seq<Plan>, softFail: bool, service: Service, c: Counters,
                                                  events: seq<Event>, slowest: nat)
    requires Fits(c, MostRequests(plans), slowest)
    requires forall i :: 0 <= i < |events| ==> events[i].durationMs <= slowest
    ensures var sys := Interleave(plans, softFail, service, c, events);
      && |sys.states| == |plans|
      && (forall i :: 0 <= i < |plans| && sys.states[i].phase.Finished? ==> !Denied(sys.states[i].phase.outcome))
      && sys.counters.totalRequests <= sys.counters.maxRequests
      && sys.counters.totalFailures <= sys.counters.maxFailures
      && sys.counters.totalDurationMs <= sys.counters.maxDurationMs
  {
    FreeTotalBound(plans, softFail, service);
    FitsFewer(c, MostRequests(plans), FreeTotal(plans, softFail, service), slowest);
    FitsTogether(plans, softFail, service, c, events, slowest);
    FitsFewer(Interleave(plans, softFail, service, c, events).counters,
              Sum(Remaining(plans, softFail, service, Interleave(plans, softFail, service, c, events).states)),
              0, slowest);
  }
}
