/** What a retriever plan hands over, said of the answers of the knowledge service. */
module RetrievalResults {
  import opened Values
  import opened ExecutionState
  import opened Matches
  import opened Sequences
  import opened Retrieval

  // ----- the requests of a plan, in their order

  /** The primary query is asked up to `1 + maxRetries` times, then the fallback query once. */
  function MostAttempts(plan: Plan): nat {
    1 + plan.maxRetries + if plan.fallbackQuery.Some? then 1 else 0
  }

  /** The service's answer to the `n`-th request. */
  function AnswerAt(plan: Plan, service: Service, n: nat): Answer {
    if n <= plan.maxRetries then service.ask(plan, 0, n + 1) else service.ask(plan, 1, 1)
  }

  function Scored(plan: Plan): Match -> bool {
    (m: Match) => plan.minScore.Some? ==> m.score >= plan.minScore.value
  }

  /** `r` is the answer without the matches below the plan's score. */
  ghost predicate Hands(plan: Plan, r: QueryResult, answer: Answer) {
    && answer.Answered? && r.query == answer.result.query && r.topK == answer.result.topK
    && Keeps(r.matches, answer.result.matches, Scored(plan))
  }

  /** The answer holds matches enough. */
  ghost predicate Enough(plan: Plan, answer: Answer) {
    exists r :: Hands(plan, r, answer) && |r.matches| >= plan.minMatches
  }

  ghost predicate FirstEnough(plan: Plan, service: Service, n: nat) {
    && n < MostAttempts(plan) && Enough(plan, AnswerAt(plan, service, n))
    && forall k :: 0 <= k < n ==> !Enough(plan, AnswerAt(plan, service, k))
  }

  ghost predicate NeverEnough(plan: Plan, service: Service, n: nat) {
    forall k :: 0 <= k < n ==> !Enough(plan, AnswerAt(plan, service, k))
  }

  /** Of the first `n` answers, the last that is not an error. */
  ghost predicate LastAnswer(plan: Plan, service: Service, n: nat, k: nat) {
    && k < n && AnswerAt(plan, service, k).Answered?
    && forall i :: k < i < n ==> !AnswerAt(plan, service, i).Answered?
  }

  ghost predicate OnlyRefused(plan: Plan, service: Service, n: nat) {
    forall k :: 0 <= k < n ==> AnswerAt(plan, service, k).Refused?
  }

  // ----- filtering

  lemma {:induction false} KeepScoredKeeps(matches: seq<Match>, minScore: real, keep: Match -> bool)
    requires forall m :: keep(m) <==> m.score >= minScore
    ensures Keeps(KeepScored(matches, minScore), matches, keep)
  {
    if |matches| == 0 {
      KeepsNothing(keep);
    } else {
      var init, m := matches[..|matches| - 1], matches[|matches| - 1];
      KeepScoredKeeps(init, minScore, keep);
      KeepsOneMore(KeepScored(init, minScore), init, keep, m);
      assert init + [m] == matches;
      hide Keeps;
    }
  }

  lemma FilteredHands(plan: Plan, answer: Answer)
    requires answer.Answered?
    ensures Hands(plan, Filtered(answer.result, plan.minScore), answer)
  {
    if plan.minScore.Some? {
      KeepScoredKeeps(answer.result.matches, plan.minScore.value, Scored(plan));
    } else {
      KeepsAll(answer.result.matches, Scored(plan));
    }
    hide Keeps;
  }

  lemma EnoughMeans(plan: Plan, answer: Answer)
    requires answer.Answered?
    ensures Enough(plan, answer) <==> |Filtered(answer.result, plan.minScore).matches| >= plan.minMatches
  {
    FilteredHands(plan, answer);
    if Enough(plan, answer) {
      var r :| Hands(plan, r, answer) && |r.matches| >= plan.minMatches;
      KeepsOneWay(r.matches, Filtered(answer.result, plan.minScore).matches, answer.result.matches, Scored(plan));
    }
    hide Filtered;
    hide Keeps;
  }

  // ----- how far a plan has come

  /** The plan is about to make its `n`-th request, or has made it; nothing was enough so far. */
  ghost predicate Reached(plan: Plan, service: Service, s: PlanState, n: nat) {
    && n < MostAttempts(plan) && !s.phase.Finished? && NeverEnough(plan, service, n)
    && (if n <= plan.maxRetries then s.queryIdx == 0 && s.attempt == n + 1 else s.queryIdx == 1 && s.attempt == 1)
    && Remembers(plan, service, s, n)
  }

  /** The last answer and the last error of the first `n` requests. */
  ghost predicate Remembers(plan: Plan, service: Service, s: PlanState, n: nat) {
    && (s.lastResult.None? <==> OnlyRefused(plan, service, n))
    && (forall k: nat :: LastAnswer(plan, service, n, k) ==>
         s.lastResult.Some? && Hands(plan, s.lastResult.value, AnswerAt(plan, service, k)))
    && (s.lastResult.Some? ==> |s.lastResult.value.matches| < plan.minMatches)
    && (n > 0 && AnswerAt(plan, service, n - 1).Refused? ==>
         s.lastError == Some(RequestFailed(AnswerAt(plan, service, n - 1).message)))
    && (s.lastError.Some? ==> s.lastError.value.RequestFailed?)
  }

  // ----- what the plan tells in the end

  /** The plan is satisfied with its first sufficient answer. */
  ghost predicate TellsSuccess(plan: Plan, answer: Answer, outcome: Outcome) {
    && outcome.Ran? && outcome.run.plan == plan && outcome.run.satisfied && outcome.run.error.None?
    && Hands(plan, outcome.run.result, answer) && |outcome.run.result.matches| >= plan.minMatches
  }

  /** The record of a plan none of whose answers was sufficient: the last answer and how few matches it has, or
      nothing and the last error. */
  ghost predicate TellsFailure(plan: Plan, service: Service, run: PlanRun) {
    && run.plan == plan && !run.satisfied
    && (forall k: nat :: LastAnswer(plan, service, MostAttempts(plan), k) ==>
         && Hands(plan, run.result, AnswerAt(plan, service, k))
         && run.error == Some(TooFewMatches(|run.result.matches|, plan.minMatches, plan.key)))
    && (OnlyRefused(plan, service, MostAttempts(plan)) ==>
         && run.result == QueryResult(plan.query, plan.topK, [])
         && AnswerAt(plan, service, MostAttempts(plan) - 1).Refused?
         && run.error == Some(RequestFailed(AnswerAt(plan, service, MostAttempts(plan) - 1).message)))
  }

  /** Handed over, or thrown by a plan that insists on its error. */
  ghost predicate Delivers(plan: Plan, softFail: bool, run: PlanRun, outcome: Outcome) {
    && run.error.Some?
    && outcome == if plan.failOnError && !softFail then Threw(run.error.value) else Ran(run)
  }

  ghost predicate Tells(plan: Plan, softFail: bool, service: Service, outcome: Outcome) {
    && (forall n: nat :: FirstEnough(plan, service, n) ==> TellsSuccess(plan, AnswerAt(plan, service, n), outcome))
    && (NeverEnough(plan, service, MostAttempts(plan)) ==>
         exists run :: TellsFailure(plan, service, run) && Delivers(plan, softFail, run, outcome))
  }

  // ----- the proof

  lemma RememberOneMore(plan: Plan, service: Service, s: PlanState, n: nat, next: PlanState)
    requires Remembers(plan, service, s, n) && !Enough(plan, AnswerAt(plan, service, n))
    requires match AnswerAt(plan, service, n)
      case Refused(message) => next.lastError == Some(RequestFailed(message)) && next.lastResult == s.lastResult
      case Answered(result) =>
        next.lastResult == Some(Filtered(result, plan.minScore)) && next.lastError == s.lastError
    ensures Remembers(plan, service, next, n + 1)
  {
    var answer := AnswerAt(plan, service, n);
    if answer.Answered? {
      FilteredHands(plan, answer);
      EnoughMeans(plan, answer);
    }
    hide Hands;
    hide Filtered;
    hide Enough;
    hide AnswerAt;
    forall k: nat | LastAnswer(plan, service, n + 1, k)
      ensures next.lastResult.Some? && Hands(plan, next.lastResult.value, AnswerAt(plan, service, k))
    {
      if k < n { assert LastAnswer(plan, service, n, k); }
    }
  }

  /** The state after an answer that was not enough. */
  lemma NotEnough(plan: Plan, softFail: bool, service: Service, s: PlanState, n: nat)
    requires Reached(plan, service, s, n) && s.phase.Waiting? && !Enough(plan, AnswerAt(plan, service, n))
    ensures var next := Receive(plan, softFail, s, service.ask(plan, s.queryIdx, s.attempt));
      && NeverEnough(plan, service, n + 1)
      && Remembers(plan, service, next, n + 1)
      && if n + 1 < MostAttempts(plan) then next.phase.Ready? && Reached(plan, service, next, n + 1)
         else next.phase == Finished(Conclude(plan, softFail, next))
  {
    var answer := AnswerAt(plan, service, n);
    assert answer == service.ask(plan, s.queryIdx, s.attempt);
    if answer.Answered? { EnoughMeans(plan, answer); }
    var next := Receive(plan, softFail, s, answer);
    hide Hands;
    hide Enough;
    hide Filtered;
    RememberOneMore(plan, service, s, n, next) by { hide Remembers; }
    hide Remembers;
    hide AnswerAt;
    hide Conclude;
  }

  lemma ConcludeTells(plan: Plan, softFail: bool, service: Service, s: PlanState)
    requires Remembers(plan, service, s, MostAttempts(plan)) && NeverEnough(plan, service, MostAttempts(plan))
    ensures Tells(plan, softFail, service, Conclude(plan, softFail, s))
  {
    hide Hands;
    hide Enough;
    hide AnswerAt;
    var n := MostAttempts(plan);
    var run :=
      if s.lastResult.Some? then
        PlanRun(plan, s.lastResult.value, false,
                Some(TooFewMatches(|s.lastResult.value.matches|, plan.minMatches, plan.key)))
      else PlanRun(plan, QueryResult(plan.query, plan.topK, []), false, s.lastError);
    if s.lastResult.None? { assert AnswerAt(plan, service, n - 1).Refused?; }
    assert TellsFailure(plan, service, run) by {
      forall k: nat | LastAnswer(plan, service, n, k)
        ensures Hands(plan, run.result, AnswerAt(plan, service, k)) && s.lastResult.Some? { }
      if s.lastResult.Some? && OnlyRefused(plan, service, n) { assert false; }
    }
    assert Delivers(plan, softFail, run, Conclude(plan, softFail, s));
  }

  lemma EnoughTells(plan: Plan, softFail: bool, service: Service, s: PlanState, n: nat)
    requires Reached(plan, service, s, n) && s.phase.Waiting? && Enough(plan, AnswerAt(plan, service, n))
    ensures var next := Receive(plan, softFail, s, service.ask(plan, s.queryIdx, s.attempt));
      next.phase.Finished? && Tells(plan, softFail, service, next.phase.outcome)
  {
    var answer := AnswerAt(plan, service, n);
    assert answer == service.ask(plan, s.queryIdx, s.attempt);
    assert answer.Answered? by { var r :| Hands(plan, r, answer) && |r.matches| >= plan.minMatches; }
    EnoughMeans(plan, answer);
    FilteredHands(plan, answer);
    var next := Receive(plan, softFail, s, answer);
    hide Hands;
    hide Enough;
    hide Filtered;
    hide Remembers;
    assert TellsSuccess(plan, answer, next.phase.outcome);
    hide TellsSuccess;
    hide AnswerAt;
    forall m: nat | FirstEnough(plan, service, m) ensures m == n { }
  }

  /** Without a budget: from a state that has reached the `n`-th request. */
  lemma {:induction false} FreePlanTellsFrom(plan: Plan, softFail: bool, service: Service, s: PlanState, n: nat)
    requires Reached(plan, service, s, n)
    ensures Tells(plan, softFail, service, Unlimited(plan, softFail, service, s))
    decreases MostAttempts(plan) - n
  {
    hide *;
    var waiting := s.(phase := Waiting);
    var next := OneAnswer(plan, softFail, service, s, n);
    assert waiting.queryIdx == s.queryIdx && waiting.attempt == s.attempt;
    if Enough(plan, AnswerAt(plan, service, n)) {
      EnoughTells(plan, softFail, service, waiting, n);
    } else {
      NotEnough(plan, softFail, service, waiting, n);
      ReachedBound(plan, service, s, n);
      if n + 1 < MostAttempts(plan) {
        FreePlanTellsFrom(plan, softFail, service, next, n + 1);
      } else {
        ConcludeTells(plan, softFail, service, next);
      }
    }
  }

  lemma OneAnswer(plan: Plan, softFail: bool, service: Service, s: PlanState, n: nat) returns (next: PlanState)
    requires Reached(plan, service, s, n)
    ensures Reached(plan, service, s.(phase := Waiting), n)
    ensures next == Receive(plan, softFail, s.(phase := Waiting), service.ask(plan, s.queryIdx, s.attempt))
    ensures Unlimited(plan, softFail, service, s)
         == if next.phase.Finished? then next.phase.outcome else Unlimited(plan, softFail, service, next)
  {
    var waiting := s.(phase := Waiting);
    var answer := service.ask(plan, s.queryIdx, s.attempt);
    AttemptsRunOut(plan, softFail, waiting, answer);
    next := Receive(plan, softFail, waiting, answer);
    hide Receive;
    hide NeverEnough;
    hide OnlyRefused;
    hide Hands;
    hide AnswerAt;
  }

  lemma ReachedBound(plan: Plan, service: Service, s: PlanState, n: nat)
    requires Reached(plan, service, s, n)
    ensures n < MostAttempts(plan)
  {
  }

  /** What a plan answers that no budget check stops: its first sufficient answer without the matches that score too
      low, or, when no answer to either query is sufficient, the last answer or error. */
  lemma FreePlanTells(plan: Plan, softFail: bool, service: Service)
    ensures Tells(plan, softFail, service, Unlimited(plan, softFail, service, PLAN_START))
  {
    assert Remembers(plan, service, PLAN_START, 0);
    hide Enough;
    assert Reached(plan, service, PLAN_START, 0);
    FreePlanTellsFrom(plan, softFail, service, PLAN_START, 0);
  }

  /** A plan that runs alone tells the same unless a check stopped it; then its record holds nothing. */
  lemma PlanTells(plan: Plan, softFail: bool, service: Service, c: Counters)
    ensures var outcome := Drive(plan, softFail, service, PLAN_START, c).outcome;
      if Denied(outcome) then outcome.Ran? ==>
        outcome.run == PlanRun(plan, QueryResult(plan.query, plan.topK, []), false, Some(BudgetExhausted))
      else Tells(plan, softFail, service, outcome)
  {
    if Denied(Drive(plan, softFail, service, PLAN_START, c).outcome) {
      DeniedTells(plan, softFail, service, PLAN_START, c);
    } else {
      AloneIsUnlimited(plan, softFail, service, PLAN_START, c);
      FreePlanTells(plan, softFail, service);
      hide Tells;
      hide Drive;
    }
  }

  ghost predicate EmptyWhenDenied(plan: Plan, outcome: Outcome) {
    Denied(outcome) && outcome.Ran? ==>
      outcome.run == PlanRun(plan, QueryResult(plan.query, plan.topK, []), false, Some(BudgetExhausted))
  }

  lemma {:induction false} DeniedTells(plan: Plan, softFail: bool, service: Service, s: PlanState, c: Counters)
    requires s.lastError.Some? ==> s.lastError.value.RequestFailed?
    requires s.phase.Finished? ==> EmptyWhenDenied(plan, s.phase.outcome)
    ensures EmptyWhenDenied(plan, Drive(plan, softFail, service, s, c).outcome)
    decreases Left(plan, s)
  {
    if !s.phase.Finished? {
      var checked := if s.phase.Ready? then Check(plan, softFail, s, BudgetExceeded(c)) else s;
      if !checked.phase.Finished? {
        var answer := service.ask(plan, s.queryIdx, s.attempt);
        AttemptsRunOut(plan, softFail, checked, answer);
        DeniedTells(plan, softFail, service, Receive(plan, softFail, checked, answer),
                    Recorded(c, service.took(plan, s.queryIdx, s.attempt), StatusOf(plan, answer)));
      }
    }
  }

  // ----- what the plan counts

  function Refusals(plan: Plan, service: Service, n: nat): nat {
    if n == 0 then 0 else Refusals(plan, service, n - 1) + if AnswerAt(plan, service, n - 1).Refused? then 1 else 0
  }

  /** What the first `n` requests took; a negative duration counts as nothing. */
  function Spent(plan: Plan, service: Service, n: nat): nat {
    if n == 0 then 0
    else
      var k := n - 1;
      var took := if k <= plan.maxRetries then service.took(plan, 0, k + 1) else service.took(plan, 1, 1);
      Spent(plan, service, n - 1) + if took > 0 then took else 0
  }

  /** The counters after the first `n` requests, of which only the last may have been enough. */
  ghost predicate Counts(plan: Plan, service: Service, c: Counters, n: nat, after: Counters) {
    var successes := if n > 0 && Enough(plan, AnswerAt(plan, service, n - 1)) then 1 else 0;
    && after.totalRequests == c.totalRequests + n
    && after.totalFailures == c.totalFailures + Refusals(plan, service, n)
    && after.totalSuccesses == c.totalSuccesses + successes
    && after.totalEmpties == c.totalEmpties + n - Refusals(plan, service, n) - successes
    && after.totalDurationMs == c.totalDurationMs + Spent(plan, service, n)
    && after.maxRequests == c.maxRequests && after.maxFailures == c.maxFailures
    && after.maxDurationMs == c.maxDurationMs
  }

  /** After `n` requests every budget leaves room for another one. */
  predicate Within(plan: Plan, service: Service, c: Counters, n: nat) {
    && c.totalRequests + n < c.maxRequests
    && c.totalFailures + Refusals(plan, service, n) < c.maxFailures
    && c.totalDurationMs + Spent(plan, service, n) < c.maxDurationMs
  }

  lemma ExceededMeans(plan: Plan, service: Service, c: Counters, n: nat, now: Counters)
    requires Counts(plan, service, c, n, now)
    ensures BudgetExceeded(now) <==> !Within(plan, service, c, n)
  {
    hide Enough;
    hide AnswerAt;
    hide Refusals;
    hide Spent;
  }

  lemma CountOneMore(plan: Plan, service: Service, s: PlanState, c: Counters, n: nat, now: Counters)
    requires Reached(plan, service, s, n) && Counts(plan, service, c, n, now)
    ensures Counts(plan, service, c, n + 1,
                   Recorded(now, service.took(plan, s.queryIdx, s.attempt),
                            StatusOf(plan, service.ask(plan, s.queryIdx, s.attempt))))
  {
    var answer := AnswerAt(plan, service, n);
    assert answer == service.ask(plan, s.queryIdx, s.attempt);
    if answer.Answered? {
      EnoughMeans(plan, answer);
    } else {
      assert !Enough(plan, answer);
    }
    assert n > 0 ==> !Enough(plan, AnswerAt(plan, service, n - 1));
    hide Enough;
    hide Filtered;
    hide Remembers;
    hide AnswerAt;
  }

  lemma {:induction false} CountsFrom(plan: Plan, softFail: bool, service: Service, c: Counters, s: PlanState, n: nat,
                                      now: Counters)
    returns (m: nat)
    requires Reached(plan, service, s, n) && s.phase.Ready? && Counts(plan, service, c, n, now)
    ensures n <= m <= MostAttempts(plan)
    ensures var r := Drive(plan, softFail, service, s, now);
      && Counts(plan, service, c, m, r.counters)
      && (Denied(r.outcome) <==> m < MostAttempts(plan) && NeverEnough(plan, service, m))
      && (Denied(r.outcome) ==> !Within(plan, service, c, m))
    ensures forall k :: 0 <= k < m - 1 ==> !Enough(plan, AnswerAt(plan, service, k))
    ensures forall k :: n <= k < m ==> Within(plan, service, c, k)
    decreases MostAttempts(plan) - n
  {
    hide *;
    ReachedMeans(plan, service, s, n);
    DriveOnce(plan, softFail, service, s, now);
    ExceededMeans(plan, service, c, n, now);
    m := n;
    if !BudgetExceeded(now) {
      var waiting, answer := s.(phase := Waiting), service.ask(plan, s.queryIdx, s.attempt);
      assert waiting.queryIdx == s.queryIdx && waiting.attempt == s.attempt;
      var next := OneAnswer(plan, softFail, service, s, n);
      var counted := Recorded(now, service.took(plan, s.queryIdx, s.attempt), StatusOf(plan, answer));
      CountOneMore(plan, service, s, c, n, now);
      m := n + 1;
      if Enough(plan, AnswerAt(plan, service, n)) {
        EnoughTells(plan, softFail, service, waiting, n);
        UndeniedSuccess(plan, softFail, service, next.phase.outcome, n);
      } else {
        NotEnough(plan, softFail, service, waiting, n);
        if n + 1 < MostAttempts(plan) {
          m := CountsFrom(plan, softFail, service, c, next, n + 1, counted);
        } else {
          UndeniedConclusion(plan, softFail, service, next, n + 1);
        }
      }
    }
  }

  lemma DriveOnce(plan: Plan, softFail: bool, service: Service, s: PlanState, c: Counters)
    requires s.phase.Ready?
    ensures var r := Drive(plan, softFail, service, s, c);
      if BudgetExceeded(c) then Denied(r.outcome) && r.counters == c
      else
        var answer := service.ask(plan, s.queryIdx, s.attempt);
        var next := Receive(plan, softFail, s.(phase := Waiting), answer);
        var counted := Recorded(c, service.took(plan, s.queryIdx, s.attempt), StatusOf(plan, answer));
        r == if next.phase.Finished? then Alone(next.phase.outcome, counted)
             else Drive(plan, softFail, service, next, counted)
  {
    AttemptsRunOut(plan, softFail, s.(phase := Waiting), service.ask(plan, s.queryIdx, s.attempt));
    hide Receive;
    hide Recorded;
    hide StatusOf;
    hide BudgetExceeded;
  }

  lemma ReachedMeans(plan: Plan, service: Service, s: PlanState, n: nat)
    requires Reached(plan, service, s, n)
    ensures n < MostAttempts(plan) && NeverEnough(plan, service, n)
    ensures forall k :: 0 <= k < n ==> !Enough(plan, AnswerAt(plan, service, k))
  {
    hide Enough;
    hide AnswerAt;
    hide Remembers;
  }

  lemma UndeniedSuccess(plan: Plan, softFail: bool, service: Service, outcome: Outcome, n: nat)
    requires Tells(plan, softFail, service, outcome) && n < MostAttempts(plan)
    requires Enough(plan, AnswerAt(plan, service, n))
    requires forall k :: 0 <= k < n ==> !Enough(plan, AnswerAt(plan, service, k))
    ensures !Denied(outcome) && !NeverEnough(plan, service, n + 1)
  {
    hide Enough;
    hide AnswerAt;
    hide Hands;
    assert FirstEnough(plan, service, n);
  }

  lemma UndeniedConclusion(plan: Plan, softFail: bool, service: Service, s: PlanState, n: nat)
    requires Remembers(plan, service, s, n)
    ensures !Denied(Conclude(plan, softFail, s))
  {
    hide Hands;
    hide AnswerAt;
  }

  /** A plan that runs alone makes its first `m` requests, each while all three budgets leave room for it, stops at the
      first sufficient answer, and counts each of them under what was answered; a check stopped it exactly if it stopped
      without one before its attempts were used up, and then some budget left no room. */
  lemma PlanCounts(plan: Plan, softFail: bool, service: Service, c: Counters) returns (m: nat)
    ensures m <= MostAttempts(plan)
    ensures var r := Drive(plan, softFail, service, PLAN_START, c);
      && Counts(plan, service, c, m, r.counters)
      && (Denied(r.outcome) <==> m < MostAttempts(plan) && NeverEnough(plan, service, m))
      && (Denied(r.outcome) ==> !Within(plan, service, c, m))
    ensures forall k :: 0 <= k < m - 1 ==> !Enough(plan, AnswerAt(plan, service, k))
    ensures forall k :: 0 <= k < m ==> Within(plan, service, c, k)
  {
    assert Remembers(plan, service, PLAN_START, 0);
    assert Counts(plan, service, c, 0, c);
    assert Reached(plan, service, PLAN_START, 0);
    hide *;
    m := CountsFrom(plan, softFail, service, c, PLAN_START, 0, c);
  }

  // ----- what plans that run at once count

  /** Of plans that run at once, an event that brings an answer counts one request with its duration under what was
      answered, and every other event counts nothing. */
  lemma AnswersAreCounted(plans: seq<Plan>, softFail: bool, service: Service, sys: System, e: Event)
    requires |sys.states| == |plans|
    ensures var before, after := sys.counters, Fire(plans, softFail, service, sys, e).counters;
      if e.plan < |plans| && sys.states[e.plan].phase.Waiting? then
        var plan, s := plans[e.plan], sys.states[e.plan];
        var answer := service.ask(plan, s.queryIdx, s.attempt);
        && after.totalRequests == before.totalRequests + 1
        && after.totalDurationMs == before.totalDurationMs + (if e.durationMs > 0 then e.durationMs else 0)
        && after.totalFailures == before.totalFailures + (if answer.Refused? then 1 else 0)
        && after.totalSuccesses == before.totalSuccesses + (if Enough(plan, answer) then 1 else 0)
        && after.totalEmpties
           == before.totalEmpties + (if answer.Answered? && !Enough(plan, answer) then 1 else 0)
      else after == before
  {
    if e.plan < |plans| && sys.states[e.plan].phase.Waiting? {
      var plan, s := plans[e.plan], sys.states[e.plan];
      var answer := service.ask(plan, s.queryIdx, s.attempt);
      if answer.Answered? { EnoughMeans(plan, answer); } else { assert !Enough(plan, answer); }
    }
    hide Enough;
    hide Filtered;
    hide Receive;
  }
}
