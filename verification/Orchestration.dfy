/** What a node makes of its retriever plans, run one after the other or speculatively all at once. */
module Orchestration {
  import opened Values
  import opened ExecutionState
  import opened Matches
  import opened Retrieval
  import RetrievalBudget

  datatype Strategy = Single | Merge | FirstNonEmpty | BestScore | Adaptive

  datatype Config = Config(strategy: Strategy, speculative: bool, topK: int, minMatches: nat, failOnError: bool)

  /** The result handed to the node with the key of the selected retriever, or an exception. */
  datatype Selection =
    | Selected(result: QueryResult, selectedKey: Option<string>, tried: seq<string>)
    | Raised(error: RetrievalError)

  // ----- ordering of the plans

  function FindKey(plans: seq<Plan>, key: string): (i: int)
    ensures -1 <= i < |plans|
    ensures i >= 0 ==> plans[i].key == key
    ensures i < 0 ==> forall k :: 0 <= k < |plans| ==> plans[k].key != key
  {
    if |plans| == 0 then -1
    else
      var i := FindKey(plans[..|plans| - 1], key);
      if i >= 0 then i else if plans[|plans| - 1].key == key then |plans| - 1 else -1
  }

  function WithoutKey(plans: seq<Plan>, key: string): seq<Plan> {
    if |plans| == 0 then []
    else
      var rest, plan := WithoutKey(plans[..|plans| - 1], key), plans[|plans| - 1];
      if plan.key != key then rest + [plan] else rest
  }

  /** The preferred retriever goes first. */
  function AdaptiveOrdering(plans: seq<Plan>, preferred: Option<string>): seq<Plan> {
    if preferred.None? || FindKey(plans, preferred.value) < 0 then plans
    else [plans[FindKey(plans, preferred.value)]] + WithoutKey(plans, preferred.value)
  }

  function KeyCount(plans: seq<Plan>, key: string): nat {
    if |plans| == 0 then 0
    else KeyCount(plans[..|plans| - 1], key) + if plans[|plans| - 1].key == key then 1 else 0
  }

  lemma {:induction false} KeyCountSplits(plans: seq<Plan>, key: string)
    ensures |plans| == |WithoutKey(plans, key)| + KeyCount(plans, key)
    ensures FindKey(plans, key) >= 0 ==> KeyCount(plans, key) >= 1
  {
    if |plans| > 0 { KeyCountSplits(plans[..|plans| - 1], key); }
  }

  lemma {:induction false} OneKeySplits(plans: seq<Plan>, key: string)
    requires KeyCount(plans, key) == 1
    ensures FindKey(plans, key) >= 0
    ensures multiset(plans) == multiset(WithoutKey(plans, key)) + multiset{plans[FindKey(plans, key)]}
  {
    var init, last := plans[..|plans| - 1], plans[|plans| - 1];
    assert plans == init + [last];
    if last.key == key {
      NoKeyNothingDropped(init, key);
    } else {
      OneKeySplits(init, key);
    }
  }

  lemma {:induction false} NoKeyNothingDropped(plans: seq<Plan>, key: string)
    requires KeyCount(plans, key) == 0
    ensures WithoutKey(plans, key) == plans && FindKey(plans, key) < 0
  {
    if |plans| > 0 {
      assert plans == plans[..|plans| - 1] + [plans[|plans| - 1]];
      NoKeyNothingDropped(plans[..|plans| - 1], key);
    }
  }

  /** Reordering loses no plan exactly when no two plans share the preferred key. */
  lemma AdaptiveOrderingIsPermutation(plans: seq<Plan>, key: string)
    ensures multiset(AdaptiveOrdering(plans, Some(key))) == multiset(plans) <==> KeyCount(plans, key) <= 1
  {
    KeyCountSplits(plans, key);
    var ordered := AdaptiveOrdering(plans, Some(key));
    if KeyCount(plans, key) == 0 {
      NoKeyNothingDropped(plans, key);
    } else if KeyCount(plans, key) == 1 {
      OneKeySplits(plans, key);
    } else {
      assert |multiset(ordered)| == |ordered| && |multiset(plans)| == |plans|;
      ManyKeysAreFound(plans, key);
    }
  }

  lemma {:induction false} ManyKeysAreFound(plans: seq<Plan>, key: string)
    requires KeyCount(plans, key) >= 1
    ensures FindKey(plans, key) >= 0
  {
    if KeyCount(plans[..|plans| - 1], key) >= 1 { ManyKeysAreFound(plans[..|plans| - 1], key); }
  }

  // ----- selecting from the runs of all plans

  function Keys(runs: seq<PlanRun>): seq<string> {
    seq(|runs|, i requires 0 <= i < |runs| => runs[i].plan.key)
  }

  function MatchLists(runs: seq<PlanRun>): seq<seq<Match>> {
    seq(|runs|, i requires 0 <= i < |runs| => runs[i].result.matches)
  }

  /** `queries.join(" || ")` */
  function JoinedQueries(runs: seq<PlanRun>): string {
    if |runs| == 0 then ""
    else if |runs| == 1 then runs[0].result.query
    else JoinedQueries(runs[..|runs| - 1]) + " || " + runs[|runs| - 1].result.query
  }

  /** The first error of a plan that insists on it. */
  function HardError(runs: seq<PlanRun>): Option<RetrievalError> {
    if |runs| == 0 then None
    else
      var before, run := HardError(runs[..|runs| - 1]), runs[|runs| - 1];
      if before.Some? then before
      else if run.plan.failOnError then run.error else None
  }

  function OrElse(error: Option<RetrievalError>, fallback: RetrievalError): RetrievalError {
    if error.Some? then error.value else fallback
  }

  function SelectMerged(config: Config, runs: seq<PlanRun>): Selection {
    var merged := Take(Ranked(Flatten(MatchLists(runs))), Limit(config.topK));
    var anyMatches := exists i :: 0 <= i < |runs| && runs[i].result.matches != [];
    if |merged| < config.minMatches && config.failOnError && (HardError(runs).Some? || !anyMatches) then
      Raised(OrElse(HardError(runs), TooFewMatches(|merged|, config.minMatches, "merge")))
    else
      Selected(QueryResult(JoinedQueries(runs), config.topK, merged), None, Keys(runs))
  }

  /** Ordering of the best-score strategy: the better top match, then the longer list. */
  predicate Beats(a: PlanRun, b: PlanRun)
    requires a.result.matches != [] && b.result.matches != []
  {
    var x, y := a.result.matches[0].score, b.result.matches[0].score;
    x > y || (x == y && |a.result.matches| > |b.result.matches|)
  }

  ghost predicate IsBest(runs: seq<PlanRun>, i: int) {
    if i < 0 then i == -1 && forall k :: 0 <= k < |runs| ==> runs[k].result.matches == []
    else
      && i < |runs| && runs[i].result.matches != []
      && (forall k :: 0 <= k < |runs| && runs[k].result.matches != [] ==> !Beats(runs[k], runs[i]))
      && (forall k :: 0 <= k < i && runs[k].result.matches != [] ==> Beats(runs[i], runs[k]))
  }

  /** The first run that no other run beats, or -1 when all are empty. */
  method SelectBestScoreResult(runs: seq<PlanRun>) returns (best: int)
    ensures IsBest(runs, best)
  {
    best := -1;
    for i := 0 to |runs|
      invariant IsBest(runs[..i], best)
    {
      if runs[i].result.matches != [] {
        if best < 0 || Beats(runs[i], runs[best]) {
          best := i;
        }
      }
    }
    assert runs[..|runs|] == runs;
  }

  /** There is at most one such run. */
  lemma BestIsUnique(runs: seq<PlanRun>, i: int, j: int)
    requires IsBest(runs, i) && IsBest(runs, j)
    ensures i == j
  {
  }

  function SelectBest(config: Config, runs: seq<PlanRun>, best: int): Selection
    requires |runs| > 0 && -1 <= best < |runs|
  {
    if best < 0 then
      if config.failOnError then Raised(OrElse(HardError(runs), NothingFound))
      else Selected(QueryResult(runs[0].plan.query, config.topK, []), None, Keys(runs))
    else if !runs[best].satisfied && config.failOnError then
      var run := runs[best];
      Raised(OrElse(run.error, TooFewMatches(|run.result.matches|, run.plan.minMatches, run.plan.key)))
    else Selected(runs[best].result, Some(runs[best].plan.key), Keys(runs))
  }

  function FirstSatisfied(runs: seq<PlanRun>): (i: int)
    ensures -1 <= i < |runs|
    ensures i >= 0 ==> runs[i].satisfied && forall k :: 0 <= k < i ==> !runs[k].satisfied
    ensures i < 0 ==> forall k :: 0 <= k < |runs| ==> !runs[k].satisfied
  {
    if |runs| == 0 then -1
    else
      var i := FirstSatisfied(runs[..|runs| - 1]);
      if i >= 0 then i else if runs[|runs| - 1].satisfied then |runs| - 1 else -1
  }

  /** The speculative form of first-non-empty and adaptive: all plans have run. */
  function SelectFirst(config: Config, runs: seq<PlanRun>): Selection
    requires |runs| > 0
  {
    var i := FirstSatisfied(runs);
    if i >= 0 then Selected(runs[i].result, Some(runs[i].plan.key), Keys(runs))
    else if config.failOnError then Raised(OrElse(HardError(runs), NothingFound))
    else Selected(runs[0].result, None, Keys(runs))
  }

  function SelectOnly(config: Config, outcome: Outcome): Selection {
    match outcome
    case Threw(error) => Raised(error)
    case Ran(run) =>
      if !run.satisfied && run.error.Some? && config.failOnError then Raised(run.error.value)
      else Selected(run.result, Some(run.plan.key), [run.plan.key])
  }

  // ----- running the plans one after the other

  datatype Collected = Collected(runs: seq<PlanRun>, counters: Counters)

  /** A plan that fails softly hands over a record of itself. */
  lemma SoftPlansRun(plan: Plan, service: Service, c: Counters)
    ensures var o := Drive(plan, true, service, PLAN_START, c).outcome; o.Ran? && o.run.plan == plan
  {
    SoftlyRan(plan, service, PLAN_START, c);
  }

  lemma {:induction false} SoftlyRan(plan: Plan, service: Service, s: PlanState, c: Counters)
    requires s.phase.Finished? ==> s.phase.outcome.Ran? && s.phase.outcome.run.plan == plan
    ensures var o := Drive(plan, true, service, s, c).outcome; o.Ran? && o.run.plan == plan
    decreases Left(plan, s)
  {
    if !s.phase.Finished? {
      var checked := if s.phase.Ready? then Check(plan, true, s, BudgetExceeded(c)) else s;
      if !checked.phase.Finished? {
        var answer := service.ask(plan, s.queryIdx, s.attempt);
        AttemptsRunOut(plan, true, checked, answer);
        SoftlyRan(plan, service, Receive(plan, true, checked, answer),
                  Recorded(c, service.took(plan, s.queryIdx, s.attempt), StatusOf(plan, answer)));
      }
    }
  }

  function Collect(plans: seq<Plan>, service: Service, c: Counters): (r: Collected)
    ensures |r.runs| == |plans|
  {
    if |plans| == 0 then Collected([], c)
    else
      var before, plan := Collect(plans[..|plans| - 1], service, c), plans[|plans| - 1];
      SoftPlansRun(plan, service, before.counters);
      var alone := Drive(plan, true, service, PLAN_START, before.counters);
      Collected(before.runs + [alone.outcome.run], alone.counters)
  }

  /** How many plans the sequential first-non-empty loop runs: up to the first that is satisfied. */
  function Stop(runs: seq<PlanRun>): nat {
    var i := FirstSatisfied(runs);
    if i >= 0 then i + 1 else |runs|
  }

  function SelectSequentially(config: Config, runs: seq<PlanRun>): Selection
    requires |runs| > 0
  {
    var i := FirstSatisfied(runs);
    var last := runs[|runs| - 1];
    if i >= 0 then Selected(runs[i].result, Some(runs[i].plan.key), Keys(runs[..i + 1]))
    else if config.failOnError && last.error.Some? then Raised(last.error.value)
    else Selected(last.result, None, Keys(runs))
  }

  method CollectInTurn(plans: seq<Plan>, service: Service, context: ExecutionContext) returns (runs: seq<PlanRun>)
    modifies context`retrieval
    ensures Collected(runs, context.retrieval) == Collect(plans, service, old(context.retrieval))
  {
    runs := [];
    for i := 0 to |plans|
      invariant Collected(runs, context.retrieval) == Collect(plans[..i], service, old(context.retrieval))
    {
      assert plans[..i + 1][..i] == plans[..i];
      SoftPlansRun(plans[i], service, context.retrieval);
      var outcome := RunRetrieverPlan(plans[i], true, service, context);
      runs := runs + [outcome.run];
    }
    assert plans[..|plans|] == plans;
  }

  // ----- running the plans all at once

  /** Every plan has run to its end and left its record. */
  ghost predicate Finishes(states: seq<PlanState>, runs: seq<PlanRun>) {
    |states| == |runs| && forall i :: 0 <= i < |runs| ==> states[i].phase == Finished(Ran(runs[i]))
  }

  ghost predicate GatheredBy(plans: seq<Plan>, service: Service, c: Counters, events: seq<Event>, runs: seq<PlanRun>,
                             after: Counters) {
    var sys := Interleave(plans, true, service, c, events);
    |sys.states| == |plans| && Finishes(sys.states, runs) && after == sys.counters
  }

  /** In every interleaving a plan that is through has left a record of itself. */
  lemma {:induction false} InterleavedRan(plans: seq<Plan>, service: Service, c: Counters, events: seq<Event>)
    ensures var states := Interleave(plans, true, service, c, events).states;
      && |states| == |plans|
      && forall i :: 0 <= i < |plans| ==> RanItself(plans[i], states[i])
  {
    if |events| > 0 {
      var init, e := events[..|events| - 1], events[|events| - 1];
      InterleavedRan(plans, service, c, init);
      var sys := Interleave(plans, true, service, c, init);
      if e.plan < |plans| { StepRan(plans[e.plan], service, sys.states[e.plan], BudgetExceeded(sys.counters)); }
      hide RanItself;
      hide Check;
      hide Receive;
    }
  }

  ghost predicate RanItself(plan: Plan, s: PlanState) {
    s.phase.Finished? ==> s.phase.outcome.Ran? && s.phase.outcome.run.plan == plan
  }

  lemma StepRan(plan: Plan, service: Service, s: PlanState, exceeded: bool)
    ensures RanItself(plan, Check(plan, true, s, exceeded))
    ensures s.phase.Waiting? ==> RanItself(plan, Receive(plan, true, s, service.ask(plan, s.queryIdx, s.attempt)))
  {
  }

  /** One plan goes on to its next request or takes an answer. */
  method GoOn(plans: seq<Plan>, service: Service, states: seq<PlanState>, e: Event, context: ExecutionContext)
    returns (next: seq<PlanState>)
    requires |states| == |plans|
    modifies context`retrieval
    ensures System(next, context.retrieval)
         == Fire(plans, true, service, System(states, old(context.retrieval)), e)
  {
    next := states;
    if e.plan < |plans| {
      var plan, s := plans[e.plan], states[e.plan];
      match s.phase {
        case Finished(_) =>
        case Ready => next := states[e.plan := Check(plan, true, s, BudgetExceeded(context.retrieval))];
        case Waiting =>
          var answer := service.ask(plan, s.queryIdx, s.attempt);
          context.RecordRetrievalAttempt(e.durationMs, StatusOf(plan, answer));
          next := states[e.plan := Receive(plan, true, s, answer)];
      }
    }
  }

  /** `Promise.all` over the plans. The scheduler follows `schedule`; plans that are not through by then go on one
      after the other. */
  method CollectAtOnce(plans: seq<Plan>, service: Service, schedule: seq<Event>, context: ExecutionContext)
    returns (runs: seq<PlanRun>)
    modifies context`retrieval
    ensures exists events :: GatheredBy(plans, service, old(context.retrieval), events, runs, context.retrieval)
  {
    ghost var c := context.retrieval;
    ghost var events: seq<Event> := [];
    var states := seq(|plans|, _ => PLAN_START);
    hide Fire;
    for k := 0 to |schedule|
      invariant |states| == |plans|
      invariant System(states, context.retrieval) == Interleave(plans, true, service, c, events)
    {
      InterleaveOneMore(plans, true, service, c, events, schedule[k]);
      states := GoOn(plans, service, states, schedule[k], context);
      events := events + [schedule[k]];
      InterleavedRan(plans, service, c, events);
    }
    for i := 0 to |plans|
      invariant |states| == |plans|
      invariant System(states, context.retrieval) == Interleave(plans, true, service, c, events)
      invariant forall k :: 0 <= k < i ==> states[k].phase.Finished?
    {
      events, states := Finish(plans, service, c, events, states, i, context);
    }
    InterleavedRan(plans, service, c, events);
    hide Interleave;
    runs := seq(|plans|, i requires 0 <= i < |plans| && states[i].phase.Finished? && states[i].phase.outcome.Ran? =>
      states[i].phase.outcome.run);
    assert GatheredBy(plans, service, c, events, runs, context.retrieval);
  }

  /** Lets one plan run to its end. */
  method Finish(plans: seq<Plan>, service: Service, ghost c: Counters, ghost before: seq<Event>,
                states: seq<PlanState>, i: nat, context: ExecutionContext)
    returns (ghost events: seq<Event>, next: seq<PlanState>)
    requires |states| == |plans| && i < |plans|
    requires System(states, context.retrieval) == Interleave(plans, true, service, c, before)
    modifies context`retrieval
    ensures System(next, context.retrieval) == Interleave(plans, true, service, c, events)
    ensures |next| == |plans| && next[i].phase.Finished?
    ensures forall k :: 0 <= k < |plans| && k != i ==> next[k] == states[k]
  {
    events, next := before, states;
    while !next[i].phase.Finished?
      invariant |next| == |plans|
      invariant System(next, context.retrieval) == Interleave(plans, true, service, c, events)
      invariant forall k :: 0 <= k < |plans| && k != i ==> next[k] == states[k]
      decreases Left(plans[i], next[i]), next[i].phase.Ready?
    {
      var s := next[i];
      var e := Event(i, service.took(plans[i], s.queryIdx, s.attempt));
      AttemptsRunOut(plans[i], true, s, service.ask(plans[i], s.queryIdx, s.attempt));
      InterleaveOneMore(plans, true, service, c, events, e);
      next := GoOn(plans, service, next, e, context);
      events := events + [e];
      hide Interleave;
      hide Receive;
    }
  }

  /** How all the plans are run, in turn or at once. */
  ghost predicate Gathered(speculative: bool, plans: seq<Plan>, service: Service, c: Counters, runs: seq<PlanRun>,
                           after: Counters) {
    if speculative then exists events :: GatheredBy(plans, service, c, events, runs, after)
    else Collected(runs, after) == Collect(plans, service, c)
  }

  method CollectAll(speculative: bool, plans: seq<Plan>, service: Service, schedule: seq<Event>,
                    context: ExecutionContext)
    returns (runs: seq<PlanRun>)
    modifies context`retrieval
    ensures |runs| == |plans|
    ensures Gathered(speculative, plans, service, old(context.retrieval), runs, context.retrieval)
  {
    if speculative {
      runs := CollectAtOnce(plans, service, schedule, context);
    } else {
      runs := CollectInTurn(plans, service, context);
    }
  }

  /** The strategy in force: a single plan is always run as such. */
  function Effective(config: Config, plans: seq<Plan>): Strategy {
    if |plans| == 1 then Single else config.strategy
  }

  function Ordered(config: Config, plans: seq<Plan>, preferred: Option<string>): seq<Plan> {
    if Effective(config, plans).Adaptive? then AdaptiveOrdering(plans, preferred) else plans
  }

  /** The specification of retrieval for one node. */
  ghost predicate NodeRetrieval(config: Config, plans: seq<Plan>, preferred: Option<string>, service: Service,
                                c: Counters, r: Selection, after: Counters)
    requires |plans| > 0
  {
    var ordered := Ordered(config, plans, preferred);
    match Effective(config, plans)
    case Single =>
      var alone := Drive(ordered[0], false, service, PLAN_START, c);
      after == alone.counters && r == SelectOnly(config, alone.outcome)
    case Merge =>
      exists runs :: Gathered(config.speculative, ordered, service, c, runs, after) && r == SelectMerged(config, runs)
    case BestScore =>
      exists runs, best ::
        && Gathered(config.speculative, ordered, service, c, runs, after) && |runs| == |ordered|
        && IsBest(runs, best) && r == SelectBest(config, runs, best)
    case _ =>
      if config.speculative then
        exists runs ::
          Gathered(true, ordered, service, c, runs, after) && |runs| > 0 && r == SelectFirst(config, runs)
      else
        var all := Collect(ordered, service, c).runs;
        && after == Collect(ordered[..Stop(all)], service, c).counters
        && r == SelectSequentially(config, all)
  }

  /** Retrieval for one node, under any schedule of the speculative form. */
  method RunNodeRetrieval(config: Config, plans: seq<Plan>, preferred: Option<string>, service: Service,
                          schedule: seq<Event>, context: ExecutionContext)
    returns (r: Selection)
    modifies context`retrieval
    ensures plans == [] ==> r == Raised(NothingFound) && context.retrieval == old(context.retrieval)
    ensures plans != [] ==>
      NodeRetrieval(config, plans, preferred, service, old(context.retrieval), r, context.retrieval)
  {
    if plans == [] {
      return Raised(NothingFound);
    }
    var strategy := Effective(config, plans);
    var orderedPlans := Ordered(config, plans, preferred);
    match strategy {
      case Single =>
        var outcome := RunRetrieverPlan(orderedPlans[0], false, service, context);
        r := SelectOnly(config, outcome);
      case Merge =>
        var all := CollectAll(config.speculative, orderedPlans, service, schedule, context);
        r := SelectMerged(config, all);
      case BestScore =>
        var all := CollectAll(config.speculative, orderedPlans, service, schedule, context);
        var best := SelectBestScoreResult(all);
        r := SelectBest(config, all, best);
      case _ =>
        if config.speculative {
          var all := CollectAll(true, orderedPlans, service, schedule, context);
          r := SelectFirst(config, all);
        } else {
          r := RunUntilSatisfied(config, orderedPlans, service, context);
        }
    }
  }

  lemma {:induction false} CollectPrefix(plans: seq<Plan>, service: Service, c: Counters, n: nat)
    requires n <= |plans|
    ensures Collect(plans[..n], service, c).runs == Collect(plans, service, c).runs[..n]
  {
    if n == |plans| {
      assert plans[..n] == plans;
    } else {
      var init := plans[..|plans| - 1];
      assert init[..n] == plans[..n];
      CollectPrefix(init, service, c, n);
    }
  }

  method RunUntilSatisfied(config: Config, plans: seq<Plan>, service: Service, context: ExecutionContext)
    returns (r: Selection)
    requires |plans| > 0
    modifies context`retrieval
    ensures var all := Collect(plans, service, old(context.retrieval)).runs;
      && context.retrieval == Collect(plans[..Stop(all)], service, old(context.retrieval)).counters
      && r == SelectSequentially(config, all)
  {
    hide Drive;
    ghost var c := context.retrieval;
    ghost var all := Collect(plans, service, c).runs;
    var triedKeys: seq<string> := [];
    var lastResult: Option<QueryResult> := None;
    var lastError: Option<RetrievalError> := None;
    for i := 0 to |plans|
      invariant context.retrieval == Collect(plans[..i], service, c).counters
      invariant forall k :: 0 <= k < i ==> !all[k].satisfied
      invariant triedKeys == Keys(all[..i])
      invariant i > 0 ==> lastResult == Some(all[i - 1].result) && lastError == all[i - 1].error
    {
      assert plans[..i + 1][..i] == plans[..i];
      CollectPrefix(plans, service, c, i + 1);
      SoftPlansRun(plans[i], service, context.retrieval);
      var outcome := RunRetrieverPlan(plans[i], true, service, context);
      var attemptResult := outcome.run;
      assert attemptResult == all[i];
      triedKeys := triedKeys + [plans[i].key];
      assert Keys(all[..i + 1]) == Keys(all[..i]) + [all[i].plan.key];
      lastResult, lastError := Some(attemptResult.result), attemptResult.error;
      if attemptResult.satisfied {
        return Selected(attemptResult.result, Some(plans[i].key), triedKeys);
      }
    }
    assert all[..|plans|] == all && plans[..|plans|] == plans;
    if config.failOnError && lastError.Some? {
      return Raised(lastError.value);
    }
    return Selected(lastResult.value, None, triedKeys);
  }

  // ----- the budget

  lemma {:induction false} CollectKeepsBudget(plans: seq<Plan>, service: Service, c: Counters)
    requires Balanced(c)
    ensures var r := Collect(plans, service, c).counters;
      && Balanced(r) && SameBudget(c, r)
      && (c.totalRequests <= c.maxRequests ==> r.totalRequests <= c.maxRequests)
  {
    if |plans| > 0 {
      var init, plan := plans[..|plans| - 1], plans[|plans| - 1];
      CollectKeepsBudget(init, service, c);
      AloneKeepsBudget(plan, true, service, PLAN_START, Collect(init, service, c).counters);
    }
  }

  /** The requests that a node may make beyond the limit. */
  function Overrun(config: Config, plans: seq<Plan>): nat
    requires |plans| > 0
  {
    if config.speculative then |plans| - 1 else 0
  }

  function Larger(a: nat, b: nat): nat {
    if a < b then b else a
  }

  lemma {:induction false} CollectBeyondLimit(plans: seq<Plan>, service: Service, c: Counters)
    requires c.totalRequests >= c.maxRequests
    ensures Collect(plans, service, c).counters == c
  {
    if |plans| > 0 {
      CollectBeyondLimit(plans[..|plans| - 1], service, c);
      SoftPlansRun(plans[|plans| - 1], service, c);
    }
  }

  lemma GatheredKeepsBudget(speculative: bool, plans: seq<Plan>, service: Service, c: Counters, runs: seq<PlanRun>,
                            after: Counters)
    requires |plans| > 0 && Balanced(c) && Gathered(speculative, plans, service, c, runs, after)
    ensures Balanced(after) && SameBudget(c, after)
    ensures after.totalRequests
         <= Larger(c.totalRequests, c.maxRequests + if speculative then |plans| - 1 else 0)
  {
    if speculative {
      var events :| GatheredBy(plans, service, c, events, runs, after);
      if c.totalRequests < c.maxRequests {
        OverrunIsBounded(plans, true, service, c, events);
      } else {
        RetrievalBudget.NothingAsked(plans, true, service, c, events);
      }
    } else {
      CollectKeepsBudget(plans, service, c);
      if c.totalRequests >= c.maxRequests { CollectBeyondLimit(plans, service, c); }
    }
  }

  lemma OrderedSize(config: Config, plans: seq<Plan>, preferred: Option<string>)
    requires |plans| > 0
    ensures 0 < |Ordered(config, plans, preferred)| <= |plans|
  {
    if preferred.Some? { KeyCountSplits(plans, preferred.value); }
  }

  /** From any counters: plans that run one after the other never go beyond the request limit, plans that run at once
      do so by at most one less than their number, whatever the strategy; counters beyond that stay where they are, and
      every request is counted under one outcome. */
  lemma RetrievalKeepsBudget(config: Config, plans: seq<Plan>, preferred: Option<string>, service: Service,
                             c: Counters, r: Selection, after: Counters)
    requires |plans| > 0 && Balanced(c) && NodeRetrieval(config, plans, preferred, service, c, r, after)
    ensures Balanced(after) && SameBudget(c, after)
    ensures after.totalRequests <= Larger(c.totalRequests, c.maxRequests + Overrun(config, plans))
  {
    OrderedSize(config, plans, preferred);
    hide Collect;
    hide Drive;
    hide Ordered;
    hide Gathered;
    hide IsBest;
    hide SelectMerged;
    hide SelectBest;
    hide SelectFirst;
    var ordered := Ordered(config, plans, preferred);
    match Effective(config, plans) {
      case Single =>
        AloneKeepsBudget(ordered[0], false, service, PLAN_START, c);
        if c.totalRequests >= c.maxRequests { AloneBeyondLimit(ordered[0], false, service, c); }
      case Merge =>
        var runs :| Gathered(config.speculative, ordered, service, c, runs, after) && r == SelectMerged(config, runs);
        GatheredKeepsBudget(config.speculative, ordered, service, c, runs, after);
      case BestScore =>
        var runs, best :|
          && Gathered(config.speculative, ordered, service, c, runs, after) && |runs| == |ordered|
          && IsBest(runs, best) && r == SelectBest(config, runs, best);
        GatheredKeepsBudget(config.speculative, ordered, service, c, runs, after);
      case _ =>
        if config.speculative {
          var runs :|
            Gathered(true, ordered, service, c, runs, after) && |runs| > 0 && r == SelectFirst(config, runs);
          GatheredKeepsBudget(true, ordered, service, c, runs, after);
        } else {
          var prefix := ordered[..Stop(Collect(ordered, service, c).runs)];
          CollectKeepsBudget(prefix, service, c);
          if c.totalRequests >= c.maxRequests { CollectBeyondLimit(prefix, service, c); }
        }
    }
  }

  lemma AloneBeyondLimit(plan: Plan, softFail: bool, service: Service, c: Counters)
    requires c.totalRequests >= c.maxRequests
    ensures Drive(plan, softFail, service, PLAN_START, c).counters == c
  {
  }

  // ----- the budget of a whole run

  /** Retrieval for one node of a run. */
  datatype Call = Call(config: Config, plans: seq<Plan>, preferred: Option<string>)

  /** The nodes of a run retrieve one after the other, from counters to counters. */
  ghost predicate RetrievalsOfRun(calls: seq<Call>, service: Service, counters: seq<Counters>) {
    && |counters| == |calls| + 1
    && forall i :: 0 <= i < |calls| ==>
         |calls[i].plans| > 0 && Retrieved(calls[i], service, counters[i], counters[i + 1])
  }

  ghost predicate Retrieved(call: Call, service: Service, c: Counters, after: Counters)
    requires |call.plans| > 0
  {
    exists r :: NodeRetrieval(call.config, call.plans, call.preferred, service, c, r, after)
  }

  /** Over a whole run of nodes with at most `k` plans each, the requests exceed the limit by at most `k - 1`; the
      overruns of several nodes do not add up. */
  lemma {:induction false} RunKeepsBudget(calls: seq<Call>, service: Service, counters: seq<Counters>, k: nat, n: nat)
    requires RetrievalsOfRun(calls, service, counters) && n <= |calls| && k > 0
    requires forall i :: 0 <= i < |calls| ==> |calls[i].plans| <= k
    requires Balanced(counters[0]) && counters[0].totalRequests <= counters[0].maxRequests + k - 1
    ensures Balanced(counters[n]) && SameBudget(counters[0], counters[n])
    ensures counters[n].totalRequests <= counters[0].maxRequests + k - 1
  {
    if n > 0 {
      RunKeepsBudget(calls, service, counters, k, n - 1);
      var call := calls[n - 1];
      assert Retrieved(call, service, counters[n - 1], counters[n - 1 + 1]);
      var r :| NodeRetrieval(call.config, call.plans, call.preferred, service, counters[n - 1], r, counters[n]);
      hide NodeRetrieval;
      RetrievalKeepsBudget(call.config, call.plans, call.preferred, service, counters[n - 1], r, counters[n]);
    }
  }

  // ----- what determines the result

  /** Plans that run one after the other have one outcome: the selection and the counters are functions of the
      configuration, the plans, the service and the counters at the start. */
  lemma RetrievalInTurnIsDetermined(config: Config, plans: seq<Plan>, preferred: Option<string>, service: Service,
                                    c: Counters, r1: Selection, after1: Counters, r2: Selection, after2: Counters)
    requires |plans| > 0 && (!config.speculative || |plans| == 1)
    requires NodeRetrieval(config, plans, preferred, service, c, r1, after1)
    requires NodeRetrieval(config, plans, preferred, service, c, r2, after2)
    ensures r1 == r2 && after1 == after2
  {
    hide Collect;
    hide Drive;
    hide SelectBest;
    hide SelectMerged;
    hide AdaptiveOrdering;
    if Effective(config, plans) == BestScore {
      var runs := Collect(Ordered(config, plans, preferred), service, c).runs;
      var best1 :| IsBest(runs, best1) && r1 == SelectBest(config, runs, best1);
      var best2 :| IsBest(runs, best2) && r2 == SelectBest(config, runs, best2);
      BestIsUnique(runs, best1, best2);
    }
  }

  /** So a whole run whose nodes retrieve in turn leaves the same counters behind every node each time. */
  lemma {:induction false} RunInTurnIsDetermined(calls: seq<Call>, service: Service, first: seq<Counters>,
                                                 second: seq<Counters>, n: nat)
    requires RetrievalsOfRun(calls, service, first) && RetrievalsOfRun(calls, service, second)
    requires forall i :: 0 <= i < |calls| ==> !calls[i].config.speculative
    requires first[0] == second[0] && n <= |calls|
    ensures first[n] == second[n]
  {
    if n > 0 {
      RunInTurnIsDetermined(calls, service, first, second, n - 1);
      var call := calls[n - 1];
      assert Retrieved(call, service, first[n - 1], first[n - 1 + 1]);
      assert Retrieved(call, service, second[n - 1], second[n - 1 + 1]);
      var r1 :| NodeRetrieval(call.config, call.plans, call.preferred, service, first[n - 1], r1, first[n]);
      var r2 :| NodeRetrieval(call.config, call.plans, call.preferred, service, second[n - 1], r2, second[n]);
      hide NodeRetrieval;
      RetrievalInTurnIsDetermined(call.config, call.plans, call.preferred, service, first[n - 1],
                                  r1, first[n], r2, second[n]);
    }
  }
}
