/** Running the plans at once against running them in turn: when is the outcome the same? */
module Speculation {
  import opened Values
  import opened ExecutionState
  import opened Retrieval
  import opened RetrievalBudget
  import opened Orchestration

  // ----- what the plans answer when no budget stops them

  lemma {:induction false} FreelyRan(plan: Plan, service: Service, s: PlanState)
    requires s.phase.Finished? ==> Proper(plan, s.phase.outcome)
    requires s.lastError.Some? ==> s.lastError.value.RequestFailed?
    ensures Proper(plan, Unlimited(plan, true, service, s))
    decreases Left(plan, s)
  {
    if !s.phase.Finished? {
      var answer := service.ask(plan, s.queryIdx, s.attempt);
      AttemptsRunOut(plan, true, s.(phase := Waiting), answer);
      FreelyRan(plan, service, Receive(plan, true, s.(phase := Waiting), answer));
    }
  }

  /** A record of the plan itself: satisfied, or with an error that tells why not. */
  ghost predicate Proper(plan: Plan, outcome: Outcome) {
    && outcome.Ran? && outcome.run.plan == plan
    && (outcome.run.satisfied <==> outcome.run.error.None?)
    && (outcome.run.error.Some? ==> outcome.run.error.value.RequestFailed? || outcome.run.error.value.TooFewMatches?)
  }

  /** What the plan answers without a budget. */
  function FreeRun(plan: Plan, service: Service): (r: PlanRun)
    ensures Proper(plan, Ran(r))
  {
    FreelyRan(plan, service, PLAN_START);
    Unlimited(plan, true, service, PLAN_START).run
  }

  function FreeRuns(plans: seq<Plan>, service: Service): seq<PlanRun> {
    seq(|plans|, i requires 0 <= i < |plans| => FreeRun(plans[i], service))
  }

  /** Every run is what the plan answers without a budget, or was stopped by a budget check. */
  ghost predicate FreeOrDenied(runs: seq<PlanRun>, plans: seq<Plan>, service: Service) {
    && |runs| == |plans|
    && forall i :: 0 <= i < |plans| ==>
         runs[i] == FreeRun(plans[i], service) || (Denied(Ran(runs[i])) && !runs[i].satisfied)
  }

  // ----- plans at once

  ghost predicate OnTrack(plan: Plan, service: Service, s: PlanState) {
    || (s.phase.Finished? && Denied(s.phase.outcome) && (s.phase.outcome.Ran? ==> !s.phase.outcome.run.satisfied))
    || Unlimited(plan, true, service, s) == Unlimited(plan, true, service, PLAN_START)
  }

  lemma StepStaysOnTrack(plan: Plan, service: Service, s: PlanState, exceeded: bool)
    requires OnTrack(plan, service, s)
    ensures s.phase.Ready? ==> OnTrack(plan, service, Check(plan, true, s, exceeded))
    ensures s.phase.Waiting? ==>
      OnTrack(plan, service, Receive(plan, true, s, service.ask(plan, s.queryIdx, s.attempt)))
  {
    if s.phase.Waiting? {
      assert s == s.(phase := Waiting);
      AttemptsRunOut(plan, true, s, service.ask(plan, s.queryIdx, s.attempt));
    }
  }

  lemma {:induction false} InterleavedStaysOnTrack(plans: seq<Plan>, service: Service, c: Counters, events: seq<Event>)
    ensures var states := Interleave(plans, true, service, c, events).states;
      && |states| == |plans|
      && forall i :: 0 <= i < |plans| ==> OnTrack(plans[i], service, states[i])
  {
    if |events| > 0 {
      var init, e := events[..|events| - 1], events[|events| - 1];
      InterleavedStaysOnTrack(plans, service, c, init);
      var sys := Interleave(plans, true, service, c, init);
      var exceeded := BudgetExceeded(sys.counters);
      if e.plan < |plans| { StepStaysOnTrack(plans[e.plan], service, sys.states[e.plan], exceeded); }
      hide OnTrack;
    }
  }

  /** Plans that run at once answer freely or are stopped by a check, in every interleaving. */
  lemma GatheredAreFreeOrDenied(plans: seq<Plan>, service: Service, c: Counters, events: seq<Event>,
                                runs: seq<PlanRun>, after: Counters)
    requires GatheredBy(plans, service, c, events, runs, after)
    ensures FreeOrDenied(runs, plans, service)
  {
    InterleavedStaysOnTrack(plans, service, c, events);
    var states := Interleave(plans, true, service, c, events).states;
    hide Interleave;
    forall i | 0 <= i < |plans|
      ensures runs[i] == FreeRun(plans[i], service) || (Denied(Ran(runs[i])) && !runs[i].satisfied)
    {
      assert OnTrack(plans[i], service, states[i]);
      FreelyRan(plans[i], service, PLAN_START);
    }
  }

  // ----- plans in turn

  lemma {:induction false} DeniedIsUnsatisfied(plan: Plan, service: Service, s: PlanState, c: Counters)
    requires s.phase.Finished? ==> s.phase.outcome.Ran? && (Denied(s.phase.outcome) ==> !s.phase.outcome.run.satisfied)
    ensures var o := Drive(plan, true, service, s, c).outcome; o.Ran? && (Denied(o) ==> !o.run.satisfied)
    decreases Left(plan, s)
  {
    if !s.phase.Finished? {
      var checked := if s.phase.Ready? then Check(plan, true, s, BudgetExceeded(c)) else s;
      if !checked.phase.Finished? {
        var answer := service.ask(plan, s.queryIdx, s.attempt);
        AttemptsRunOut(plan, true, checked, answer);
        DeniedIsUnsatisfied(plan, service, Receive(plan, true, checked, answer),
                            Recorded(c, service.took(plan, s.queryIdx, s.attempt), StatusOf(plan, answer)));
      }
    }
  }

  lemma {:induction false} CollectedAreFreeOrDenied(plans: seq<Plan>, service: Service, c: Counters)
    ensures FreeOrDenied(Collect(plans, service, c).runs, plans, service)
  {
    if |plans| > 0 {
      var init, plan := plans[..|plans| - 1], plans[|plans| - 1];
      var before, all := Collect(init, service, c), Collect(plans, service, c);
      CollectedAreFreeOrDenied(init, service, c);
      SoftPlansRun(plan, service, before.counters);
      DeniedIsUnsatisfied(plan, service, PLAN_START, before.counters);
      if !Denied(Ran(all.runs[|init|])) { AloneIsUnlimited(plan, true, service, PLAN_START, before.counters); }
      hide Drive;
      hide Unlimited;
    }
  }

  // ----- the same selection

  /** The first plan that is satisfied without a budget is the first satisfied one exactly if no check stopped it;
      and when there is none, none is satisfied. */
  lemma FirstSatisfiedIsFree(runs: seq<PlanRun>, plans: seq<Plan>, service: Service)
    requires FreeOrDenied(runs, plans, service)
    ensures var f := FirstSatisfied(FreeRuns(plans, service));
      if f >= 0 then FirstSatisfied(runs) == f <==> !Denied(Ran(runs[f])) else FirstSatisfied(runs) < 0
  {
    hide FreeRun;
    hide FirstSatisfied;
    var free := FreeRuns(plans, service);
    assert forall i :: 0 <= i < |plans| && runs[i].satisfied ==> free[i].satisfied;
  }

  /** Speculation does not change the outcome. First-non-empty and adaptive: let `f` be the first retriever that is
      satisfied when no budget stops it. Either form selects `f` exactly if no check stopped `f` in it, whatever became
      of the others, and then both hand over the same result; without such an `f` no form selects a retriever. */
  lemma SpeculationRefinesSequence(config: Config, plans: seq<Plan>, service: Service, c: Counters, events: seq<Event>,
                                   runs: seq<PlanRun>, after: Counters, sequentialStart: Counters)
    requires |plans| > 0 && GatheredBy(plans, service, c, events, runs, after)
    ensures var all, f := Collect(plans, service, sequentialStart).runs, FirstSatisfied(FreeRuns(plans, service));
      var speculative, sequential := SelectFirst(config, runs), SelectSequentially(config, all);
      if f >= 0 then
        && (FirstSatisfied(runs) == f <==> !Denied(Ran(runs[f])))
        && (FirstSatisfied(all) == f <==> !Denied(Ran(all[f])))
        && (!Denied(Ran(runs[f])) ==> SelectsRun(speculative, FreeRun(plans[f], service)))
        && (!Denied(Ran(all[f])) ==> SelectsRun(sequential, FreeRun(plans[f], service)))
      else FirstSatisfied(runs) < 0 && FirstSatisfied(all) < 0
  {
    GatheredAreFreeOrDenied(plans, service, c, events, runs, after);
    CollectedAreFreeOrDenied(plans, service, sequentialStart);
    hide *;
    BothSelect(config, runs, plans, service);
    BothSelect(config, Collect(plans, service, sequentialStart).runs, plans, service);
  }

  lemma BothSelect(config: Config, runs: seq<PlanRun>, plans: seq<Plan>, service: Service)
    requires |plans| > 0 && FreeOrDenied(runs, plans, service)
    ensures var f := FirstSatisfied(FreeRuns(plans, service));
      if f >= 0 then
        && (FirstSatisfied(runs) == f <==> !Denied(Ran(runs[f])))
        && (!Denied(Ran(runs[f])) ==>
             && SelectsRun(SelectFirst(config, runs), FreeRun(plans[f], service))
             && SelectsRun(SelectSequentially(config, runs), FreeRun(plans[f], service)))
      else FirstSatisfied(runs) < 0
  {
    FirstSatisfiedIsFree(runs, plans, service);
    var f := FirstSatisfied(FreeRuns(plans, service));
    hide FreeRun;
    hide FirstSatisfied;
    hide Keys;
    if f >= 0 && !Denied(Ran(runs[f])) {
      assert runs[f] == FreeRun(plans[f], service);
    }
  }

  ghost predicate SelectsRun(selection: Selection, run: PlanRun) {
    selection.Selected? && selection.result == run.result && selection.selectedKey == Some(run.plan.key)
  }

  // ----- budgets that stop nobody

  ghost predicate NoneDenied(runs: seq<PlanRun>) {
    forall i :: 0 <= i < |runs| ==> !Denied(Ran(runs[i]))
  }

  lemma UndeniedAreFree(runs: seq<PlanRun>, plans: seq<Plan>, service: Service)
    requires FreeOrDenied(runs, plans, service) && NoneDenied(runs)
    ensures runs == FreeRuns(plans, service)
  {
  }

  lemma {:induction false} AmpleInTurn(plans: seq<Plan>, service: Service, c: Counters, others: nat, slowest: nat)
    requires Fits(c, MostRequests(plans) + others, slowest)
    requires forall p, q, a :: service.took(p, q, a) <= slowest
    ensures var all := Collect(plans, service, c); NoneDenied(all.runs) && Fits(all.counters, others, slowest)
  {
    if |plans| > 0 {
      var init, plan := plans[..|plans| - 1], plans[|plans| - 1];
      MostRequestsSplits(plans);
      AmpleInTurn(init, service, c, 2 + plan.maxRetries + others, slowest);
      var before := Collect(init, service, c).counters;
      FreeRequestsBound(plan, true, service, PLAN_START);
      FitsFewer(before, 2 + plan.maxRetries + others, FreeRequests(plan, true, service, PLAN_START) + others, slowest);
      FitsAlone(plan, true, service, PLAN_START, before, others, slowest);
      SoftPlansRun(plan, service, before);
      hide Drive;
      hide Fits;
      hide FreeRequests;
    }
  }

  lemma MostRequestsSplits(plans: seq<Plan>)
    requires |plans| > 0
    ensures MostRequests(plans)
         == MostRequests(plans[..|plans| - 1]) + 2 + plans[|plans| - 1].maxRetries
  {
    var ms := seq(|plans|, i requires 0 <= i < |plans| => 2 + plans[i].maxRetries);
    var init := plans[..|plans| - 1];
    assert ms[..|ms| - 1] == seq(|init|, i requires 0 <= i < |init| => 2 + init[i].maxRetries);
  }

  /** With a budget that the most requests the plans can make fit into, speculation changes nothing, in any
      interleaving: the runs are those of the sequential form, so merge and best-score return the same selection, and
      first-non-empty and adaptive do if some plan is satisfied. */
  lemma AmpleBudgetRefines(config: Config, plans: seq<Plan>, service: Service, c: Counters, events: seq<Event>,
                           runs: seq<PlanRun>, after: Counters, sequentialStart: Counters, slowest: nat)
    requires |plans| > 0 && GatheredBy(plans, service, c, events, runs, after)
    requires Fits(c, MostRequests(plans), slowest) && Fits(sequentialStart, MostRequests(plans), slowest)
    requires forall p, q, a :: service.took(p, q, a) <= slowest
    requires forall i :: 0 <= i < |events| ==> events[i].durationMs <= slowest
    ensures runs == Collect(plans, service, sequentialStart).runs
    ensures FirstSatisfied(runs) >= 0 ==>
      var run := runs[FirstSatisfied(runs)];
      && SelectsRun(SelectFirst(config, runs), run)
      && SelectsRun(SelectSequentially(config, Collect(plans, service, sequentialStart).runs), run)
  {
    AmpleBudgetStopsNobody(plans, true, service, c, events, slowest);
    AmpleInTurn(plans, service, sequentialStart, 0, slowest);
    GatheredAreFreeOrDenied(plans, service, c, events, runs, after);
    CollectedAreFreeOrDenied(plans, service, sequentialStart);
    hide Interleave;
    hide Collect;
    assert NoneDenied(runs);
    UndeniedAreFree(runs, plans, service);
    UndeniedAreFree(Collect(plans, service, sequentialStart).runs, plans, service);
  }

  // ----- no plan is satisfied

  /** The first plan that insists on its error. */
  ghost predicate FirstInsisting(plans: seq<Plan>, h: nat) {
    h < |plans| && plans[h].failOnError && forall k :: 0 <= k < h ==> !plans[k].failOnError
  }

  lemma {:induction false} HardErrorOfFirst(runs: seq<PlanRun>, plans: seq<Plan>)
    requires |runs| == |plans|
    requires forall i :: 0 <= i < |plans| ==> runs[i].plan == plans[i] && runs[i].error.Some?
    ensures HardError(runs).None? <==> forall i :: 0 <= i < |plans| ==> !plans[i].failOnError
    ensures forall h: nat :: FirstInsisting(plans, h) ==> HardError(runs) == runs[h].error
  {
    if |plans| > 0 {
      var init := plans[..|plans| - 1];
      HardErrorOfFirst(runs[..|runs| - 1], init);
      forall h: nat | FirstInsisting(plans, h) ensures HardError(runs) == runs[h].error {
        if h < |init| { assert FirstInsisting(init, h); }
      }
    }
  }

  lemma SomeInsists(plans: seq<Plan>, i: nat) returns (h: nat)
    requires i < |plans| && plans[i].failOnError
    ensures FirstInsisting(plans, h)
    decreases i
  {
    if k :| 0 <= k < i && plans[k].failOnError { h := SomeInsists(plans, k); } else { h := i; }
  }

  /** Without a satisfied plan and without a plan that a check stopped, the two forms agree exactly if the first and
      the last result are the same or, for a configuration that insists on errors, if some plan does so and the first
      such plan has the error of the last plan. */
  lemma UnsatisfiedFormsAgree(config: Config, plans: seq<Plan>, service: Service, runs: seq<PlanRun>)
    requires |plans| > 0 && runs == FreeRuns(plans, service) && FirstSatisfied(runs) < 0
    ensures SelectFirst(config, runs) == SelectSequentially(config, runs) <==>
      if config.failOnError then
        exists h: nat :: FirstInsisting(plans, h) && runs[h].error == runs[|runs| - 1].error
      else runs[0].result == runs[|runs| - 1].result
  {
    forall i | 0 <= i < |plans| ensures runs[i].plan == plans[i] && runs[i].error.Some? {
      assert Proper(plans[i], Ran(FreeRun(plans[i], service)));
    }
    HardErrorOfFirst(runs, plans);
    var last := runs[|runs| - 1];
    assert last == FreeRun(plans[|plans| - 1], service) && last.error.value != NothingFound;
    hide FreeRun;
    hide FirstSatisfied;
    if config.failOnError && HardError(runs).Some? {
      var i :| 0 <= i < |plans| && plans[i].failOnError;
      var h := SomeInsists(plans, i);
    }
  }

  /** They do differ: two plans, both without a match, and a configuration that accepts that. */
  lemma UnsatisfiedFormsDiffer()
    returns (config: Config, plans: seq<Plan>, service: Service, c: Counters, events: seq<Event>, runs: seq<PlanRun>)
    ensures |plans| > 0 && |runs| == |plans| && !config.failOnError
    ensures exists after :: GatheredBy(plans, service, c, events, runs, after)
    ensures runs == Collect(plans, service, c).runs
    ensures SelectFirst(config, runs) != SelectSequentially(config, Collect(plans, service, c).runs)
  {
    var p, q := Plan("a", "first", None, 1, 0, 1, None, false), Plan("b", "second", None, 1, 0, 1, None, false);
    config := Config(FirstNonEmpty, true, 1, 1, false);
    plans := [p, q];
    service := Service((plan: Plan, query, attempt) => Answered(QueryResult(plan.query, 1, [])),
                       (plan, query, attempt) => 0);
    c := Counters(0, 0, 0, 0, 0, 10, 10, 10);
    runs := [EmptyHanded(p), EmptyHanded(q)];
    assert Interleave(plans, true, service, c, []) == Launch(plans, c);
    var before := OneRequest(plans, true, service, c, [], 0);
    events := OneRequest(plans, true, service, c, before, 1);
    var after := Interleave(plans, true, service, c, events).counters;
    assert GatheredBy(plans, service, c, events, runs, after) by { hide Interleave; }
    assert NoneDenied(runs);
    CollectedAreFreeOrDenied(plans, service, c);
    GatheredAreFreeOrDenied(plans, service, c, events, runs, after);
    AmpleInTurn(plans, service, c, 0, 0) by {
      MostRequestsSplits(plans);
      MostRequestsSplits([p]);
      assert plans[..1] == [p] && [p][..0] == [];
    }
    UndeniedAreFree(runs, plans, service);
    UndeniedAreFree(Collect(plans, service, c).runs, plans, service);
    hide Interleave;
    hide Collect;
    assert runs[0].result.query != runs[1].result.query;
  }

  function EmptyHanded(plan: Plan): PlanRun {
    PlanRun(plan, QueryResult(plan.query, 1, []), false, Some(TooFewMatches(0, plan.minMatches, plan.key)))
  }
}
