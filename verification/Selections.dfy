/** What a node's retrieval hands over, said of the runs of its plans. */
module Selections {
  import opened Values
  import opened ExecutionState
  import opened Matches
  import opened Sequences
  import opened Retrieval
  import opened RetrievalResults
  import opened Orchestration
  import Speculation

  // ----- the preferred plan goes first

  ghost predicate FirstWithKey(plans: seq<Plan>, key: string, f: nat) {
    f < |plans| && plans[f].key == key && forall k :: 0 <= k < f ==> plans[k].key != key
  }

  function OtherKey(key: string): Plan -> bool {
    (p: Plan) => p.key != key
  }

  /** The first plan with the preferred key, then the plans with other keys in their order; without such a plan all
      plans as they are. */
  ghost predicate PreferredFirst(plans: seq<Plan>, key: string, ordered: seq<Plan>) {
    && (forall f: nat :: FirstWithKey(plans, key, f) ==>
         |ordered| > 0 && ordered[0] == plans[f] && Keeps(ordered[1..], plans, OtherKey(key)))
    && ((forall k :: 0 <= k < |plans| ==> plans[k].key != key) ==> ordered == plans)
  }

  lemma {:induction false} WithoutKeyKeeps(plans: seq<Plan>, key: string)
    ensures Keeps(WithoutKey(plans, key), plans, OtherKey(key))
  {
    if |plans| == 0 {
      KeepsNothing(OtherKey(key));
    } else {
      var init, plan := plans[..|plans| - 1], plans[|plans| - 1];
      WithoutKeyKeeps(init, key);
      KeepsOneMore(WithoutKey(init, key), init, OtherKey(key), plan);
      assert init + [plan] == plans;
      hide Keeps;
    }
  }

  lemma {:induction false} FindKeyIsFirst(plans: seq<Plan>, key: string)
    ensures FindKey(plans, key) >= 0 ==> FirstWithKey(plans, key, FindKey(plans, key))
  {
    if |plans| > 0 {
      FindKeyIsFirst(plans[..|plans| - 1], key);
    }
  }

  lemma AdaptiveOrderingMeans(plans: seq<Plan>, key: string)
    ensures PreferredFirst(plans, key, AdaptiveOrdering(plans, Some(key)))
  {
    FindKeyIsFirst(plans, key);
    WithoutKeyKeeps(plans, key);
    var at, rest := FindKey(plans, key), WithoutKey(plans, key);
    assert AdaptiveOrdering(plans, Some(key)) == if at < 0 then plans else [plans[at]] + rest;
    hide Keeps;
    hide OtherKey;
    hide WithoutKey;
    hide FindKey;
    hide AdaptiveOrdering;
    assert at >= 0 ==> ([plans[at]] + rest)[1..] == rest;
    forall f: nat | FirstWithKey(plans, key, f) ensures at >= 0 && f == at { }
  }

  ghost predicate OrderedFor(config: Config, plans: seq<Plan>, preferred: Option<string>, ordered: seq<Plan>) {
    if config.strategy.Adaptive? && |plans| > 1 && preferred.Some? then PreferredFirst(plans, preferred.value, ordered)
    else ordered == plans
  }

  // ----- errors

  ghost predicate Insists(run: PlanRun) {
    run.plan.failOnError && run.error.Some?
  }

  /** The error of the first plan that insists on one, or else the fallback. */
  ghost predicate Raises(runs: seq<PlanRun>, fallback: RetrievalError, error: RetrievalError) {
    && (forall i :: 0 <= i < |runs| && Insists(runs[i]) && (forall k :: 0 <= k < i ==> !Insists(runs[k])) ==>
         runs[i].error == Some(error))
    && ((forall i :: 0 <= i < |runs| ==> !Insists(runs[i])) ==> error == fallback)
  }

  lemma {:induction false} HardErrorMeans(runs: seq<PlanRun>, fallback: RetrievalError)
    ensures HardError(runs).Some? <==> exists i :: 0 <= i < |runs| && Insists(runs[i])
    ensures Raises(runs, fallback, OrElse(HardError(runs), fallback))
  {
    if |runs| > 0 {
      var init, last := runs[..|runs| - 1], runs[|runs| - 1];
      HardErrorMeans(init, fallback);
      assert forall i :: 0 <= i < |init| ==> init[i] == runs[i];
      if Insists(last) { assert Insists(runs[|runs| - 1]); }
      if i :| 0 <= i < |init| && Insists(init[i]) { assert Insists(runs[i]); }
    }
  }

  // ----- merge

  ghost predicate FromRun(runs: seq<PlanRun>, i: int, m: Match) {
    0 <= i < |runs| && m in runs[i].result.matches
  }

  ghost predicate InSomeRun(runs: seq<PlanRun>, m: Match) {
    exists i :: FromRun(runs, i, m)
  }

  ghost function AllChunks(runs: seq<PlanRun>): set<string> {
    set i, k | 0 <= i < |runs| && 0 <= k < |runs[i].result.matches| :: runs[i].result.matches[k].chunkId
  }

  ghost predicate ShowsChunk(ms: seq<Match>, chunkId: string) {
    exists j :: 0 <= j < |ms| && ms[j].chunkId == chunkId
  }

  /** Every chunk once with its best match of all runs, in descending order, and nothing left out that scores more than
      what was kept. */
  ghost predicate BestOfAllRuns(runs: seq<PlanRun>, ms: seq<Match>) {
    && (forall a, b :: 0 <= a < b < |ms| ==> ms[a].chunkId != ms[b].chunkId && ms[a].score >= ms[b].score)
    && (forall a :: 0 <= a < |ms| ==> InSomeRun(runs, ms[a]))
    && (forall a, i, m :: 0 <= a < |ms| && FromRun(runs, i, m) && m.chunkId == ms[a].chunkId ==>
         m.score <= ms[a].score)
    && (forall a, i, m :: FromRun(runs, i, m) && !ShowsChunk(ms, m.chunkId) && 0 <= a < |ms| ==>
         m.score <= ms[a].score)
  }

  /** How many chunks are kept: all, up to `topK` between 1 and 50. */
  ghost function KeptChunks(runs: seq<PlanRun>, topK: int): nat {
    var limit := if topK < 1 then 1 else if topK > 50 then 50 else topK;
    if |AllChunks(runs)| < limit then |AllChunks(runs)| else limit
  }

  ghost predicate Tried(keys: seq<string>, runs: seq<PlanRun>, n: nat) {
    |keys| == n <= |runs| && forall i :: 0 <= i < n ==> keys[i] == runs[i].plan.key
  }

  ghost predicate AllEmpty(runs: seq<PlanRun>) {
    forall i :: 0 <= i < |runs| ==> runs[i].result.matches == []
  }

  /** The first query, and each of the others behind a separator. */
  function SeparatedQueries(runs: seq<PlanRun>): string {
    if |runs| == 0 then ""
    else if |runs| == 1 then runs[0].result.query
    else runs[0].result.query + (" || " + SeparatedQueries(runs[1..]))
  }

  lemma {:induction false} SeparateOneMore(runs: seq<PlanRun>, last: PlanRun)
    requires |runs| > 0
    ensures SeparatedQueries(runs + [last]) == SeparatedQueries(runs) + (" || " + last.result.query)
  {
    var more := runs + [last];
    assert more[1..] == runs[1..] + [last] && more[0] == runs[0];
    assert SeparatedQueries(more) == runs[0].result.query + (" || " + SeparatedQueries(more[1..]));
    if |runs| == 1 {
      assert more[1..] == [last];
    } else {
      SeparateOneMore(runs[1..], last);
      hide SeparatedQueries;
      var first, rest, end := runs[0].result.query, SeparatedQueries(runs[1..]), " || " + last.result.query;
      assert first + (" || " + (rest + end)) == first + (" || " + rest) + end;
    }
  }

  lemma {:induction false} QueriesAreSeparated(runs: seq<PlanRun>)
    ensures JoinedQueries(runs) == SeparatedQueries(runs)
  {
    if |runs| > 1 {
      var init, last := runs[..|runs| - 1], runs[|runs| - 1];
      assert runs == init + [last];
      QueriesAreSeparated(init);
      SeparateOneMore(init, last);
      var query := last.result.query;
      assert JoinedQueries(runs) == JoinedQueries(init) + " || " + query;
      hide *;
      assert JoinedQueries(init) + " || " + query == JoinedQueries(init) + (" || " + query);
    }
  }

  ghost predicate MergeTells(config: Config, runs: seq<PlanRun>, r: Selection) {
    var n := KeptChunks(runs, config.topK);
    && (r.Raised? <==>
         n < config.minMatches && config.failOnError &&
         (AllEmpty(runs) || exists i :: 0 <= i < |runs| && Insists(runs[i])))
    && match r
       case Raised(error) => Raises(runs, TooFewMatches(n, config.minMatches, "merge"), error)
       case Selected(result, key, tried) =>
         && BestOfAllRuns(runs, result.matches) && |result.matches| == n
         && result.query == SeparatedQueries(runs)
         && result.topK == config.topK && key == None && Tried(tried, runs, |runs|)
  }

  lemma {:induction false} FlattenMembers(results: seq<seq<Match>>, m: Match)
    ensures m in Flatten(results) <==> exists i :: 0 <= i < |results| && m in results[i]
  {
    if |results| > 0 {
      var init, last := results[..|results| - 1], results[|results| - 1];
      FlattenMembers(init, m);
      assert forall i :: 0 <= i < |init| ==> init[i] == results[i];
      if m in last { assert m in results[|results| - 1]; }
      if i :| 0 <= i < |init| && m in init[i] { assert m in results[i]; }
    }
  }

  lemma FlattenRuns(runs: seq<PlanRun>, m: Match)
    ensures m in Flatten(MatchLists(runs)) <==> InSomeRun(runs, m)
  {
    var lists := MatchLists(runs);
    FlattenMembers(lists, m);
    hide Flatten;
    if m in Flatten(lists) {
      var i :| 0 <= i < |lists| && m in lists[i];
      assert FromRun(runs, i, m);
    }
    if i :| FromRun(runs, i, m) { assert m in lists[i]; }
  }

  lemma ChunksOfRuns(runs: seq<PlanRun>)
    ensures Chunks(Flatten(MatchLists(runs))) == AllChunks(runs)
  {
    var all := Flatten(MatchLists(runs));
    forall m ensures m in all <==> InSomeRun(runs, m) { FlattenRuns(runs, m); }
    hide Flatten;
    hide MatchLists;
    forall c | c in Chunks(all) ensures c in AllChunks(runs) {
      var k :| 0 <= k < |all| && all[k].chunkId == c;
      assert all[k] in all;
      var i :| FromRun(runs, i, all[k]);
      var j :| 0 <= j < |runs[i].result.matches| && runs[i].result.matches[j] == all[k];
    }
    forall c | c in AllChunks(runs) ensures c in Chunks(all) {
      var i, k :| 0 <= i < |runs| && 0 <= k < |runs[i].result.matches| && runs[i].result.matches[k].chunkId == c;
      var m := runs[i].result.matches[k];
      assert FromRun(runs, i, m) && m in all;
      assert m.chunkId in Chunks(all);
    }
  }

  lemma SpecificationIsBest(runs: seq<PlanRun>, all: seq<Match>, ms: seq<Match>)
    requires forall m :: m in all <==> InSomeRun(runs, m)
    requires DistinctChunks(ms) && Descending(ms)
    requires forall a :: 0 <= a < |ms| ==> ms[a] in all && BestOfChunk(all, ms[a])
    requires forall k, a :: 0 <= k < |all| && !HasChunk(ms, all[k].chunkId) && 0 <= a < |ms| ==>
      ms[a].score >= all[k].score
    ensures BestOfAllRuns(runs, ms)
  {
    hide FromRun;
    forall i, m | FromRun(runs, i, m) ensures m in all { }
    forall a | 0 <= a < |ms| ensures InSomeRun(runs, ms[a]) { assert ms[a] in all; }
    forall a, i, m | 0 <= a < |ms| && FromRun(runs, i, m) && m.chunkId == ms[a].chunkId ensures m.score <= ms[a].score {
      var k :| 0 <= k < |all| && all[k] == m;
      assert BestOfChunk(all, ms[a]);
    }
    forall a, i, m | FromRun(runs, i, m) && !ShowsChunk(ms, m.chunkId) && 0 <= a < |ms| ensures m.score <= ms[a].score {
      var k :| 0 <= k < |all| && all[k] == m;
      assert !HasChunk(ms, all[k].chunkId);
    }
  }

  lemma MergedIsBest(runs: seq<PlanRun>, topK: int)
    ensures var ms := Take(Ranked(Flatten(MatchLists(runs))), Limit(topK));
      BestOfAllRuns(runs, ms) && |ms| == KeptChunks(runs, topK)
  {
    var all := Flatten(MatchLists(runs));
    MergeMeetsSpecification(MatchLists(runs), topK);
    ChunksOfRuns(runs);
    forall m ensures m in all <==> InSomeRun(runs, m) { FlattenRuns(runs, m); }
    hide Flatten;
    hide Ranked;
    hide MatchLists;
    hide Chunks;
    hide AllChunks;
    hide FromRun;
    hide BestOfAllRuns;
    hide Take;
    SpecificationIsBest(runs, all, Take(Ranked(all), Limit(topK)));
  }

  lemma SelectMergedTells(config: Config, runs: seq<PlanRun>)
    ensures MergeTells(config, runs, SelectMerged(config, runs))
  {
    MergedIsBest(runs, config.topK);
    QueriesAreSeparated(runs);
    hide SeparatedQueries;
    HardErrorMeans(runs, TooFewMatches(KeptChunks(runs, config.topK), config.minMatches, "merge"));
    hide BestOfAllRuns;
    hide KeptChunks;
    hide Raises;
    hide HardError;
    hide JoinedQueries;
  }

  // ----- best score

  ghost predicate HasMatches(run: PlanRun) {
    run.result.matches != []
  }

  /** No other run has a better top match, or an equal one and more matches; an equal run stands behind. */
  ghost predicate BestRun(runs: seq<PlanRun>, i: nat) {
    && i < |runs| && HasMatches(runs[i])
    && forall k :: 0 <= k < |runs| && HasMatches(runs[k]) ==>
         var x, y := runs[i].result.matches, runs[k].result.matches;
         x[0].score > y[0].score || (x[0].score == y[0].score && (|x| > |y| || (|x| == |y| && i <= k)))
  }

  ghost predicate BestTells(config: Config, runs: seq<PlanRun>, r: Selection)
    requires |runs| > 0
  {
    && (AllEmpty(runs) ==>
         if config.failOnError then r.Raised? && Raises(runs, NothingFound, r.error)
         else r.Selected? && r.result == QueryResult(runs[0].plan.query, config.topK, [])
              && r.selectedKey == None && Tried(r.tried, runs, |runs|))
    && (!AllEmpty(runs) ==> exists i: nat :: BestRun(runs, i) && HandsOver(config, runs, i, r))
  }

  ghost predicate HandsOver(config: Config, runs: seq<PlanRun>, i: nat, r: Selection)
    requires i < |runs|
  {
    if config.failOnError && !runs[i].satisfied then
      r == Raised(if runs[i].error.Some? then runs[i].error.value
                  else TooFewMatches(|runs[i].result.matches|, runs[i].plan.minMatches, runs[i].plan.key))
    else
      r.Selected? && r.result == runs[i].result && r.selectedKey == Some(runs[i].plan.key)
      && Tried(r.tried, runs, |runs|)
  }

  lemma BestMeans(runs: seq<PlanRun>, best: int)
    requires IsBest(runs, best)
    ensures if best < 0 then AllEmpty(runs) else BestRun(runs, best)
  {
    if best >= 0 {
      forall k | 0 <= k < |runs| && HasMatches(runs[k])
        ensures var x, y := runs[best].result.matches, runs[k].result.matches;
          x[0].score > y[0].score || (x[0].score == y[0].score && (|x| > |y| || (|x| == |y| && best <= k)))
      {
        assert !Beats(runs[k], runs[best]);
        assert k < best ==> Beats(runs[best], runs[k]);
      }
    }
  }

  lemma SelectBestTells(config: Config, runs: seq<PlanRun>, best: int)
    requires |runs| > 0 && IsBest(runs, best)
    ensures BestTells(config, runs, SelectBest(config, runs, best))
  {
    BestMeans(runs, best);
    HardErrorMeans(runs, NothingFound);
    hide Raises;
    hide HardError;
    hide Beats;
    if best >= 0 {
      assert HasMatches(runs[best]) && !AllEmpty(runs);
      hide BestRun;
    }
  }

  // ----- first satisfied

  ghost predicate FirstSatisfiedAt(runs: seq<PlanRun>, i: nat) {
    i < |runs| && runs[i].satisfied && forall k :: 0 <= k < i ==> !runs[k].satisfied
  }

  ghost predicate NoneSatisfied(runs: seq<PlanRun>) {
    forall k :: 0 <= k < |runs| ==> !runs[k].satisfied
  }

  /** All at once: the first satisfied run, else an error, else the first result. */
  ghost predicate FirstTells(config: Config, runs: seq<PlanRun>, r: Selection)
    requires |runs| > 0
  {
    && (forall i: nat :: FirstSatisfiedAt(runs, i) ==>
         && r.Selected? && r.result == runs[i].result && r.selectedKey == Some(runs[i].plan.key)
         && Tried(r.tried, runs, |runs|))
    && (NoneSatisfied(runs) ==>
         if config.failOnError then r.Raised? && Raises(runs, NothingFound, r.error)
         else r.Selected? && r.result == runs[0].result && r.selectedKey == None && Tried(r.tried, runs, |runs|))
  }

  /** In turn: the first satisfied run, with the plans behind it not run at all; else the last error or result. */
  ghost predicate SequenceTells(config: Config, plans: seq<Plan>, service: Service, c: Counters, runs: seq<PlanRun>,
                                r: Selection, after: Counters)
    requires |runs| == |plans| > 0
  {
    && (forall i: nat :: FirstSatisfiedAt(runs, i) ==>
         && after == Collect(plans[..i + 1], service, c).counters
         && r.Selected? && r.result == runs[i].result && r.selectedKey == Some(runs[i].plan.key)
         && Tried(r.tried, runs, i + 1))
    && (NoneSatisfied(runs) ==>
         && after == Collect(plans, service, c).counters
         && var last := runs[|runs| - 1];
         if config.failOnError && last.error.Some? then r == Raised(last.error.value)
         else r.Selected? && r.result == last.result && r.selectedKey == None && Tried(r.tried, runs, |runs|))
  }

  lemma SelectFirstTells(config: Config, runs: seq<PlanRun>)
    requires |runs| > 0
    ensures FirstTells(config, runs, SelectFirst(config, runs))
  {
    HardErrorMeans(runs, NothingFound);
    TriedPrefix(runs, |runs|);
    assert runs[..|runs|] == runs;
    hide Keys;
    hide Tried;
    hide Raises;
    hide HardError;
    hide FirstSatisfied;
  }

  lemma SelectSequentiallyTells(config: Config, plans: seq<Plan>, service: Service, c: Counters)
    requires |plans| > 0
    ensures var all := Collect(plans, service, c);
      SequenceTells(config, plans, service, c, all.runs, SelectSequentially(config, all.runs),
                    Collect(plans[..Stop(all.runs)], service, c).counters)
  {
    var runs := Collect(plans, service, c).runs;
    assert plans[..|plans|] == plans;
    StopMeans(runs);
    SequentialSelection(config, runs);
    hide *;
    SequenceFrom(config, plans, service, c, runs, SelectSequentially(config, runs),
                 Collect(plans[..Stop(runs)], service, c).counters, FirstSatisfied(runs));
  }

  lemma SequentialSelection(config: Config, runs: seq<PlanRun>)
    requires |runs| > 0
    ensures var at, r, last := FirstSatisfied(runs), SelectSequentially(config, runs), runs[|runs| - 1];
      if at >= 0 then
        && r.Selected? && r.result == runs[at].result && r.selectedKey == Some(runs[at].plan.key)
        && Tried(r.tried, runs, at + 1)
      else if config.failOnError && last.error.Some? then r == Raised(last.error.value)
      else r.Selected? && r.result == last.result && r.selectedKey == None && Tried(r.tried, runs, |runs|)
  {
    var at := FirstSatisfied(runs);
    TriedPrefix(runs, if at >= 0 then at + 1 else |runs|);
    assert runs[..|runs|] == runs;
    hide FirstSatisfied;
    hide Keys;
    hide Tried;
  }

  lemma TriedPrefix(runs: seq<PlanRun>, n: nat)
    requires n <= |runs|
    ensures Tried(Keys(runs[..n]), runs, n)
  {
  }

  lemma SequenceFrom(config: Config, plans: seq<Plan>, service: Service, c: Counters, runs: seq<PlanRun>,
                     r: Selection, after: Counters, at: int)
    requires |runs| == |plans| > 0 && -1 <= at < |runs|
    requires forall i: nat :: FirstSatisfiedAt(runs, i) ==> at == i
    requires NoneSatisfied(runs) <==> at < 0
    requires after == Collect(if at >= 0 then plans[..at + 1] else plans, service, c).counters
    requires var last := runs[|runs| - 1];
      if at >= 0 then
        && r.Selected? && r.result == runs[at].result && r.selectedKey == Some(runs[at].plan.key)
        && Tried(r.tried, runs, at + 1)
      else if config.failOnError && last.error.Some? then r == Raised(last.error.value)
      else r.Selected? && r.result == last.result && r.selectedKey == None && Tried(r.tried, runs, |runs|)
    ensures SequenceTells(config, plans, service, c, runs, r, after)
  {
    hide Collect;
    hide Tried;
    hide FirstSatisfiedAt;
    hide NoneSatisfied;
  }

  lemma StopMeans(runs: seq<PlanRun>)
    ensures var at := FirstSatisfied(runs);
      && (forall i: nat :: FirstSatisfiedAt(runs, i) ==> at == i)
      && (NoneSatisfied(runs) <==> at < 0)
      && Stop(runs) == if at >= 0 then at + 1 else |runs|
  {
    var at := FirstSatisfied(runs);
    hide FirstSatisfied;
    if at >= 0 { assert runs[at].satisfied; }
  }

  // ----- a single plan

  ghost predicate SingleTells(config: Config, outcome: Outcome, r: Selection) {
    match outcome
    case Threw(error) => r == Raised(error)
    case Ran(run) =>
      if run.error.Some? && !run.satisfied && config.failOnError then r == Raised(run.error.value)
      else r == Selected(run.result, Some(run.plan.key), [run.plan.key])
  }

  // ----- the node

  /** For every strategy: what the node hands over, and what is left of the budget. */
  ghost predicate NodeTells(config: Config, ordered: seq<Plan>, service: Service, c: Counters, r: Selection,
                            after: Counters)
    requires |ordered| > 0 && !config.strategy.Single?
  {
    match config.strategy
    case Merge =>
      exists runs :: Gathered(config.speculative, ordered, service, c, runs, after) && MergeTells(config, runs, r)
    case BestScore =>
      exists runs ::
        |runs| > 0 && Gathered(config.speculative, ordered, service, c, runs, after) && BestTells(config, runs, r)
    case FirstNonEmpty | Adaptive =>
      if config.speculative then
        exists runs :: |runs| > 0 && Gathered(true, ordered, service, c, runs, after) && FirstTells(config, runs, r)
      else SequenceTells(config, ordered, service, c, Collect(ordered, service, c).runs, r, after)
  }

  /** What retrieval for a node does: the plans in their order, a single plan as it is, several by the strategy. */
  lemma NodeRetrievalTells(config: Config, plans: seq<Plan>, preferred: Option<string>, service: Service,
                           c: Counters, r: Selection, after: Counters)
    requires |plans| > 0 && NodeRetrieval(config, plans, preferred, service, c, r, after)
    ensures var ordered := Ordered(config, plans, preferred);
      && OrderedFor(config, plans, preferred, ordered) && |ordered| > 0
      && if |plans| == 1 || config.strategy.Single? then
           var alone := Drive(plans[0], false, service, PLAN_START, c);
           SingleTells(config, alone.outcome, r) && after == alone.counters
         else NodeTells(config, ordered, service, c, r, after)
  {
    OrderedSize(config, plans, preferred);
    if preferred.Some? { AdaptiveOrderingMeans(plans, preferred.value); }
    hide AdaptiveOrdering;
    hide PreferredFirst;
    hide Drive;
    hide Collect;
    hide Gathered;
    var ordered := Ordered(config, plans, preferred);
    if |plans| > 1 && !config.strategy.Single? {
      StrategyTells(config, ordered, plans, preferred, service, c, r, after);
    }
  }

  lemma StrategyTells(config: Config, ordered: seq<Plan>, plans: seq<Plan>, preferred: Option<string>,
                      service: Service, c: Counters, r: Selection, after: Counters)
    requires |plans| > 1 && ordered == Ordered(config, plans, preferred) && |ordered| > 0 && !config.strategy.Single?
    requires NodeRetrieval(config, plans, preferred, service, c, r, after)
    ensures NodeTells(config, ordered, service, c, r, after)
  {
    hide Drive;
    hide Collect;
    hide Gathered;
    hide AdaptiveOrdering;
    match config.strategy {
      case Merge =>
        var runs :| Gathered(config.speculative, ordered, service, c, runs, after) && r == SelectMerged(config, runs);
        SelectMergedTells(config, runs);
      case BestScore =>
        var runs, best :|
          && Gathered(config.speculative, ordered, service, c, runs, after) && |runs| == |ordered|
          && IsBest(runs, best) && r == SelectBest(config, runs, best);
        SelectBestTells(config, runs, best);
      case FirstNonEmpty | Adaptive =>
        if config.speculative {
          var runs :|
            Gathered(true, ordered, service, c, runs, after) && |runs| > 0 && r == SelectFirst(config, runs);
          SelectFirstTells(config, runs);
        } else {
          SelectSequentiallyTells(config, ordered, service, c);
        }
    }
  }

  // ----- the runs behind it

  /** Every run that was gathered tells what its plan was answered, or was stopped by a budget check. */
  lemma GatheredTell(speculative: bool, plans: seq<Plan>, service: Service, c: Counters, runs: seq<PlanRun>,
                     after: Counters, i: nat)
    requires Gathered(speculative, plans, service, c, runs, after) && i < |plans|
    ensures |runs| == |plans|
    ensures (Denied(Ran(runs[i])) && !runs[i].satisfied) || Tells(plans[i], true, service, Ran(runs[i]))
  {
    if speculative {
      var events :| GatheredBy(plans, service, c, events, runs, after);
      Speculation.GatheredAreFreeOrDenied(plans, service, c, events, runs, after);
    } else {
      Speculation.CollectedAreFreeOrDenied(plans, service, c);
    }
    FreePlanTells(plans[i], true, service);
    assert runs[i] == Speculation.FreeRun(plans[i], service) || (Denied(Ran(runs[i])) && !runs[i].satisfied);
    FreeRunIsUnlimited(plans[i], service);
    hide Tells;
    hide Gathered;
    hide Collect;
  }

  lemma FreeRunIsUnlimited(plan: Plan, service: Service)
    ensures Unlimited(plan, true, service, PLAN_START) == Ran(Speculation.FreeRun(plan, service))
  {
    Speculation.FreelyRan(plan, service, PLAN_START);
  }
}
