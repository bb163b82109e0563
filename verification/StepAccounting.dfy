/** Which steps a run records: one per node, in execution order, and only skips after the step that ended it. */
module StepAccounting {
  import opened Values
  import opened Graph
  import opened Branching
  import opened ExecutionState
  import opened Engine

  /** The hooks that report finished steps never throw. */
  ghost predicate QuietReports(world: World) {
    forall n :: !world.completeThrows(n)
  }

  /** None of the first `n` reports throws. */
  ghost predicate QuietUntil(world: World, n: nat) {
    forall k: nat :: k < n ==> !world.completeThrows(k)
  }

  ghost predicate QuietStarts(world: World) {
    forall n :: !world.startThrows(n)
  }

  ghost predicate StepsAre(steps: seq<Step>, ids: seq<Id>) {
    |steps| == |ids| && forall i :: 0 <= i < |steps| ==> steps[i].nodeId == ids[i]
  }

  /** Nothing failed before step `k`, step `k` was executed, everything after it was skipped. */
  ghost predicate EndedAt(steps: seq<Step>, k: nat) {
    && k < |steps|
    && (forall i :: 0 <= i < k ==> !steps[i].status.Failed?)
    && !steps[k].status.Skipped?
    && (forall i :: k < i < |steps| ==> steps[i].status.Skipped?)
  }

  /** Why a run ends early: its last executed step failed, or it completed and control called for the end. */
  ghost predicate EndedFor(run: Run, k: nat) {
    && EndedAt(run.steps, k)
    && run.control.terminate
    && (run.status == RunFailed <==> run.steps[k].status.Failed? || LimitBroken(run.control))
  }

  ghost predicate StillGoing(run: Run) {
    && run.status == RunCompleted
    && (forall i :: 0 <= i < |run.steps| ==> !run.steps[i].status.Failed?)
    && (|run.steps| > 0 ==> !LimitBroken(run.control) && !run.control.terminate)
  }

  ghost predicate Accounted(run: Run) {
    match run.mode
    case Going => StillGoing(run)
    case Ending => exists k :: EndedFor(run, k)
    case Aborted => run.status == RunFailed
  }

  lemma FailNodeAccounted(world: World, run: Run, id: Id, input: Fields, records: seq<AttemptRecord>)
    requires !world.completeThrows(run.reports) && StillGoing(run)
    ensures var r := FailNode(world, run, id, input, records);
      && r.mode.Ending? && r.steps == run.steps + [Step(id, Failed, input, None, records)] && Accounted(r)
      && r.reports == run.reports + 1
  {
    var r := FailNode(world, run, id, input, records);
    assert EndedFor(r, |run.steps|);
  }

  lemma ExecuteNodeAccounted(world: World, run: Run, node: Node, input: Fields)
    requires !world.completeThrows(run.reports) && StillGoing(run) && run.mode.Going?
    ensures var r := ExecuteNode(world, run, node, input);
      && Accounted(r) && !r.mode.Aborted?
      && |r.steps| == |run.steps| + 1 && r.steps[..|run.steps|] == run.steps && r.steps[|run.steps|].nodeId == node.id
      && r.reports == run.reports + 1
  {
    hide AllAttempts;
    var a := AllAttempts(world, NodeRetryPolicy(node.config), node.id, input,
                         Attempts(0, [], run.control, run.calls, Trying));
    var after := run.(control := a.control, calls := a.calls);
    var r := ExecuteNode(world, run, node, input);
    if a.verdict.Produced? {
      if r.mode.Ending? { assert EndedFor(r, |run.steps|); }
    } else {
      assert EndedFor(r, |run.steps|);
    }
  }

  /** What one more node does to an accounted run. */
  ghost predicate OneMoreStep(run: Run, r: Run, id: Id) {
    && Accounted(r)
    && |r.steps| == |run.steps| + 1 && r.steps[..|run.steps|] == run.steps && r.steps[|run.steps|].nodeId == id
    && r.reports == run.reports + 1
  }

  lemma RunNodeAccounted(world: World, edges: seq<Edge>, trigger: Fields, run: Run, node: Node)
    requires !world.completeThrows(run.reports) && StillGoing(run) && run.mode.Going?
    requires run.steps == [] ==> Incoming(edges, node.id) == []
    ensures var r := RunNode(world, edges, trigger, run, node);
      && (world.startThrows(run.starts) ==>
           r.mode.Aborted? && Accounted(r) && r.steps == run.steps && r.reports == run.reports)
      && (!world.startThrows(run.starts) ==> !r.mode.Aborted? && OneMoreStep(run, r, node.id))
  {
    hide ExecuteNode;
    hide FailNode;
    hide Incoming;
    hide Accounted;
    hide Merged;
    var started := run.(starts := run.starts + 1);
    assert StillGoing(started);
    FailNodeAccounted(world, started, node.id, map[], []);
    var parents := Resolution(node.id, edges, started.outputs);
    if !world.startThrows(run.starts) && world.configured(node) {
      if parents.skipNode {
        SkipNodeAccounted(world, started, node.id);
      } else {
        var input := trigger + parents.merged;
        match world.prepare(node.id, input) {
          case RetrievalFailed =>
          case Injected(key, payload) => ExecuteNodeAccounted(world, started, node, input[key := payload]);
          case Plain => ExecuteNodeAccounted(world, started, node, input);
        }
      }
    }
    if world.startThrows(run.starts) { AbortAccounted(started); }
  }

  lemma AbortAccounted(run: Run)
    ensures Accounted(Abort(run))
  {
  }

  lemma SkipNodeAccounted(world: World, run: Run, id: Id)
    requires !world.completeThrows(run.reports) && StillGoing(run) && run.mode.Going? && run.steps != []
    ensures var r := SkipNode(world, run, id);
      r.mode.Going? && OneMoreStep(run, r, id) && r.steps[|run.steps|] == SkippedStep(id)
  {
  }

  lemma SkipRestAccounted(world: World, run: Run, id: Id)
    requires !world.completeThrows(run.reports) && Accounted(run) && run.mode.Ending?
    ensures var r := Report(world, run, SkippedStep(id));
      r.mode.Ending? && OneMoreStep(run, r, id) && r.steps[|run.steps|] == SkippedStep(id)
  {
    var k :| EndedFor(run, k);
    var r := Report(world, run, SkippedStep(id));
    assert EndedFor(r, k);
  }

  lemma FirstHasNoParents(order: seq<Id>, edges: seq<Edge>)
    requires Topological(order, edges) && Distinct(order) && |order| > 0
    ensures Incoming(edges, order[0]) == []
  {
    IndexOfAt(order, 0);
    NothingIncoming(edges, order[0]);
  }

  /** Of a run with quiet reports: the steps are the nodes of the order, or, when a start hook threw, those before
      the node whose start was refused. */
  ghost predicate AccountedAlong(run: Run, order: seq<Id>) {
    && Accounted(run)
    && |run.steps| <= |order| && StepsAre(run.steps, order[..|run.steps|]) && run.reports == |run.steps|
    && (|run.steps| < |order| ==> run.mode.Aborted?)
  }

  lemma {:induction false} PrefixAccounted(world: World, nodes: map<Id, Node>, edges: seq<Edge>, trigger: Fields,
                                           control: Control, order: seq<Id>, n: nat)
    requires QuietUntil(world, n) && Distinct(order) && Topological(order, edges) && n <= |order|
    requires forall v :: v in order ==> v in nodes && nodes[v].id == v
    ensures AccountedAlong(RunAlong(world, nodes, edges, trigger, control, order[..n]), order[..n])
    ensures QuietStarts(world) ==> !RunAlong(world, nodes, edges, trigger, control, order[..n]).mode.Aborted?
  {
    if n > 0 {
      PrefixAccounted(world, nodes, edges, trigger, control, order, n - 1);
      FirstHasNoParents(order, edges);
      assert order[..n][..n - 1] == order[..n - 1];
      var run := RunAlong(world, nodes, edges, trigger, control, order[..n - 1]);
      assert RunAlong(world, nodes, edges, trigger, control, order[..n])
          == Advance(world, nodes, edges, trigger, run, order[n - 1]);
      hide RunAlong;
      AdvanceAccounted(world, nodes, edges, trigger, run, order, n - 1);
    }
  }

  lemma AdvanceAccounted(world: World, nodes: map<Id, Node>, edges: seq<Edge>, trigger: Fields,
                         run: Run, order: seq<Id>, n: nat)
    requires QuietUntil(world, n + 1) && n < |order| && Incoming(edges, order[0]) == []
    requires order[n] in nodes && nodes[order[n]].id == order[n]
    requires AccountedAlong(run, order[..n])
    ensures var r := Advance(world, nodes, edges, trigger, run, order[n]);
      AccountedAlong(r, order[..n + 1]) && (QuietStarts(world) && !run.mode.Aborted? ==> !r.mode.Aborted?)
  {
    hide RunNode;
    hide Report;
    var r := Advance(world, nodes, edges, trigger, run, order[n]);
    match run.mode {
      case Going => RunNodeAccounted(world, edges, trigger, run, nodes[order[n]]);
      case Ending => SkipRestAccounted(world, run, order[n]);
      case Aborted =>
    }
    hide Accounted;
    assert order[..n + 1][..|run.steps|] == order[..n][..|run.steps|];
    if OneMoreStep(run, r, order[n]) && |run.steps| == n {
      assert order[..n + 1][..n + 1] == order[..n] + [order[n]];
      assert r.steps == run.steps + [r.steps[n]];
    }
  }

  ghost predicate HasFailure(steps: seq<Step>) {
    exists i :: 0 <= i < |steps| && steps[i].status.Failed?
  }

  /** What the step record of a run without exceptions looks like. */
  ghost predicate CompleteRecord(run: Run, order: seq<Id>) {
    && StepsAre(run.steps, order)
    && (run.mode.Going? || exists k :: EndedAt(run.steps, k))
    && (run.mode.Going? ==> !HasFailure(run.steps))
    && (order != [] ==> (run.status == RunFailed <==> LimitBroken(run.control) || HasFailure(run.steps)))
  }

  lemma AccountedIsComplete(run: Run, order: seq<Id>)
    requires AccountedAlong(run, order) && !run.mode.Aborted?
    ensures CompleteRecord(run, order)
  {
    assert order[..|order|] == order;
    if run.mode.Ending? {
      var k :| EndedFor(run, k);
      assert EndedAt(run.steps, k);
    }
  }

  /** One step per node, in execution order, whatever the nodes do; at most one step failed and nothing is executed
      after it; the run fails exactly when a step failed or a control limit was broken. */
  lemma OneStepPerNode(world: World, nodes: seq<Node>, edges: seq<Edge>, trigger: Fields, control: Control,
                       ids: seq<Id>, order: seq<Id>)
    requires QuietReports(world) && QuietStarts(world)
    requires ExecutionOrder(ids, edges, order) && forall v :: v in order ==> v in NodeMap(nodes)
    ensures CompleteRecord(RunAlong(world, NodeMap(nodes), edges, trigger, control, order), order)
  {
    PrefixAccounted(world, NodeMap(nodes), edges, trigger, control, order, |order|);
    assert order[..|order|] == order;
    hide RunAlong;
    hide AccountedAlong;
    hide CompleteRecord;
    AccountedIsComplete(RunAlong(world, NodeMap(nodes), edges, trigger, control, order), order);
  }

  /** Start hooks may throw, too: then the steps are those of the nodes before the refused one and the run fails. */
  lemma StepsBeforeRefusal(world: World, nodes: seq<Node>, edges: seq<Edge>, trigger: Fields, control: Control,
                           ids: seq<Id>, order: seq<Id>)
    requires QuietReports(world)
    requires ExecutionOrder(ids, edges, order) && forall v :: v in order ==> v in NodeMap(nodes)
    ensures var run := RunAlong(world, NodeMap(nodes), edges, trigger, control, order);
      && |run.steps| <= |order| && StepsAre(run.steps, order[..|run.steps|])
      && (|run.steps| < |order| ==> run.mode.Aborted?)
      && (run.mode.Aborted? ==> run.status == RunFailed)
  {
    PrefixAccounted(world, NodeMap(nodes), edges, trigger, control, order, |order|);
    assert order[..|order|] == order;
    hide RunAlong;
  }

  // ----- reports that throw

  /** The node is skipped in its own turn, because no edge carries anything to it. */
  ghost predicate SkippedInTurn(world: World, edges: seq<Edge>, run: Run, node: Node) {
    run.mode.Going? && world.configured(node) && Resolution(node.id, edges, run.outputs).skipNode
  }

  /** What a report that throws makes of the steps: a node skipped in its own turn gets a second, failed step; else the
      run is aborted behind the one step. */
  lemma ThrowingReport(world: World, nodes: map<Id, Node>, edges: seq<Edge>, trigger: Fields, run: Run, id: Id)
    requires QuietStarts(world) && world.completeThrows(run.reports) && !run.mode.Aborted?
    requires id in nodes && nodes[id].id == id
    ensures var r := Advance(world, nodes, edges, trigger, run, id);
      if SkippedInTurn(world, edges, run, nodes[id]) then
        && |r.steps| == |run.steps| + 2
        && r.steps == run.steps + [SkippedStep(id)] + [Step(id, Failed, map[], None, [])]
      else AbortedBehind(r, run, id)
  {
    hide ExecuteNode;
    hide Resolution;
    var started := run.(starts := run.starts + 1);
    forall input ensures AbortedBehind(ExecuteNode(world, started, nodes[id], input), run, id) {
      ThrowingExecution(world, started, nodes[id], input);
    }
  }

  /** One more step, and the run is over. */
  ghost predicate AbortedBehind(r: Run, run: Run, id: Id) {
    && r.mode.Aborted?
    && |r.steps| == |run.steps| + 1 && r.steps[..|run.steps|] == run.steps && r.steps[|run.steps|].nodeId == id
  }

  lemma ThrowingExecution(world: World, run: Run, node: Node, input: Fields)
    requires world.completeThrows(run.reports)
    ensures AbortedBehind(ExecuteNode(world, run, node, input), run, node.id)
  {
    hide AllAttempts;
    hide NodeRetryPolicy;
  }

  ghost predicate Extends(longer: seq<Step>, steps: seq<Step>) {
    |steps| <= |longer| && longer[..|steps|] == steps
  }

  lemma ExecuteNodeExtends(world: World, run: Run, node: Node, input: Fields)
    ensures Extends(ExecuteNode(world, run, node, input).steps, run.steps)
  {
    hide AllAttempts;
    hide NodeRetryPolicy;
  }

  lemma SkipNodeExtends(world: World, run: Run, id: Id)
    ensures Extends(SkipNode(world, run, id).steps, run.steps)
  {
  }

  lemma StepsGrow(world: World, nodes: map<Id, Node>, edges: seq<Edge>, trigger: Fields, run: Run, id: Id)
    requires id in nodes
    ensures Extends(Advance(world, nodes, edges, trigger, run, id).steps, run.steps)
  {
    hide ExecuteNode;
    hide SkipNode;
    hide Resolution;
    var started := run.(starts := run.starts + 1);
    SkipNodeExtends(world, started, nodes[id].id);
    forall input ensures Extends(ExecuteNode(world, started, nodes[id], input).steps, run.steps) {
      ExecuteNodeExtends(world, started, nodes[id], input);
    }
  }

  /** The steps can no longer become those of `order`. */
  ghost predicate Spoiled(run: Run, order: seq<Id>) {
    || (run.mode.Aborted? && |run.steps| < |order|)
    || exists j: nat :: Misplaced(run.steps, order, j)
  }

  ghost predicate Misplaced(steps: seq<Step>, order: seq<Id>, j: nat) {
    j < |steps| && (j >= |order| || steps[j].nodeId != order[j])
  }

  lemma {:induction false} SpoiledStays(world: World, nodes: map<Id, Node>, edges: seq<Edge>, trigger: Fields,
                                        control: Control, order: seq<Id>, k: nat, n: nat)
    requires k <= n <= |order| && forall v :: v in order ==> v in nodes
    requires Spoiled(RunAlong(world, nodes, edges, trigger, control, order[..k]), order)
    ensures Spoiled(RunAlong(world, nodes, edges, trigger, control, order[..n]), order)
  {
    if k < n {
      SpoiledStays(world, nodes, edges, trigger, control, order, k, n - 1);
      assert order[..n][..n - 1] == order[..n - 1];
      var run := RunAlong(world, nodes, edges, trigger, control, order[..n - 1]);
      assert RunAlong(world, nodes, edges, trigger, control, order[..n])
          == Advance(world, nodes, edges, trigger, run, order[n - 1]);
      hide RunAlong;
      StepsGrow(world, nodes, edges, trigger, run, order[n - 1]);
      assert run.mode.Aborted? ==> Advance(world, nodes, edges, trigger, run, order[n - 1]) == run;
      hide *;
      SpoiledByPrefix(run, Advance(world, nodes, edges, trigger, run, order[n - 1]), order);
    }
  }

  lemma SpoiledByPrefix(run: Run, r: Run, order: seq<Id>)
    requires Spoiled(run, order) && Extends(r.steps, run.steps)
    requires run.mode.Aborted? ==> r == run
    ensures Spoiled(r, order)
  {
    if j: nat :| Misplaced(run.steps, order, j) {
      assert r.steps[j] == r.steps[..|run.steps|][j];
      assert Misplaced(r.steps, order, j);
    }
  }

  /** A report that throws before the last node spoils the steps. */
  lemma EarlyThrowSpoils(world: World, nodes: map<Id, Node>, edges: seq<Edge>, trigger: Fields, run: Run,
                         order: seq<Id>, k: nat)
    requires QuietStarts(world) && world.completeThrows(k) && k + 1 < |order| && Distinct(order)
    requires order[k] in nodes && nodes[order[k]].id == order[k]
    requires AccountedAlong(run, order[..k]) && !run.mode.Aborted?
    ensures Spoiled(Advance(world, nodes, edges, trigger, run, order[k]), order)
  {
    ThrowingReport(world, nodes, edges, trigger, run, order[k]);
    var r := Advance(world, nodes, edges, trigger, run, order[k]);
    if SkippedInTurn(world, edges, run, nodes[order[k]]) {
      assert Misplaced(r.steps, order, k + 1);
    }
  }

  /** The run along the first `k` nodes, when the reports have been quiet so far. */
  lemma PrefixHasSteps(world: World, nodes: seq<Node>, edges: seq<Edge>, trigger: Fields, control: Control,
                       ids: seq<Id>, order: seq<Id>, k: nat)
    requires QuietStarts(world) && QuietUntil(world, k) && k <= |order|
    requires ExecutionOrder(ids, edges, order) && forall v :: v in order ==> v in NodeMap(nodes)
    ensures var run := RunAlong(world, NodeMap(nodes), edges, trigger, control, order[..k]);
      !run.mode.Aborted? && AccountedAlong(run, order[..k]) && |run.steps| == k
  {
    PrefixAccounted(world, NodeMap(nodes), edges, trigger, control, order, k);
    hide RunAlong;
  }

  /** How quiet the reports have to be: of a run of `n` nodes whose start hooks do not throw, the steps are those of
      the nodes exactly if no report before the last one throws, and the last one does so only for a node that is not
      skipped in its own turn. */
  lemma StepsNeedQuietReports(world: World, nodes: seq<Node>, edges: seq<Edge>, trigger: Fields, control: Control,
                              ids: seq<Id>, order: seq<Id>)
    requires QuietStarts(world) && |order| > 0
    requires ExecutionOrder(ids, edges, order) && forall v :: v in order ==> v in NodeMap(nodes)
    ensures var n := |order|;
      var before := RunAlong(world, NodeMap(nodes), edges, trigger, control, order[..n - 1]);
      StepsAre(RunAlong(world, NodeMap(nodes), edges, trigger, control, order).steps, order) <==>
        && QuietUntil(world, n - 1)
        && (world.completeThrows(n - 1) ==> !SkippedInTurn(world, edges, before, NodeMap(nodes)[order[n - 1]]))
  {
    var n := |order|;
    assert order[..n] == order;
    if QuietUntil(world, n - 1) {
      LastReport(world, nodes, edges, trigger, control, ids, order);
    } else {
      var k := FirstThrow(world, n - 1);
      PrefixHasSteps(world, nodes, edges, trigger, control, ids, order, k);
      var run := RunAlong(world, NodeMap(nodes), edges, trigger, control, order[..k]);
      EarlyThrowSpoils(world, NodeMap(nodes), edges, trigger, run, order, k);
      assert order[..k + 1][..k] == order[..k];
      SpoiledStays(world, NodeMap(nodes), edges, trigger, control, order, k + 1, n);
      hide RunAlong;
      hide Advance;
    }
  }

  lemma FirstThrow(world: World, n: nat) returns (k: nat)
    requires !QuietUntil(world, n)
    ensures k < n && world.completeThrows(k) && QuietUntil(world, k)
  {
    k := 0;
    while !world.completeThrows(k)
      invariant k < n && QuietUntil(world, k)
      decreases n - k
    {
      k := k + 1;
    }
  }

  lemma LastReport(world: World, nodes: seq<Node>, edges: seq<Edge>, trigger: Fields, control: Control,
                   ids: seq<Id>, order: seq<Id>)
    requires QuietStarts(world) && |order| > 0 && QuietUntil(world, |order| - 1)
    requires ExecutionOrder(ids, edges, order) && forall v :: v in order ==> v in NodeMap(nodes)
    ensures var n := |order|;
      var before := RunAlong(world, NodeMap(nodes), edges, trigger, control, order[..n - 1]);
      StepsAre(RunAlong(world, NodeMap(nodes), edges, trigger, control, order).steps, order) <==>
        (world.completeThrows(n - 1) ==> !SkippedInTurn(world, edges, before, NodeMap(nodes)[order[n - 1]]))
  {
    var n := |order|;
    assert order[..n] == order;
    PrefixHasSteps(world, nodes, edges, trigger, control, ids, order, n - 1);
    var before := RunAlong(world, NodeMap(nodes), edges, trigger, control, order[..n - 1]);
    if world.completeThrows(n - 1) {
      ThrowingReport(world, NodeMap(nodes), edges, trigger, before, order[n - 1]);
      var r := Advance(world, NodeMap(nodes), edges, trigger, before, order[n - 1]);
      assert r == RunAlong(world, NodeMap(nodes), edges, trigger, control, order);
      hide *;
      LastStep(world, edges, before, r, NodeMap(nodes)[order[n - 1]], order);
    } else {
      PrefixHasSteps(world, nodes, edges, trigger, control, ids, order, n);
    }
  }

  lemma LastStep(world: World, edges: seq<Edge>, before: Run, r: Run, node: Node, order: seq<Id>)
    requires |order| > 0 && AccountedAlong(before, order[..|order| - 1]) && |before.steps| == |order| - 1
    requires if SkippedInTurn(world, edges, before, node) then |r.steps| == |order| + 1
             else && |r.steps| == |order| && r.steps[..|order| - 1] == before.steps
                  && r.steps[|order| - 1].nodeId == order[|order| - 1]
    ensures StepsAre(r.steps, order) <==> !SkippedInTurn(world, edges, before, node)
  {
    hide SkippedInTurn;
    hide Accounted;
    var n := |order|;
    assert forall i :: 0 <= i < n - 1 && r.steps[..n - 1] == before.steps ==> r.steps[i] == before.steps[i];
  }

  const NODE_A := Node("a", "", map[])
  const NODE_B := Node("b", "", map[])
  const EDGE_AB := Edge("", "a", "b", Bool(true))

  /** It happens: the edge from the first node to the second does not match, and the second report throws. */
  lemma ThrowingSkipReportDoublesStep()
    ensures Topological(["a", "b"], [EDGE_AB]) && NodeMap([NODE_A, NODE_B]) == map["a" := NODE_A, "b" := NODE_B]
    ensures var nodes := map["a" := NODE_A, "b" := NODE_B];
      RunAlong(SecondReportThrows(), nodes, [EDGE_AB], map[], FEW_LIMITS, ["a", "b"]).steps
      == [Step("a", Completed, map[], Some(map[]), [AttemptCompleted])]
         + [SkippedStep("b"), Step("b", Failed, map[], None, [])]
  {
    TwoNodes();
    RunDoublesStep();
  }

  lemma TwoNodes()
    ensures Topological(["a", "b"], [EDGE_AB]) && NodeMap([NODE_A, NODE_B]) == map["a" := NODE_A, "b" := NODE_B]
  {
    assert [NODE_A, NODE_B][..1] == [NODE_A] && NodeMap([NODE_A]) == map["a" := NODE_A];
    IndexOfAt(["a", "b"], 0);
    IndexOfAt(["a", "b"], 1);
  }

  lemma RunDoublesStep()
    ensures var nodes := map["a" := NODE_A, "b" := NODE_B];
      RunAlong(SecondReportThrows(), nodes, [EDGE_AB], map[], FEW_LIMITS, ["a", "b"]).steps
      == [Step("a", Completed, map[], Some(map[]), [AttemptCompleted])]
         + [SkippedStep("b"), Step("b", Failed, map[], None, [])]
  {
    FirstNodeRuns(SecondReportThrows(), NODE_A, EDGE_AB);
    hide *;
    RunOfTwo(SecondReportThrows(), map["a" := NODE_A, "b" := NODE_B], [EDGE_AB], "a", "b");
    SecondNodeIsDoubled(SecondReportThrows(),
                        RunNode(SecondReportThrows(), [EDGE_AB], map[], InitialRun(FEW_LIMITS), NODE_A),
                        NODE_B, EDGE_AB);
  }

  lemma RunOfTwo(world: World, nodes: map<Id, Node>, edges: seq<Edge>, a: Id, b: Id)
    requires a in nodes && b in nodes
    requires RunNode(world, edges, map[], InitialRun(FEW_LIMITS), nodes[a]).mode.Going?
    ensures RunAlong(world, nodes, edges, map[], FEW_LIMITS, [a, b])
         == RunNode(world, edges, map[], RunNode(world, edges, map[], InitialRun(FEW_LIMITS), nodes[a]), nodes[b])
  {
    hide RunNode;
    assert [a, b][..1] == [a] && [a][..0] == [];
    assert RunAlong(world, nodes, edges, map[], FEW_LIMITS, [a])
        == RunNode(world, edges, map[], InitialRun(FEW_LIMITS), nodes[a]);
  }

  const FEW_LIMITS := Control(0, 0, 0, 0, false)

  /** Nodes complete at once with an empty output; the second report throws. */
  function SecondReportThrows(): World {
    World(node => true, (id, input) => Plain, (n, id, input) => Returned(map[], NO_PATCH, false),
          n => false, n => n == 1)
  }

  lemma FirstNodeRuns(world: World, a: Node, e: Edge)
    requires world == SecondReportThrows() && a.config == map[] && e.target != a.id
    ensures var r := RunNode(world, [e], map[], InitialRun(FEW_LIMITS), a);
      && r.mode.Going? && r.steps == [Step(a.id, Completed, map[], Some(map[]), [AttemptCompleted])]
      && r.outputs == map[a.id := map[]] && r.reports == 1
  {
    assert [e][..0] == [] && Incoming([e], a.id) == [];
    OneAttempt(world, a, InitialRun(FEW_LIMITS));
    hide AllAttempts;
  }

  lemma SecondNodeIsDoubled(world: World, run: Run, b: Node, e: Edge)
    requires world == SecondReportThrows() && run.mode.Going? && run.reports == 1
    requires e.target == b.id && e.condition == Bool(true)
    requires e.source in run.outputs && run.outputs[e.source] == map[]
    ensures RunNode(world, [e], map[], run, b).steps
         == run.steps + [SkippedStep(b.id), Step(b.id, Failed, map[], None, [])]
  {
    assert [e][..0] == [] && Incoming([e], b.id) == [e];
    NoDecision();
    assert !Carries(e, run.outputs);
    assert run.steps + [SkippedStep(b.id)] + [Step(b.id, Failed, map[], None, [])]
        == run.steps + [SkippedStep(b.id), Step(b.id, Failed, map[], None, [])];
  }

  lemma NoDecision()
    ensures Decision(map[]) == None
  {
  }

  lemma OneAttempt(world: World, node: Node, run: Run)
    requires node.config == map[] && run.control == FEW_LIMITS
    requires world.execute(run.calls, node.id, map[]) == Returned(map[], NO_PATCH, false)
    ensures var a := AllAttempts(world, NodeRetryPolicy(node.config), node.id, map[],
                                 Attempts(0, [], run.control, run.calls, Trying));
      a.verdict == Produced(map[]) && a.records == [AttemptCompleted] && a.control == run.control
  {
  }
}
