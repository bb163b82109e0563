/** The executor of workflows: wave by wave, with skipping, retries, control limits and hooks that may throw. */
module Executor {
  import opened Values
  import opened Graph
  import opened Branching
  import opened ExecutionState
  import opened Engine
  import DagValidator
  import Waves

  class WorkflowRun {
    const world: World
    const nodes: map<Id, Node>
    const edges: seq<Edge>
    const trigger: Fields
    const context: ExecutionContext
    var steps: seq<Step>
    var outputMap: map<Id, Fields>
    var finalStatus: ExecutionStatus
    var calls: nat
    var starts: nat
    var reports: nat

    constructor (world: World, nodes: map<Id, Node>, edges: seq<Edge>, trigger: Fields, context: ExecutionContext)
      ensures this.world == world && this.nodes == nodes && this.edges == edges
      ensures this.trigger == trigger && this.context == context
      ensures Snapshot(Going) == InitialRun(context.control)
    {
      this.world, this.nodes, this.edges, this.trigger, this.context := world, nodes, edges, trigger, context;
      steps, outputMap, finalStatus := [], map[], RunCompleted;
      calls, starts, reports := 0, 0, 0;
    }

    /** The state as the specification sees it; an exception under way counts as caught. */
    ghost function Snapshot(mode: Mode): Run
      reads this, context
    {
      var run := Run(steps, outputMap, context.control, finalStatus, mode, calls, starts, reports);
      if mode.Aborted? then Abort(run) else run
    }

    method ReportStep(step: Step, ghost mode: Mode) returns (threw: bool)
      requires !mode.Aborted?
      modifies this`steps, this`reports
      ensures Snapshot(if threw then Aborted else mode) == Report(world, old(Snapshot(mode)), step)
      ensures steps == old(steps) + [step] && reports == old(reports) + 1
      ensures threw == world.completeThrows(old(reports))
    {
      steps := steps + [step];
      threw := world.completeThrows(reports);
      reports := reports + 1;
    }

    /** The catch block of the retry loop; `again` tells whether the loop goes on. */
    method CatchAttempt(policy: RetryPolicy, attempt: nat, soFar: seq<AttemptRecord>)
      returns (records: seq<AttemptRecord>, again: bool)
      modifies context`control
      ensures AfterError(policy, Attempts(attempt, soFar, old(context.control), calls, Trying))
           == Attempts(attempt, records, context.control, calls, if again then Trying else GaveUp)
    {
      records := soFar + [AttemptFailed];
      if policy.enabled && policy.retryOnError && attempt < policy.maxAttempts {
        var limitViolation := context.RegisterNodeRetry(false);
        again := !limitViolation;
      } else {
        again := false;
      }
    }

    /** The retry loop of one node. */
    method RunAttempts(policy: RetryPolicy, id: Id, input: Fields)
      returns (finalOutput: Option<Fields>, attempts: seq<AttemptRecord>)
      modifies this`calls, context`control
      ensures var a := AllAttempts(world, policy, id, input, Attempts(0, [], old(context.control), old(calls), Trying));
        && calls == a.calls && context.control == a.control && attempts == a.records
        && finalOutput == if a.verdict.Produced? then Some(a.verdict.data) else None
    {
      hide Patched;
      hide LimitBroken;
      attempts := [];
      finalOutput := None;
      var attempt := 0;
      ghost var start := Attempts(0, [], context.control, calls, Trying);
      ghost var now := start;
      while attempt < policy.maxAttempts
        invariant now == Attempts(attempt, attempts, context.control, calls, Trying)
        invariant finalOutput == None
        invariant AllAttempts(world, policy, id, input, now) == AllAttempts(world, policy, id, input, start)
        decreases policy.maxAttempts - attempt
      {
        now := Attempt(world, policy, id, input, now);
        attempt := attempt + 1;
        var reply := world.execute(calls, id, input);
        calls := calls + 1;
        context.PatchControl(reply.patch);
        var again := false;
        if reply.Threw? {
          attempts, again := CatchAttempt(policy, attempt, attempts);
        } else if policy.enabled && policy.retryOnDirective && reply.retry && attempt < policy.maxAttempts {
          var limitViolation := context.RegisterNodeRetry(policy.incrementLoopOnRetry);
          attempts := attempts + [AttemptRetry];
          again := true;
          if limitViolation {
            attempts, again := CatchAttempt(policy, attempt, attempts);
          }
        } else if policy.enabled && policy.retryOnDirective && reply.retry && policy.failOnMaxAttempts {
          attempts, again := CatchAttempt(policy, attempt, attempts);
        } else {
          attempts := attempts + [AttemptCompleted];
          finalOutput := Some(reply.data);
        }
        if !again {
          return;
        }
      }
    }

    /** The catch block of a node: the run fails and its remaining nodes are skipped. */
    method CatchNode(id: Id, input: Fields, attempts: seq<AttemptRecord>) returns (mode: Mode)
      modifies this`steps, this`reports, this`finalStatus, context`control
      ensures Snapshot(mode) == FailNode(world, old(Snapshot(Going)), id, input, attempts)
      ensures steps == old(steps) + [Step(id, Failed, input, None, attempts)] && finalStatus == RunFailed
      ensures context.control.terminate && context.control.retryCount == old(context.control.retryCount) + 1
      ensures !mode.Going?
    {
      finalStatus := RunFailed;
      context.PatchControl(NO_PATCH.(terminate := Some(true), retryCount := Some(context.control.retryCount + 1)));
      var threw := ReportStep(Step(id, Failed, input, None, attempts), Ending);
      mode := if threw then Aborted else Ending;
    }

    method SkipStep(id: Id) returns (mode: Mode)
      modifies this`steps, this`reports, this`finalStatus, context`control
      ensures Snapshot(mode) == SkipNode(world, old(Snapshot(Going)), id)
    {
      var threw := ReportStep(SkippedStep(id), Going);
      mode := Going;
      if threw {
        mode := CatchNode(id, map[], []);
      }
    }

    method ExecuteStep(node: Node, input: Fields) returns (mode: Mode)
      modifies this`steps, this`reports, this`finalStatus, this`outputMap, this`calls, context`control
      ensures Snapshot(mode) == Engine.ExecuteNode(world, old(Snapshot(Going)), node, input)
    {
      hide AllAttempts;
      hide NodeRetryPolicy;
      hide FailNode;
      var finalOutput, attempts := RunAttempts(NodeRetryPolicy(node.config), node.id, input);
      if finalOutput.None? {
        mode := CatchNode(node.id, input, attempts);
        return;
      }
      outputMap := outputMap[node.id := finalOutput.value];
      var threw := ReportStep(Step(node.id, Completed, input, finalOutput, attempts), Going);
      if threw {
        return Aborted;
      }
      if LimitBroken(context.control) {
        finalStatus := RunFailed;
        context.PatchControl(NO_PATCH.(terminate := Some(true)));
        return Ending;
      }
      return if context.control.terminate then Ending else Going;
    }

    /** One turn of the node loop. */
    method Turn(node: Node) returns (mode: Mode)
      modifies this, context`control
      ensures Snapshot(mode) == RunNode(world, edges, trigger, old(Snapshot(Going)), node)
    {
      hide ExecuteNode;
      hide SkipNode;
      hide FailNode;
      hide Resolution;
      var stopped := world.startThrows(starts);
      starts := starts + 1;
      if stopped {
        return Aborted;
      }
      if !world.configured(node) {
        mode := CatchNode(node.id, map[], []);
        return;
      }
      var parentResolution := ResolveParentOutputs(node.id, edges, outputMap);
      if parentResolution.skipNode {
        mode := SkipStep(node.id);
        return;
      }
      var input := trigger + parentResolution.merged;
      match world.prepare(node.id, input) {
        case RetrievalFailed => mode := CatchNode(node.id, map[], []);
        case Injected(key, payload) => mode := ExecuteStep(node, input[key := payload]);
        case Plain => mode := ExecuteStep(node, input);
      }
    }

    /** Skips everything behind `fromNodeId` in the execution order. */
    method AppendSkippedSteps(order: seq<Id>, fromNodeId: Id, ghost control: Control) returns (threw: bool)
      requires fromNodeId in order && forall v :: v in order ==> v in nodes
      requires Snapshot(Ending)
          == RunAlong(world, nodes, edges, trigger, control, order[..IndexOf(order, fromNodeId) + 1])
      modifies this`steps, this`reports
      ensures Snapshot(if threw then Aborted else Ending) == RunAlong(world, nodes, edges, trigger, control, order)
    {
      hide RunAlong;
      hide IndexOf;
      var i := IndexOf(order, fromNodeId) + 1;
      while i < |order|
        invariant 0 <= i <= |order|
        invariant Snapshot(Ending) == RunAlong(world, nodes, edges, trigger, control, order[..i])
      {
        RunOneMore(world, nodes, edges, trigger, control, order, i);
        threw := ReportStep(SkippedStep(order[i]), Ending);
        i := i + 1;
        if threw {
          AbortedStays(world, nodes, edges, trigger, control, order, i);
          return;
        }
      }
      assert order[..i] == order;
      threw := false;
    }

    /** The wave loop: runs the nodes wave by wave, and leaves the remaining ones to the execution order when a
        node ends the run. */
    method RunWaves(ghost ids: seq<Id>, order: seq<Id>) returns (mode: Mode)
      requires ExecutionOrder(ids, edges, order) && forall v :: v in order ==> v in nodes
      requires Snapshot(Going) == InitialRun(context.control)
      modifies this, context`control
      ensures Snapshot(mode) == RunAlong(world, nodes, edges, trigger, old(context.control), order)
    {
      hide RunAlong;
      hide RunNode;
      hide Advance;
      hide ExecutionOrder;
      hide Waves.Concat;
      hide Waves.GroupedByLevel;
      ghost var control := context.control;
      var executionWaves, keys := Waves.BuildExecutionWaves(order, edges);
      Waves.WavesAreExecutionOrder(ids, edges, order, executionWaves, keys);
      mode := Going;
      ghost var n := 0;
      RunNothing(world, nodes, edges, trigger, control, order);
      for waveIndex := 0 to |executionWaves|
        invariant n == |Waves.Concat(executionWaves[..waveIndex])| <= |order|
        invariant mode == Going
        invariant Snapshot(Going) == RunAlong(world, nodes, edges, trigger, control, order[..n])
      {
        var waveNodeIds := executionWaves[waveIndex];
        for i := 0 to |waveNodeIds|
          invariant n == |Waves.Concat(executionWaves[..waveIndex])| + i <= |order|
          invariant mode == Going
          invariant Snapshot(Going) == RunAlong(world, nodes, edges, trigger, control, order[..n])
        {
          ConcatAt(executionWaves, waveIndex, i);
          var nodeId := waveNodeIds[i];
          assert order[n] == nodeId;
          RunOneMore(world, nodes, edges, trigger, control, order, n);
          mode := Turn(nodes[nodeId]);
          n := n + 1;
          if mode == Ending {
            PositionOf(ids, edges, order, n - 1);
            var threw := AppendSkippedSteps(order, nodeId, control);
            return if threw then Aborted else Ending;
          }
          if mode == Aborted {
            AbortedStays(world, nodes, edges, trigger, control, order, n);
            return;
          }
        }
        ConcatNext(executionWaves, waveIndex);
      }
      assert executionWaves[..|executionWaves|] == executionWaves;
      assert order[..n] == order;
    }

    /** The outer catch block. */
    method Catch()
      modifies this`finalStatus, context`control
      ensures finalStatus == RunFailed && context.control == old(context.control).(terminate := true)
    {
      finalStatus := RunFailed;
      context.PatchControl(NO_PATCH.(terminate := Some(true)));
    }
  }

  lemma RunNothing(world: World, nodes: map<Id, Node>, edges: seq<Edge>, trigger: Fields,
                   control: Control, order: seq<Id>)
    requires forall v :: v in order ==> v in nodes
    ensures RunAlong(world, nodes, edges, trigger, control, order[..0]) == InitialRun(control)
    ensures Waves.Concat([]) == []
  {
  }

  lemma PositionOf(ids: seq<Id>, edges: seq<Edge>, order: seq<Id>, n: nat)
    requires ExecutionOrder(ids, edges, order) && n < |order|
    ensures IndexOf(order, order[n]) == n
  {
    IndexOfAt(order, n);
  }

  lemma ConcatNext(waves: seq<seq<Id>>, w: nat)
    requires w < |waves|
    ensures Waves.Concat(waves[..w + 1]) == Waves.Concat(waves[..w]) + waves[w]
  {
    assert waves[..w + 1][..w] == waves[..w];
  }

  lemma RunOneMore(world: World, nodes: map<Id, Node>, edges: seq<Edge>, trigger: Fields,
                   control: Control, order: seq<Id>, n: nat)
    requires n < |order| && forall v :: v in order ==> v in nodes
    ensures RunAlong(world, nodes, edges, trigger, control, order[..n + 1])
         == Advance(world, nodes, edges, trigger, RunAlong(world, nodes, edges, trigger, control, order[..n]), order[n])
    ensures RunAlong(world, nodes, edges, trigger, control, order[..n]).mode.Going? ==>
      RunAlong(world, nodes, edges, trigger, control, order[..n + 1])
        == RunNode(world, edges, trigger, RunAlong(world, nodes, edges, trigger, control, order[..n]), nodes[order[n]])
  {
    assert order[..n + 1][..n] == order[..n];
  }

  /** Nothing happens after an exception has left the node loop. */
  lemma {:induction false} AbortedStays(world: World, nodes: map<Id, Node>, edges: seq<Edge>, trigger: Fields,
                                        control: Control, order: seq<Id>, n: nat)
    requires n <= |order| && forall v :: v in order ==> v in nodes
    requires RunAlong(world, nodes, edges, trigger, control, order[..n]).mode.Aborted?
    ensures RunAlong(world, nodes, edges, trigger, control, order)
         == RunAlong(world, nodes, edges, trigger, control, order[..n])
  {
    if n == |order| {
      assert order[..n] == order;
    } else {
      var init := order[..|order| - 1];
      assert init[..n] == order[..n];
      AbortedStays(world, nodes, edges, trigger, control, init, n);
    }
  }

  /** The first `n` elements of the concatenation are the waves before wave `w` and the first `i` nodes of it. */
  lemma {:induction false} ConcatAt(waves: seq<seq<Id>>, w: nat, i: nat)
    requires w < |waves| && i < |waves[w]|
    ensures |Waves.Concat(waves[..w])| + i < |Waves.Concat(waves)|
    ensures Waves.Concat(waves)[|Waves.Concat(waves[..w])| + i] == waves[w][i]
  {
    var m := |waves| - 1;
    if w < m {
      assert waves[..m][..w] == waves[..w];
      ConcatAt(waves[..m], w, i);
    }
  }

  /** Executes a workflow. The steps that are recorded, their outputs, the control record and the status are those of
      the specification along the one execution order; an invalid graph runs nothing and fails. */
  method ExecuteWorkflow(world: World, nodes: seq<Node>, edges: seq<Edge>, trigger: Fields, context: ExecutionContext)
    returns (run: WorkflowRun, ghost order: seq<Id>, ghost mode: Mode)
    modifies context`control
    ensures fresh(run) && run.context == context
    ensures ValidGraph(nodes, edges) ==>
      && ExecutionOrder(DagValidator.NodeIds(nodes), edges, order)
      && (forall v :: v in order ==> v in NodeMap(nodes))
      && run.Snapshot(mode) == RunAlong(world, NodeMap(nodes), edges, trigger, old(context.control), order)
      && (mode.Aborted? ==> run.finalStatus == RunFailed && context.control.terminate)
    ensures !ValidGraph(nodes, edges) ==>
      && order == [] && mode == Aborted
      && run.Snapshot(mode) == Abort(InitialRun(old(context.control)))
      && run.finalStatus == RunFailed && context.control.terminate
  {
    run := new WorkflowRun(world, NodeMap(nodes), edges, trigger, context);
    mode := Aborted;
    order := [];
    var dagResult := DagValidator.ValidateDag(nodes, edges);
    if !dagResult.valid {
      run.Catch();
      return;
    }
    order := dagResult.executionOrder;
    var left := run.RunWaves(DagValidator.NodeIds(nodes), dagResult.executionOrder);
    mode := left;
    if left == Aborted {
      run.Catch();
    }
  }
}
