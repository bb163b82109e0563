/** What the recorded steps contain: the input a node received, and the output it really returned. */
module StepContents {
  import opened Values
  import opened Graph
  import opened Branching
  import opened ExecutionState
  import opened Engine
  import Reachability
  import Retries

  /** The trigger's fields below those the parents give, with what retrieval injects. */
  ghost predicate IsInput(world: World, edges: seq<Edge>, trigger: Fields, outputs: map<Id, Fields>, id: Id,
                          input: Fields) {
    var given := Resolution(id, edges, outputs).merged;
    exists base: Fields ::
      && (forall k :: k in base <==> k in given || k in trigger)
      && (forall k :: k in base ==> base[k] == if k in given then given[k] else trigger[k])
      && Prepares(world, id, base, input)
  }

  ghost predicate Prepares(world: World, id: Id, base: Fields, input: Fields) {
    match world.prepare(id, base)
    case Plain => input == base
    case Injected(key, payload) =>
      && (forall k :: k in input <==> k in base || k == key)
      && forall k :: k in input ==> input[k] == if k == key then payload else base[k]
    case RetrievalFailed => false
  }

  /** The `n`-th call of the run returned this output. */
  ghost predicate Returns(world: World, n: nat, id: Id, input: Fields, output: Fields) {
    world.execute(n, id, input).Returned? && world.execute(n, id, input).data == output
  }

  /** A step and what stands behind it. */
  ghost predicate IsBacked(world: World, edges: seq<Edge>, trigger: Fields, run: Run, step: Step) {
    match step.status
    case Completed =>
      && step.output.Some? && step.nodeId in run.outputs && run.outputs[step.nodeId] == step.output.value
      && IsInput(world, edges, trigger, run.outputs, step.nodeId, step.input)
      && exists n: nat :: n < run.calls && Returns(world, n, step.nodeId, step.input, step.output.value)
    case Failed =>
      && step.output == None && step.nodeId !in run.outputs
      && (if step.records == [] then step.input == map[]
          else IsInput(world, edges, trigger, run.outputs, step.nodeId, step.input))
    case Skipped =>
      step.input == map[] && step.output == None && step.records == [] && step.nodeId !in run.outputs
  }

  /** The run after some nodes: its steps are backed, and outputs and steps are of these nodes. */
  ghost predicate Backed(world: World, edges: seq<Edge>, trigger: Fields, run: Run, done: seq<Id>) {
    && (forall v :: v in run.outputs ==> v in done)
    && (forall i :: 0 <= i < |run.steps| ==>
         run.steps[i].nodeId in done && IsBacked(world, edges, trigger, run, run.steps[i]))
  }

  // ----- one node

  /** What one more node adds to the run: its own steps, and its output if it completed. */
  ghost predicate Adds(world: World, edges: seq<Edge>, trigger: Fields, run: Run, r: Run, id: Id) {
    && r.calls >= run.calls
    && |run.steps| <= |r.steps| && r.steps[..|run.steps|] == run.steps
    && (r.outputs == run.outputs || (id in r.outputs && r.outputs == run.outputs[id := r.outputs[id]]))
    && forall i :: |run.steps| <= i < |r.steps| ==>
         r.steps[i].nodeId == id && AddsStep(world, edges, trigger, run, r, i)
  }

  ghost predicate AddsStep(world: World, edges: seq<Edge>, trigger: Fields, run: Run, r: Run, i: nat) {
    && i < |r.steps|
    && var step := r.steps[i];
    match step.status
    case Completed =>
      && step.output.Some? && step.nodeId in r.outputs && r.outputs[step.nodeId] == step.output.value
      && IsInput(world, edges, trigger, run.outputs, step.nodeId, step.input)
      && exists n: nat :: n < r.calls && Returns(world, n, step.nodeId, step.input, step.output.value)
    case Failed =>
      && step.output == None && r.outputs == run.outputs
      && (if step.records == [] then step.input == map[]
          else IsInput(world, edges, trigger, run.outputs, step.nodeId, step.input))
    case Skipped => step.input == map[] && step.output == None && step.records == [] && r.outputs == run.outputs
  }

  lemma FailNodeAdds(world: World, edges: seq<Edge>, trigger: Fields, run: Run, id: Id)
    ensures Adds(world, edges, trigger, run, FailNode(world, run, id, map[], []), id)
  {
    hide IsInput;
  }

  lemma SkipNodeAdds(world: World, edges: seq<Edge>, trigger: Fields, run: Run, id: Id)
    ensures Adds(world, edges, trigger, run, SkipNode(world, run, id), id)
  {
    hide IsInput;
  }

  lemma FailureAdds(world: World, edges: seq<Edge>, trigger: Fields, run: Run, after: Run, id: Id, input: Fields,
                    records: seq<AttemptRecord>)
    requires IsInput(world, edges, trigger, run.outputs, id, input)
    requires after.steps == run.steps && after.outputs == run.outputs && after.calls >= run.calls && records != []
    ensures Adds(world, edges, trigger, run, FailNode(world, after, id, input, records), id)
  {
    hide IsInput;
  }

  lemma CompletionAdds(world: World, edges: seq<Edge>, trigger: Fields, run: Run, after: Run, id: Id, input: Fields,
                       data: Fields, records: seq<AttemptRecord>, n: nat)
    requires IsInput(world, edges, trigger, run.outputs, id, input)
    requires after.steps == run.steps && after.outputs == run.outputs[id := data] && after.calls >= run.calls
    requires n < after.calls && Returns(world, n, id, input, data)
    ensures Adds(world, edges, trigger, run,
                 AfterCompletion(Report(world, after, Step(id, Completed, input, Some(data), records))), id)
  {
    hide IsInput;
    hide Returns;
    hide LimitBroken;
  }

  lemma ExecuteNodeAdds(world: World, edges: seq<Edge>, trigger: Fields, run: Run, node: Node, input: Fields)
    requires IsInput(world, edges, trigger, run.outputs, node.id, input)
    ensures Adds(world, edges, trigger, run, ExecuteNode(world, run, node, input), node.id)
  {
    var a := AllAttempts(world, NodeRetryPolicy(node.config), node.id, input,
                         Attempts(0, [], run.control, run.calls, Trying));
    Retries.AttemptsMean(world, node, input, run.control, run.calls);
    assert a.verdict.Produced? ==> Returns(world, a.calls - 1, node.id, input, a.verdict.data);
    assert a.calls > run.calls && a.records != [];
    hide AllAttempts;
    hide NodeRetryPolicy;
    hide IsInput;
    hide Returns;
    hide Adds;
    hide AfterCompletion;
    hide Report;
    hide FailNode;
    hide Retries.Ended;
    var after := run.(control := a.control, calls := a.calls);
    if a.verdict.Produced? {
      CompletionAdds(world, edges, trigger, run, after.(outputs := after.outputs[node.id := a.verdict.data]), node.id,
                     input, a.verdict.data, a.records, a.calls - 1);
    } else {
      FailureAdds(world, edges, trigger, run, after, node.id, input, a.records);
    }
  }

  lemma RunNodeAdds(world: World, edges: seq<Edge>, trigger: Fields, run: Run, node: Node)
    ensures Adds(world, edges, trigger, run, RunNode(world, edges, trigger, run, node), node.id)
  {
    hide IsInput;
    hide ExecuteNode;
    hide FailNode;
    hide SkipNode;
    hide Resolution;
    hide AddsStep;
    var started := run.(starts := run.starts + 1);
    var r := RunNode(world, edges, trigger, run, node);
    var parents := Resolution(node.id, edges, started.outputs);
    if world.startThrows(run.starts) {
      assert Adds(world, edges, trigger, started, r, node.id);
    } else if !world.configured(node) {
      FailNodeAdds(world, edges, trigger, started, node.id);
    } else if parents.skipNode {
      SkipNodeAdds(world, edges, trigger, started, node.id);
    } else {
      var base := trigger + parents.merged;
      match world.prepare(node.id, base) {
        case RetrievalFailed => FailNodeAdds(world, edges, trigger, started, node.id);
        case Injected(key, payload) =>
          InputIs(world, edges, trigger, run.outputs, node.id, base[key := payload]);
          ExecuteNodeAdds(world, edges, trigger, started, node, base[key := payload]);
        case Plain =>
          InputIs(world, edges, trigger, run.outputs, node.id, base);
          ExecuteNodeAdds(world, edges, trigger, started, node, base);
      }
    }
    hide RunNode;
    StartedAdds(world, edges, trigger, run, started, r, node.id);
  }

  lemma StartedAdds(world: World, edges: seq<Edge>, trigger: Fields, run: Run, started: Run, r: Run, id: Id)
    requires started == run.(starts := run.starts + 1) && Adds(world, edges, trigger, started, r, id)
    ensures Adds(world, edges, trigger, run, r, id)
  {
    hide IsInput;
    forall i | |run.steps| <= i < |r.steps| ensures AddsStep(world, edges, trigger, run, r, i) {
      assert AddsStep(world, edges, trigger, started, r, i);
    }
  }

  lemma InputIs(world: World, edges: seq<Edge>, trigger: Fields, outputs: map<Id, Fields>, id: Id, input: Fields)
    requires var base := trigger + Resolution(id, edges, outputs).merged;
      match world.prepare(id, base)
      case Plain => input == base
      case Injected(key, payload) => input == base[key := payload]
      case RetrievalFailed => false
    ensures IsInput(world, edges, trigger, outputs, id, input)
  {
    var base := trigger + Resolution(id, edges, outputs).merged;
    hide Resolution;
    assert Prepares(world, id, base, input);
  }

  // ----- the whole run

  /** Later nodes leave earlier steps as they are. */
  lemma StillBacked(world: World, edges: seq<Edge>, trigger: Fields, run: Run, r: Run, step: Step, order: seq<Id>,
                    i: nat, n: nat)
    requires Distinct(order) && Topological(order, edges) && i < n < |order| && step.nodeId == order[i]
    requires IsBacked(world, edges, trigger, run, step) && r.calls >= run.calls
    requires r.outputs == run.outputs
          || (order[n] in r.outputs && r.outputs == run.outputs[order[n] := r.outputs[order[n]]])
    ensures IsBacked(world, edges, trigger, r, step)
  {
    Reachability.NotAParent(order, edges, i, n);
    ResolutionDependsOnParents(order[i], edges, run.outputs, r.outputs);
    assert order[i] != order[n];
    hide Resolution;
    hide Returns;
    hide Prepares;
  }

  /** The node's own steps: its own output is no input of it. */
  lemma NewStepBacked(world: World, edges: seq<Edge>, trigger: Fields, run: Run, r: Run, order: seq<Id>, n: nat, i: nat)
    requires Distinct(order) && Topological(order, edges) && n < |order| && order[n] !in run.outputs
    requires Adds(world, edges, trigger, run, r, order[n]) && |run.steps| <= i < |r.steps|
    ensures IsBacked(world, edges, trigger, r, r.steps[i])
  {
    Reachability.NotAParent(order, edges, n, n);
    ResolutionDependsOnParents(order[n], edges, run.outputs, r.outputs);
    assert r.steps[i].nodeId == order[n] && AddsStep(world, edges, trigger, run, r, i);
    hide Resolution;
    hide Returns;
    hide Prepares;
  }

  lemma OneMoreBacked(world: World, edges: seq<Edge>, trigger: Fields, run: Run, r: Run, order: seq<Id>, n: nat)
    requires Distinct(order) && Topological(order, edges) && n < |order|
    requires Backed(world, edges, trigger, run, order[..n]) && Adds(world, edges, trigger, run, r, order[n])
    ensures Backed(world, edges, trigger, r, order[..n + 1])
  {
    assert order[..n + 1] == order[..n] + [order[n]];
    assert order[n] !in order[..n];
    hide IsBacked;
    hide AddsStep;
    hide Topological;
    forall i | 0 <= i < |r.steps|
      ensures r.steps[i].nodeId in order[..n + 1] && IsBacked(world, edges, trigger, r, r.steps[i])
    {
      if i < |run.steps| {
        assert r.steps[i] == r.steps[..|run.steps|][i] == run.steps[i];
        var k :| 0 <= k < n && order[..n][k] == run.steps[i].nodeId;
        StillBacked(world, edges, trigger, run, r, r.steps[i], order, k, n);
      } else {
        NewStepBacked(world, edges, trigger, run, r, order, n, i);
      }
    }
  }

  lemma AdvanceAdds(world: World, nodes: map<Id, Node>, edges: seq<Edge>, trigger: Fields, run: Run, id: Id)
    requires id in nodes && nodes[id].id == id
    ensures Adds(world, edges, trigger, run, Advance(world, nodes, edges, trigger, run, id), id)
  {
    RunNodeAdds(world, edges, trigger, run, nodes[id]);
    hide RunNode;
    hide IsInput;
  }

  lemma {:induction false} PrefixBacked(world: World, nodes: map<Id, Node>, edges: seq<Edge>, trigger: Fields,
                                        control: Control, order: seq<Id>, n: nat)
    requires Distinct(order) && Topological(order, edges) && n <= |order|
    requires forall v :: v in order ==> v in nodes && nodes[v].id == v
    ensures Backed(world, edges, trigger, RunAlong(world, nodes, edges, trigger, control, order[..n]), order[..n])
  {
    if n > 0 {
      PrefixBacked(world, nodes, edges, trigger, control, order, n - 1);
      assert order[..n][..n - 1] == order[..n - 1];
      var run := RunAlong(world, nodes, edges, trigger, control, order[..n - 1]);
      assert RunAlong(world, nodes, edges, trigger, control, order[..n])
          == Advance(world, nodes, edges, trigger, run, order[n - 1]);
      hide *;
      AdvanceAdds(world, nodes, edges, trigger, run, order[n - 1]);
      OneMoreBacked(world, edges, trigger, run, Advance(world, nodes, edges, trigger, run, order[n - 1]), order, n - 1);
    }
  }

  /** Of every run, whatever nodes and hooks do: a completed step holds the output that a call of the node returned for
      the recorded input, and that output is the one its successors see; the input is the trigger's fields below those
      that the edges give, with what retrieval injected; failed and skipped nodes have no output. */
  lemma StepsAreBacked(world: World, nodes: seq<Node>, edges: seq<Edge>, trigger: Fields, control: Control,
                       ids: seq<Id>, order: seq<Id>)
    requires ExecutionOrder(ids, edges, order) && forall v :: v in order ==> v in NodeMap(nodes)
    ensures var run := RunAlong(world, NodeMap(nodes), edges, trigger, control, order);
      forall i :: 0 <= i < |run.steps| ==> IsBacked(world, edges, trigger, run, run.steps[i])
  {
    PrefixBacked(world, NodeMap(nodes), edges, trigger, control, order, |order|);
    assert order[..|order|] == order;
    hide RunAlong;
    hide IsBacked;
  }
}
