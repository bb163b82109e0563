/** The output map does not depend on the order in which independent nodes run. */
module Confluence {
  import opened Values
  import opened Graph
  import opened Branching
  import opened ExecutionState
  import opened Engine
  import opened StepAccounting
  import Waves

  /** What a node computes from its merged input. */
  type Behaviour = (Id, Fields) -> Fields

  /** Nodes are functions of their merged input: they never fail, ask for no retry and touch no shared state. */
  ghost predicate PureNodes(world: World, f: Behaviour) {
    && (forall n, id, input :: world.execute(n, id, input) == Returned(f(id, input), NO_PATCH, false))
    && (forall id, input :: world.prepare(id, input) == Plain)
    && (forall node :: world.configured(node))
  }

  /** The outputs after the nodes of `order`, run one after the other. */
  function Outputs(order: seq<Id>, edges: seq<Edge>, trigger: Fields, f: Behaviour): map<Id, Fields> {
    if |order| == 0 then map[]
    else
      var before, v := Outputs(order[..|order| - 1], edges, trigger, f), order[|order| - 1];
      var parents := Resolution(v, edges, before);
      if parents.skipNode then before else before[v := f(v, trigger + parents.merged)]
  }

  /** `outputs` answers for `v` what its parents' outputs demand. */
  ghost predicate AnswersAt(edges: seq<Edge>, trigger: Fields, f: Behaviour, outputs: map<Id, Fields>, v: Id) {
    var parents := Resolution(v, edges, outputs);
    && (v in outputs <==> !parents.skipNode)
    && (v in outputs ==> outputs[v] == f(v, trigger + parents.merged))
  }

  /** `outputs` is a solution of the workflow's equations on `nodes`. */
  ghost predicate Solves(edges: seq<Edge>, trigger: Fields, f: Behaviour, outputs: map<Id, Fields>, nodes: seq<Id>) {
    && (forall v :: v in outputs ==> v in nodes)
    && (forall i :: 0 <= i < |nodes| ==> AnswersAt(edges, trigger, f, outputs, nodes[i]))
  }

  lemma LaterNodeKeepsAnswers(edges: seq<Edge>, trigger: Fields, f: Behaviour, order: seq<Id>, i: nat, n: nat,
                              before: map<Id, Fields>, after: map<Id, Fields>)
    requires Distinct(order) && Topological(order, edges) && i <= n < |order|
    requires forall v :: v != order[n] ==> (v in before <==> v in after) && (v in before ==> before[v] == after[v])
    ensures Resolution(order[i], edges, before) == Resolution(order[i], edges, after)
  {
    IndexOfAt(order, i);
    IndexOfAt(order, n);
    assert forall e :: e in edges && e.target == order[i] ==> e.source != order[n];
    ResolutionDependsOnParents(order[i], edges, before, after);
  }

  /** One more node leaves every other output alone and answers for itself. */
  lemma OneMoreNode(order: seq<Id>, edges: seq<Edge>, trigger: Fields, f: Behaviour, m: nat)
    requires m < |order| && order[m] !in Outputs(order[..m], edges, trigger, f)
    ensures var before, after := Outputs(order[..m], edges, trigger, f), Outputs(order[..m + 1], edges, trigger, f);
      && (forall v :: v != order[m] ==> (v in before <==> v in after) && (v in before ==> before[v] == after[v]))
      && (Resolution(order[m], edges, before) == Resolution(order[m], edges, after)
          ==> AnswersAt(edges, trigger, f, after, order[m]))
  {
    assert order[..m + 1][..m] == order[..m] && order[..m + 1][m] == order[m];
    hide Resolution;
  }

  lemma AnswerKept(edges: seq<Edge>, trigger: Fields, f: Behaviour, order: seq<Id>, i: nat, n: nat,
                   before: map<Id, Fields>, after: map<Id, Fields>)
    requires Distinct(order) && Topological(order, edges) && i < n < |order|
    requires forall v :: v != order[n] ==> (v in before <==> v in after) && (v in before ==> before[v] == after[v])
    requires AnswersAt(edges, trigger, f, before, order[i])
    ensures AnswersAt(edges, trigger, f, after, order[i])
  {
    LaterNodeKeepsAnswers(edges, trigger, f, order, i, n, before, after);
    hide Resolution;
  }

  lemma NotYetOut(edges: seq<Edge>, trigger: Fields, f: Behaviour, before: map<Id, Fields>, order: seq<Id>, m: nat)
    requires Distinct(order) && m < |order| && Solves(edges, trigger, f, before, order[..m])
    ensures order[m] !in before
    ensures forall i :: 0 <= i < m ==> AnswersAt(edges, trigger, f, before, order[i])
  {
    hide AnswersAt;
    forall i | 0 <= i < m ensures AnswersAt(edges, trigger, f, before, order[i]) {
      assert order[..m][i] == order[i];
    }
  }

  lemma SolvesOneMore(edges: seq<Edge>, trigger: Fields, f: Behaviour, before: map<Id, Fields>,
                      after: map<Id, Fields>, nodes: seq<Id>, v: Id)
    requires Solves(edges, trigger, f, before, nodes)
    requires forall u :: u in after ==> u in before || u == v
    requires forall i :: 0 <= i < |nodes| ==> AnswersAt(edges, trigger, f, after, nodes[i])
    requires AnswersAt(edges, trigger, f, after, v)
    ensures Solves(edges, trigger, f, after, nodes + [v])
  {
    hide AnswersAt;
  }

  /** Running along any order that respects the edges solves the equations. */
  lemma {:induction false} OutputsSolve(order: seq<Id>, edges: seq<Edge>, trigger: Fields, f: Behaviour, n: nat)
    requires Distinct(order) && Topological(order, edges) && n <= |order|
    ensures Solves(edges, trigger, f, Outputs(order[..n], edges, trigger, f), order[..n])
  {
    if n > 0 {
      var m := n - 1;
      OutputsSolve(order, edges, trigger, f, m);
      var before, after := Outputs(order[..m], edges, trigger, f), Outputs(order[..n], edges, trigger, f);
      hide *;
      NotYetOut(edges, trigger, f, before, order, m);
      OneMoreNode(order, edges, trigger, f, m);
      LaterNodeKeepsAnswers(edges, trigger, f, order, m, m, before, after);
      forall i | 0 <= i < m ensures AnswersAt(edges, trigger, f, after, order[..m][i]) {
        AnswerKept(edges, trigger, f, order, i, m, before, after);
      }
      assert order[..n] == order[..m] + [order[m]];
      SolvesOneMore(edges, trigger, f, before, after, order[..m], order[m]);
    }
  }

  /** The equations have one solution. */
  lemma {:induction false} SolutionsAgreeAt(edges: seq<Edge>, trigger: Fields, f: Behaviour, order: seq<Id>,
                                            o1: map<Id, Fields>, o2: map<Id, Fields>, i: nat)
    requires Distinct(order) && Topological(order, edges) && i < |order|
    requires forall v :: v in order ==> AnswersAt(edges, trigger, f, o1, v) && AnswersAt(edges, trigger, f, o2, v)
    ensures order[i] in o1 <==> order[i] in o2
    ensures order[i] in o1 ==> o1[order[i]] == o2[order[i]]
    decreases i
  {
    hide Resolution;
    var v := order[i];
    assert v in order && AnswersAt(edges, trigger, f, o1, v) && AnswersAt(edges, trigger, f, o2, v);
    forall e | e in edges && e.target == v
      ensures (e.source in o1 <==> e.source in o2) && (e.source in o1 ==> o1[e.source] == o2[e.source])
    {
      IndexOfAt(order, i);
      SolutionsAgreeAt(edges, trigger, f, order, o1, o2, IndexOf(order, e.source));
    }
    ResolutionDependsOnParents(v, edges, o1, o2);
  }

  lemma OutputsAnswer(order: seq<Id>, edges: seq<Edge>, trigger: Fields, f: Behaviour)
    requires Distinct(order) && Topological(order, edges)
    ensures forall v :: v in Outputs(order, edges, trigger, f) ==> v in order
    ensures forall v :: v in order ==> AnswersAt(edges, trigger, f, Outputs(order, edges, trigger, f), v)
  {
    assert order[..|order|] == order;
    OutputsSolve(order, edges, trigger, f, |order|);
    hide Outputs;
    hide AnswersAt;
    var m := Outputs(order, edges, trigger, f);
    forall v | v in order ensures AnswersAt(edges, trigger, f, m, v) {
      var i :| 0 <= i < |order| && order[i] == v;
    }
  }

  lemma SolutionsAgree(edges: seq<Edge>, trigger: Fields, f: Behaviour, order: seq<Id>,
                       m1: map<Id, Fields>, m2: map<Id, Fields>)
    requires Distinct(order) && Topological(order, edges)
    requires forall v :: v in order ==> AnswersAt(edges, trigger, f, m1, v) && AnswersAt(edges, trigger, f, m2, v)
    requires forall v :: v in m1 || v in m2 ==> v in order
    ensures m1 == m2
  {
    hide AnswersAt;
    hide Topological;
    hide Distinct;
    forall v | v in order ensures (v in m1 <==> v in m2) && (v in m1 ==> m1[v] == m2[v]) {
      var i :| 0 <= i < |order| && order[i] == v;
      SolutionsAgreeAt(edges, trigger, f, order, m1, m2, i);
    }
    assert m1.Keys == m2.Keys;
  }

  /** Confluence: any two orders of the same nodes that respect the edges produce the same output map. */
  lemma SameOutputsInAnyOrder(o1: seq<Id>, o2: seq<Id>, edges: seq<Edge>, trigger: Fields, f: Behaviour)
    requires Distinct(o1) && Topological(o1, edges) && Distinct(o2) && Topological(o2, edges)
    requires forall v :: v in o1 <==> v in o2
    ensures Outputs(o1, edges, trigger, f) == Outputs(o2, edges, trigger, f)
  {
    OutputsAnswer(o1, edges, trigger, f);
    OutputsAnswer(o2, edges, trigger, f);
    hide Outputs;
    hide AnswersAt;
    hide Topological;
    SolutionsAgree(edges, trigger, f, o1, Outputs(o1, edges, trigger, f), Outputs(o2, edges, trigger, f));
  }

  /** Whatever order the members of each wave take, the edges stay respected. */
  lemma ReorderedWavesRespectEdges(order: seq<Id>, other: seq<Id>, edges: seq<Edge>)
    requires Distinct(order) && Topological(order, edges)
    requires Distinct(other) && forall v :: v in order <==> v in other
    requires Waves.SortedByLevel(other, Waves.Levels(order, edges))
    ensures Topological(other, edges)
  {
    hide Waves.Levels;
    forall e | e in edges ensures 0 <= IndexOf(other, e.source) < IndexOf(other, e.target) {
      assert HasEdge(edges, e.source, e.target);
      Waves.EdgeClimbs(order, edges, e.source, e.target);
      assert e.source in order && e.target in order;
      var i, j := IndexOf(other, e.source), IndexOf(other, e.target);
      assert other[i] == e.source && other[j] == e.target;
    }
  }

  /** Running the members of every wave in any order yields the outputs of the execution order. */
  lemma WavesMayRunInAnyOrder(ids: seq<Id>, order: seq<Id>, other: seq<Id>, edges: seq<Edge>, trigger: Fields,
      f: Behaviour)
    requires ExecutionOrder(ids, edges, order)
    requires Distinct(other) && forall v :: v in order <==> v in other
    requires Waves.SortedByLevel(other, Waves.Levels(order, edges))
    ensures Outputs(other, edges, trigger, f) == Outputs(order, edges, trigger, f)
  {
    ReorderedWavesRespectEdges(order, other, edges);
    SameOutputsInAnyOrder(order, other, edges, trigger, f);
  }

  // ----- the engine computes these outputs

  lemma PureAttempts(world: World, f: Behaviour, policy: RetryPolicy, id: Id, input: Fields, control: Control,
      calls: nat)
    requires PureNodes(world, f) && policy.maxAttempts >= 1
    ensures AllAttempts(world, policy, id, input, Attempts(0, [], control, calls, Trying))
         == Attempts(1, [AttemptCompleted], control, calls + 1, Produced(f(id, input)))
  {
    var first := Attempts(0, [], control, calls, Trying);
    assert world.execute(calls, id, input) == Returned(f(id, input), NO_PATCH, false);
    assert Attempt(world, policy, id, input, first)
        == Attempts(1, [AttemptCompleted], control, calls + 1, Produced(f(id, input)));
  }

  lemma PureNodeRuns(world: World, f: Behaviour, edges: seq<Edge>, trigger: Fields, run: Run, node: Node)
    requires PureNodes(world, f) && QuietReports(world) && QuietStarts(world)
    requires run.mode.Going? && !LimitBroken(run.control) && !run.control.terminate
    ensures var r := RunNode(world, edges, trigger, run, node);
      var parents := Resolution(node.id, edges, run.outputs);
      && r.mode.Going? && r.control == run.control
      && r.outputs == if parents.skipNode then run.outputs
                      else run.outputs[node.id := f(node.id, trigger + parents.merged)]
  {
    hide AllAttempts;
    hide Resolution;
    hide NodeRetryPolicy;
    var parents := Resolution(node.id, edges, run.outputs);
    var input := trigger + parents.merged;
    assert world.configured(node) && world.prepare(node.id, input) == Plain;
    PureAttempts(world, f, NodeRetryPolicy(node.config), node.id, input, run.control, run.calls);
  }

  lemma {:induction false} RunComputesOutputs(world: World, f: Behaviour, nodes: map<Id, Node>, edges: seq<Edge>,
                                              trigger: Fields, control: Control, order: seq<Id>)
    requires PureNodes(world, f) && QuietReports(world) && QuietStarts(world)
    requires !LimitBroken(control) && !control.terminate
    requires forall v :: v in order ==> v in nodes && nodes[v].id == v
    ensures var run := RunAlong(world, nodes, edges, trigger, control, order);
      run.mode.Going? && run.control == control && run.outputs == Outputs(order, edges, trigger, f)
  {
    if |order| > 0 {
      var init, v := order[..|order| - 1], order[|order| - 1];
      RunComputesOutputs(world, f, nodes, edges, trigger, control, init);
      PureNodeRuns(world, f, edges, trigger, RunAlong(world, nodes, edges, trigger, control, init), nodes[v]);
      hide RunNode;
      hide Resolution;
    }
  }

  /** The engine's outputs for pure nodes are those of every order that respects the edges. */
  lemma EngineIsConfluent(world: World, f: Behaviour, nodes: seq<Node>, edges: seq<Edge>, trigger: Fields,
                          control: Control, ids: seq<Id>, order: seq<Id>, other: seq<Id>)
    requires PureNodes(world, f) && QuietReports(world) && QuietStarts(world)
    requires !LimitBroken(control) && !control.terminate
    requires ExecutionOrder(ids, edges, order) && forall v :: v in order ==> v in NodeMap(nodes)
    requires Distinct(other) && Topological(other, edges) && forall v :: v in order <==> v in other
    ensures RunAlong(world, NodeMap(nodes), edges, trigger, control, order).outputs
         == Outputs(other, edges, trigger, f)
  {
    RunComputesOutputs(world, f, NodeMap(nodes), edges, trigger, control, order);
    SameOutputsInAnyOrder(order, other, edges, trigger, f);
  }
}
