/** Which nodes a run without failure completes: those that data reaches from the parentless nodes. */
module Reachability {
  import opened Values
  import opened Graph
  import opened Branching
  import opened ExecutionState
  import opened Engine

  /** `e` leads from `u` to `v` and its condition matches what `u` produced. */
  ghost predicate DataFlows(edges: seq<Edge>, outputs: map<Id, Fields>, u: Id, v: Id) {
    exists e :: e in edges && e.source == u && e.target == v && Carries(e, outputs)
  }

  /** A path from a parentless node along edges that carry data. */
  ghost predicate ActivePath(edges: seq<Edge>, outputs: map<Id, Fields>, p: seq<Id>) {
    && |p| > 0 && Incoming(edges, p[0]) == []
    && forall i :: 0 <= i < |p| - 1 ==> DataFlows(edges, outputs, p[i], p[i + 1])
  }

  ghost predicate Reached(edges: seq<Edge>, outputs: map<Id, Fields>, v: Id) {
    exists p :: ActivePath(edges, outputs, p) && p[|p| - 1] == v
  }

  // ----- outputs of a run that is still going

  lemma GoingAdds(world: World, nodes: map<Id, Node>, edges: seq<Edge>, trigger: Fields, run: Run, id: Id)
    requires id in nodes && nodes[id].id == id && id !in run.outputs
    requires Advance(world, nodes, edges, trigger, run, id).mode.Going?
    ensures var r := Advance(world, nodes, edges, trigger, run, id);
      && run.mode.Going?
      && |r.steps| == |run.steps| + 1 && r.steps[..|run.steps|] == run.steps
      && var skip := Resolution(id, edges, run.outputs).skipNode;
      && r.steps[|run.steps|].nodeId == id
      && r.steps[|run.steps|].status == (if skip then Skipped else Completed)
      && (if skip then r.outputs == run.outputs
          else id in r.outputs && r.outputs == run.outputs[id := r.outputs[id]])
  {
    hide AllAttempts;
    hide Merged;
    hide AnyCarries;
    hide NodeRetryPolicy;
    hide Incoming;
  }

  /** The first `n` nodes of the order are settled: each has its step, completed exactly when it has an output,
      and it has an output exactly when its parents' outputs call for it. */
  ghost predicate Settled(edges: seq<Edge>, run: Run, order: seq<Id>, n: nat) {
    && n <= |order| && |run.steps| == n
    && (forall v :: v in run.outputs ==> v in order[..n])
    && (forall i :: 0 <= i < n ==> SettledAt(edges, run, order, i))
  }

  ghost predicate SettledAt(edges: seq<Edge>, run: Run, order: seq<Id>, i: nat) {
    && i < |order| && i < |run.steps|
    && run.steps[i].nodeId == order[i]
    && (order[i] in run.outputs <==> !Resolution(order[i], edges, run.outputs).skipNode)
    && run.steps[i].status == (if order[i] in run.outputs then Completed else Skipped)
  }

  lemma NotAParent(order: seq<Id>, edges: seq<Edge>, i: nat, n: nat)
    requires Distinct(order) && Topological(order, edges) && i <= n < |order|
    ensures forall e :: e in edges && e.target == order[i] ==> e.source != order[n]
  {
    IndexOfAt(order, i);
    IndexOfAt(order, n);
  }

  /** A later node changes nothing for the ones before it. */
  lemma LaterNodeKeepsSettled(edges: seq<Edge>, run: Run, r: Run, order: seq<Id>, n: nat, i: nat)
    requires Distinct(order) && Topological(order, edges) && i < n < |order|
    requires SettledAt(edges, run, order, i) && |r.steps| > i && r.steps[i] == run.steps[i]
    requires r.outputs == run.outputs
          || (order[n] in r.outputs && r.outputs == run.outputs[order[n] := r.outputs[order[n]]])
    ensures SettledAt(edges, r, order, i)
  {
    NotAParent(order, edges, i, n);
    ResolutionDependsOnParents(order[i], edges, run.outputs, r.outputs);
  }

  lemma {:induction false} GoingIsSettled(world: World, nodes: map<Id, Node>, edges: seq<Edge>, trigger: Fields,
                                          control: Control, order: seq<Id>, n: nat)
    requires Distinct(order) && Topological(order, edges) && n <= |order|
    requires forall v :: v in order ==> v in nodes && nodes[v].id == v
    requires RunAlong(world, nodes, edges, trigger, control, order[..n]).mode.Going?
    ensures Settled(edges, RunAlong(world, nodes, edges, trigger, control, order[..n]), order, n)
  {
    if n > 0 {
      var m := n - 1;
      assert order[..n][..m] == order[..m];
      var run := RunAlong(world, nodes, edges, trigger, control, order[..m]);
      var r := RunAlong(world, nodes, edges, trigger, control, order[..n]);
      assert r == Advance(world, nodes, edges, trigger, run, order[m]);
      GoingComesFromGoing(world, nodes, edges, trigger, run, order[m]);
      GoingIsSettled(world, nodes, edges, trigger, control, order, m);
      hide RunAlong;
      OneMoreSettled(world, nodes, edges, trigger, run, order, m);
    }
  }

  lemma GoingComesFromGoing(world: World, nodes: map<Id, Node>, edges: seq<Edge>, trigger: Fields, run: Run, id: Id)
    requires id in nodes && Advance(world, nodes, edges, trigger, run, id).mode.Going?
    ensures run.mode.Going?
  {
  }

  lemma OneMoreSettled(world: World, nodes: map<Id, Node>, edges: seq<Edge>, trigger: Fields, run: Run,
                       order: seq<Id>, m: nat)
    requires Distinct(order) && Topological(order, edges) && m < |order|
    requires order[m] in nodes && nodes[order[m]].id == order[m]
    requires Settled(edges, run, order, m)
    requires Advance(world, nodes, edges, trigger, run, order[m]).mode.Going?
    ensures Settled(edges, Advance(world, nodes, edges, trigger, run, order[m]), order, m + 1)
  {
    hide RunNode;
    hide Resolution;
    var r := Advance(world, nodes, edges, trigger, run, order[m]);
    assert order[m] !in order[..m];
    GoingAdds(world, nodes, edges, trigger, run, order[m]);
    hide Advance;
    assert order[..m + 1] == order[..m] + [order[m]];
    forall i | 0 <= i < m ensures SettledAt(edges, r, order, i) {
      assert r.steps[..m][i] == run.steps[i];
      LaterNodeKeepsSettled(edges, run, r, order, m, i);
    }
    NotAParent(order, edges, m, m);
    ResolutionDependsOnParents(order[m], edges, run.outputs, r.outputs);
  }

  // ----- reachability

  lemma {:induction false} ActivePathCompletes(edges: seq<Edge>, outputs: map<Id, Fields>, order: seq<Id>, p: seq<Id>)
    requires forall v :: v in order ==> (v in outputs <==> !Resolution(v, edges, outputs).skipNode)
    requires ActivePath(edges, outputs, p) && forall e :: e in edges ==> e.target in order
    requires p[0] in order
    ensures p[|p| - 1] in outputs
  {
    var m := |p| - 1;
    if m > 0 {
      assert DataFlows(edges, outputs, p[m - 1], p[m - 1 + 1]);
      var e :| e in edges && e.source == p[m - 1] && e.target == p[m] && Carries(e, outputs);
      IncomingMembers(edges, p[m]);
      assert e in Incoming(edges, p[m]);
    }
  }

  /** Whoever completes has parents that carry data, up to a parentless node. */
  lemma {:induction false} CompletedIsReached(edges: seq<Edge>, outputs: map<Id, Fields>, order: seq<Id>, i: nat)
    requires Distinct(order) && Topological(order, edges) && i < |order|
    requires forall v :: v in order ==> (v in outputs <==> !Resolution(v, edges, outputs).skipNode)
    requires order[i] in outputs
    ensures Reached(edges, outputs, order[i])
  {
    var v := order[i];
    if Incoming(edges, v) == [] {
      assert ActivePath(edges, outputs, [v]) && [v][0] == v;
    } else {
      var e :| e in Incoming(edges, v) && Carries(e, outputs);
      IncomingMembers(edges, v);
      IndexOfAt(order, i);
      var j := IndexOf(order, e.source);
      CompletedIsReached(edges, outputs, order, j);
      var q :| ActivePath(edges, outputs, q) && q[|q| - 1] == order[j];
      assert DataFlows(edges, outputs, order[j], v);
      ExtendActivePath(edges, outputs, q, v);
    }
  }

  lemma ExtendActivePath(edges: seq<Edge>, outputs: map<Id, Fields>, q: seq<Id>, v: Id)
    requires ActivePath(edges, outputs, q) && DataFlows(edges, outputs, q[|q| - 1], v)
    ensures Reached(edges, outputs, v)
  {
    var p := q + [v];
    forall i | 0 <= i < |p| - 1 ensures DataFlows(edges, outputs, p[i], p[i + 1]) {
      if i < |q| - 1 { assert DataFlows(edges, outputs, q[i], q[i + 1]); }
    }
    assert ActivePath(edges, outputs, p) && p[|p| - 1] == v;
  }

  /** In a run that neither failed nor was terminated, the completed nodes are exactly those that data reaches from
      the parentless nodes along edges whose conditions match; all others are skipped. */
  lemma CompletedMeansReached(world: World, nodes: seq<Node>, edges: seq<Edge>, trigger: Fields, control: Control,
                              ids: seq<Id>, order: seq<Id>)
    requires ExecutionOrder(ids, edges, order) && forall v :: v in order ==> v in NodeMap(nodes)
    requires RunAlong(world, NodeMap(nodes), edges, trigger, control, order).mode.Going?
    ensures var run := RunAlong(world, NodeMap(nodes), edges, trigger, control, order);
      && |run.steps| == |order|
      && forall i :: 0 <= i < |order| ==>
           run.steps[i].status == if Reached(edges, run.outputs, order[i]) then Completed else Skipped
  {
    assert order[..|order|] == order;
    GoingIsSettled(world, NodeMap(nodes), edges, trigger, control, order, |order|);
    var run := RunAlong(world, NodeMap(nodes), edges, trigger, control, order);
    hide RunAlong;
    hide Resolution;
    forall v | v in order ensures v in run.outputs <==> !Resolution(v, edges, run.outputs).skipNode {
      var i := IndexOf(order, v);
      assert SettledAt(edges, run, order, i);
    }
    forall i | 0 <= i < |order|
      ensures run.steps[i].status == if Reached(edges, run.outputs, order[i]) then Completed else Skipped
    {
      assert SettledAt(edges, run, order, i);
      if order[i] in run.outputs {
        CompletedIsReached(edges, run.outputs, order, i);
      } else if Reached(edges, run.outputs, order[i]) {
        NotReached(edges, run.outputs, order, i);
      }
    }
  }

  lemma NotReached(edges: seq<Edge>, outputs: map<Id, Fields>, order: seq<Id>, i: nat)
    requires forall v :: v in order ==> (v in outputs <==> !Resolution(v, edges, outputs).skipNode)
    requires forall e :: e in edges ==> e.target in order && e.source in order
    requires i < |order| && Reached(edges, outputs, order[i])
    ensures order[i] in outputs
  {
    hide Resolution;
    var p :| ActivePath(edges, outputs, p) && p[|p| - 1] == order[i];
    if |p| > 1 { assert DataFlows(edges, outputs, p[0], p[0 + 1]); }
    ActivePathCompletes(edges, outputs, order, p);
  }
}
