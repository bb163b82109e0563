/** The validator of workflow graphs: edge checks, Kahn's algorithm and its verdict. */
module DagValidator {
  import opened Graph

  datatype ValidationError =
    | UnknownSource(edgeId: string, source: Id)
    | UnknownTarget(edgeId: string, target: Id)
    | SelfLoop(edgeId: string, node: Id)
    | ContainsCycle

  datatype ValidationResult = ValidationResult(valid: bool, executionOrder: seq<Id>, errors: seq<ValidationError>)

  // ----- specification functions

  /** The node ids in the order in which a JavaScript `Set` meets them. */
  function NodeIds(nodes: seq<Node>): (ids: seq<Id>)
    ensures Distinct(ids)
    ensures forall v :: v in ids <==> v in Ids(nodes)
  {
    if |nodes| == 0 then []
    else
      var init, last := nodes[..|nodes| - 1], nodes[|nodes| - 1];
      assert nodes == init + [last];
      var ids := NodeIds(init);
      if last.id in ids then ids else ids + [last.id]
  }

  function EdgeErrors(ids: set<Id>, e: Edge): seq<ValidationError> {
    if e.source !in ids then [UnknownSource(e.id, e.source)]
    else if e.target !in ids then [UnknownTarget(e.id, e.target)]
    else if e.source == e.target then [SelfLoop(e.id, e.source)]
    else []
  }

  /** The first fault of every faulty edge, in edge order. */
  function AllEdgeErrors(ids: set<Id>, edges: seq<Edge>): (r: seq<ValidationError>)
    ensures r == [] <==> forall e :: e in edges ==> EdgeOk(ids, e)
  {
    if |edges| == 0 then []
    else
      var init, e := edges[..|edges| - 1], edges[|edges| - 1];
      assert edges == init + [e] && e in edges;
      AllEdgeErrors(ids, init) + EdgeErrors(ids, e)
  }

  /** An error names a fault that an edge really has. */
  ghost predicate NamesFault(ids: set<Id>, edges: seq<Edge>, error: ValidationError) {
    exists e :: e in edges && IsFault(ids, e, error)
  }

  predicate IsFault(ids: set<Id>, e: Edge, error: ValidationError) {
    match error
    case UnknownSource(edge, source) => e.id == edge && e.source == source && source !in ids
    case UnknownTarget(edge, target) => e.id == edge && e.target == target && target !in ids && e.source in ids
    case SelfLoop(edge, node) => e.id == edge && e.source == e.target == node && node in ids
    case ContainsCycle => false
  }

  lemma {:induction false} ErrorsNameFaults(ids: set<Id>, edges: seq<Edge>)
    ensures forall error :: error in AllEdgeErrors(ids, edges) ==> NamesFault(ids, edges, error)
    ensures forall e, error :: e in edges && IsFault(ids, e, error) ==> error in AllEdgeErrors(ids, edges)
  {
    if |edges| > 0 {
      var init, e := edges[..|edges| - 1], edges[|edges| - 1];
      assert edges == init + [e];
      ErrorsNameFaults(ids, init);
      forall error | error in AllEdgeErrors(ids, edges) ensures NamesFault(ids, edges, error) {
        if error in AllEdgeErrors(ids, init) {
          var x :| x in init && IsFault(ids, x, error);
          assert x in edges;
        } else {
          assert error in EdgeErrors(ids, e) && IsFault(ids, e, error);
        }
      }
    }
  }

  /** How many edges into `v` start outside `done`. */
  function Pending(edges: seq<Edge>, done: set<Id>, v: Id): nat {
    if |edges| == 0 then 0
    else
      var e := edges[|edges| - 1];
      Pending(edges[..|edges| - 1], done, v) + if e.target == v && e.source !in done then 1 else 0
  }

  lemma NothingPending(edges: seq<Edge>, done: set<Id>, v: Id)
    ensures Pending(edges, done, v) == 0 <==> forall e :: e in edges && e.target == v ==> e.source in done
  {
    if |edges| > 0 {
      assert edges == edges[..|edges| - 1] + [edges[|edges| - 1]];
      NothingPending(edges[..|edges| - 1], done, v);
    }
  }

  /** Finishing `u` releases every edge from `u` once. */
  lemma {:induction false} PendingWithout(edges: seq<Edge>, done: set<Id>, u: Id, v: Id)
    requires u !in done
    ensures Pending(edges, done, v) == Pending(edges, done + {u}, v) + multiset(Adjacent(edges, u))[v]
  {
    if |edges| > 0 { PendingWithout(edges[..|edges| - 1], done, u, v); }
  }

  // ----- the validator

  method ValidateDag(nodes: seq<Node>, edges: seq<Edge>) returns (r: ValidationResult)
    // sound and complete
    ensures r.valid <==> ValidGraph(nodes, edges)
    ensures r.valid ==> ExecutionOrder(NodeIds(nodes), edges, r.executionOrder)
    ensures !r.valid ==> r.executionOrder == []
    ensures var faults := AllEdgeErrors(Ids(nodes), edges);
            r.errors == if r.valid then [] else if faults != [] then faults else [ContainsCycle]
  {
    var nodeIds := CollectIds(nodes);
    var adjacency, inDegree, errors := CheckEdges(nodeIds, edges);
    assert Elements(nodeIds) == Ids(nodes);
    if |errors| > 0 {
      return ValidationResult(false, [], errors);
    }
    var executionOrder := Kahn(nodeIds, edges, adjacency, inDegree);
    if |executionOrder| != |nodeIds| {
      return ValidationResult(false, [], [ContainsCycle]);
    }
    TopologicalIsAcyclic(edges, executionOrder);
    return ValidationResult(true, executionOrder, []);
  }

  method CollectIds(nodes: seq<Node>) returns (ids: seq<Id>)
    ensures ids == NodeIds(nodes)
  {
    ids := [];
    for i := 0 to |nodes|
      invariant ids == NodeIds(nodes[..i])
    {
      assert nodes[..i + 1][..i] == nodes[..i];
      if nodes[i].id !in ids {
        ids := ids + [nodes[i].id];
      }
    }
    assert nodes[..|nodes|] == nodes;
  }

  /** The adjacency lists and in-degrees of a list of edges. */
  ghost predicate Tallied(ids: seq<Id>, edges: seq<Edge>, adjacency: map<Id, seq<Id>>, inDegree: map<Id, int>) {
    && adjacency.Keys == inDegree.Keys == Elements(ids)
    && (forall v :: v in ids ==> adjacency[v] == Adjacent(edges, v))
    && (forall v :: v in ids ==> inDegree[v] == Pending(edges, {}, v))
  }

  lemma TallyOne(ids: seq<Id>, edges: seq<Edge>, e: Edge, adjacency: map<Id, seq<Id>>, inDegree: map<Id, int>)
    requires Tallied(ids, edges, adjacency, inDegree) && EdgeOk(Elements(ids), e)
    ensures Tallied(ids, edges + [e], adjacency[e.source := adjacency[e.source] + [e.target]],
                    inDegree[e.target := inDegree[e.target] + 1])
  {
    assert (edges + [e])[..|edges|] == edges;
  }

  lemma ErrorsOne(ids: set<Id>, edges: seq<Edge>, e: Edge)
    ensures AllEdgeErrors(ids, edges + [e]) == AllEdgeErrors(ids, edges) + EdgeErrors(ids, e)
  {
    assert (edges + [e])[..|edges|] == edges;
  }

  /** Reports faulty edges and, when there are none, builds the adjacency lists and the in-degrees. */
  method CheckEdges(nodeIds: seq<Id>, edges: seq<Edge>)
    returns (adjacency: map<Id, seq<Id>>, inDegree: map<Id, int>, errors: seq<ValidationError>)
    ensures errors == AllEdgeErrors(Elements(nodeIds), edges)
    ensures errors == [] ==> Tallied(nodeIds, edges, adjacency, inDegree)
  {
    adjacency := map v | v in nodeIds :: [];
    inDegree := map v | v in nodeIds :: 0;
    errors := [];
    for i := 0 to |edges|
      invariant adjacency.Keys == inDegree.Keys == Elements(nodeIds)
      invariant errors == AllEdgeErrors(Elements(nodeIds), edges[..i])
      invariant errors == [] ==> Tallied(nodeIds, edges[..i], adjacency, inDegree)
    {
      hide Tallied;
      hide AllEdgeErrors;
      var e := edges[i];
      assert edges[..i + 1] == edges[..i] + [e];
      ErrorsOne(Elements(nodeIds), edges[..i], e);
      if e.source !in nodeIds {
        errors := errors + [UnknownSource(e.id, e.source)];
      } else if e.target !in nodeIds {
        errors := errors + [UnknownTarget(e.id, e.target)];
      } else if e.source == e.target {
        errors := errors + [SelfLoop(e.id, e.source)];
      } else {
        if errors == [] { TallyOne(nodeIds, edges[..i], e, adjacency, inDegree); }
        adjacency := adjacency[e.source := adjacency[e.source] + [e.target]];
        inDegree := inDegree[e.target := inDegree[e.target] + 1];
      }
    }
    assert edges[..|edges|] == edges;
  }

  // ----- Kahn's algorithm

  ghost function Done(reached: seq<Id>, n: nat): set<Id>
    requires n <= |reached|
  {
    Elements(reached[..n])
  }

  /** In-degrees count the edges from unfinished nodes and the `left` releases of the node just finished;
      the nodes reached so far are those without any. `reached` is the order followed by the queue and its
      first `n` nodes are finished. */
  ghost predicate Counted(ids: seq<Id>, edges: seq<Edge>, reached: seq<Id>, n: nat, left: seq<Id>,
                          inDegree: map<Id, int>) {
    && n <= |reached|
    && inDegree.Keys == Elements(ids)
    && Distinct(reached)
    && (forall v :: v in reached ==> v in ids)
    && (forall v :: v in ids ==> inDegree[v] == Pending(edges, Done(reached, n), v) + multiset(left)[v])
    && (forall v :: v in ids ==> (v in reached <==> inDegree[v] == 0))
  }

  /** `v` was ready before the last finished node, or was released by one of its first `j` child entries. */
  ghost predicate ReadyAt(edges: seq<Edge>, reached: seq<Id>, last: int, children: seq<Id>, j: nat, v: Id) {
    var p := LastParent(reached, edges, v);
    p < last || (p == last && LastIndexOf(children, v) < j)
  }

  /** Nodes stand behind their parents, in the order in which they became ready. */
  ghost predicate Ordered(ids: seq<Id>, edges: seq<Edge>, reached: seq<Id>) {
    && (forall i :: 0 <= i < |reached| ==> LastParent(reached, edges, reached[i]) < i)
    && FirstReadyFirst(ids, reached, edges)
  }

  /** Ordered, and no node is ahead of the releases made so far. */
  ghost predicate Queued(ids: seq<Id>, edges: seq<Edge>, reached: seq<Id>, last: int, children: seq<Id>, j: nat) {
    && (forall i :: 0 <= i < |reached| ==> ReadyAt(edges, reached, last, children, j, reached[i]))
    && Ordered(ids, edges, reached)
  }

  lemma BeginRelease(ids: seq<Id>, edges: seq<Edge>, reached: seq<Id>, n: nat, inDegree: map<Id, int>)
    requires Counted(ids, edges, reached, n, [], inDegree) && Ordered(ids, edges, reached) && n < |reached|
    ensures Counted(ids, edges, reached, n + 1, Adjacent(edges, reached[n]), inDegree)
    ensures Queued(ids, edges, reached, n, Adjacent(edges, reached[n]), 0)
  {
    hide IndexOf;
    hide LastIndexOf;
    hide LastParent;
    var u := reached[n];
    var children := Adjacent(edges, u);
    assert reached[..n + 1] == reached[..n] + [u];
    assert Done(reached, n + 1) == Done(reached, n) + {u};
    forall v | v in ids
      ensures inDegree[v] == Pending(edges, Done(reached, n + 1), v) + multiset(children)[v]
    {
      PendingWithout(edges, Done(reached, n), u, v);
    }
    forall i | 0 <= i < |reached| ensures ReadyAt(edges, reached, n, children, 0, reached[i]) {
      assert reached[i] in reached;
      NothingPending(edges, Done(reached, n), reached[i]);
      LastParentAgrees(reached, reached, n, edges, reached[i]);
    }
  }

  /** One release: the child joins when this was its last pending edge. */
  lemma CountChild(ids: seq<Id>, edges: seq<Edge>, reached: seq<Id>, n: nat, v: Id, left: seq<Id>,
                   inDegree: map<Id, int>)
    requires Counted(ids, edges, reached, n, [v] + left, inDegree) && v in ids
    ensures v in inDegree && v !in reached && inDegree[v] > 0
    ensures var longer := if inDegree[v] == 1 then reached + [v] else reached;
            Counted(ids, edges, longer, n, left, inDegree[v := inDegree[v] - 1])
  {
    hide Pending;
    assert multiset([v] + left)[v] == 1 + multiset(left)[v];
    var longer := if inDegree[v] == 1 then reached + [v] else reached;
    assert longer[..n] == reached[..n];
    assert Done(longer, n) == Done(reached, n);
  }

  /** All parents of `v` are among the first `n` nodes, so a longer list changes nothing for it. */
  lemma LongerListKeepsReady(edges: seq<Edge>, reached: seq<Id>, n: nat, w: Id, v: Id)
    requires n <= |reached| && Pending(edges, Done(reached, n), v) == 0
    ensures LastParent(reached + [w], edges, v) == LastParent(reached, edges, v) < n
  {
    hide LastParent;
    hide IndexOf;
    assert (reached + [w])[..n] == reached[..n];
    NothingPending(edges, Done(reached, n), v);
    LastParentAgrees(reached, reached + [w], n, edges, v);
  }

  lemma ReadyBeforeKeeps(ids: seq<Id>, edges: seq<Edge>, reached: seq<Id>, w: Id, x: Id, y: Id)
    requires ReadyBefore(ids, reached, edges, x, y)
    requires LastParent(reached + [w], edges, x) == LastParent(reached, edges, x)
    requires LastParent(reached + [w], edges, y) == LastParent(reached, edges, y)
    ensures ReadyBefore(ids, reached + [w], edges, x, y)
  {
    hide IndexOf;
    hide LastIndexOf;
    hide Adjacent;
    var p := LastParent(reached, edges, x);
    assert p >= 0 ==> (reached + [w])[p] == reached[p];
  }

  lemma ChildKeepsOthers(edges: seq<Edge>, reached: seq<Id>, n: nat, children: seq<Id>, j: nat, v: Id, x: Id)
    requires n < |reached| && Pending(edges, Done(reached, n + 1), x) == 0
    requires ReadyAt(edges, reached, n, children, j, x)
    ensures LastParent(reached + [v], edges, x) == LastParent(reached, edges, x) <= n
    ensures ReadyAt(edges, reached + [v], n, children, j + 1, x)
  {
    hide LastParent;
    hide LastIndexOf;
    LongerListKeepsReady(edges, reached, n + 1, v, x);
  }

  /** A child whose last pending edge was just released joins the queue behind all others. */
  lemma QueueChild(ids: seq<Id>, edges: seq<Edge>, reached: seq<Id>, n: nat, children: seq<Id>, j: nat)
    requires n < |reached| && Distinct(reached) && children == Adjacent(edges, reached[n]) && j < |children|
    requires children[j] !in children[j + 1..] && children[j] !in reached
    requires Queued(ids, edges, reached, n, children, j)
    requires Pending(edges, Done(reached, n + 1), children[j]) == 0
    requires forall i :: 0 <= i < |reached| ==> Pending(edges, Done(reached, n + 1), reached[i]) == 0
    ensures Queued(ids, edges, reached + [children[j]], n, children, j + 1)
  {
    var v := children[j];
    var longer := reached + [v];
    NewChild(edges, reached, n, children, j);
    hide Distinct;
    hide LastParent;
    hide LastIndexOf;
    hide IndexOf;
    hide Pending;
    hide Adjacent;
    hide Done;
    hide ReadyBefore;
    forall i | 0 <= i < |reached|
      ensures longer[i] == reached[i]
      ensures LastParent(longer, edges, reached[i]) == LastParent(reached, edges, reached[i]) <= n
      ensures ReadyAt(edges, longer, n, children, j + 1, reached[i])
    {
      ChildKeepsOthers(edges, reached, n, children, j, v, reached[i]);
    }
    assert ReadyAt(edges, longer, n, children, j + 1, v);
    hide ReadyAt;
    assert longer[n] == reached[n];
    forall i | 0 <= i < |reached| ensures ReadyBefore(ids, longer, edges, reached[i], v) {
      assert reached[i] in reached;
      ReadyBeforeNewest(ids, edges, longer, n, j, reached[i], v);
    }
    AppendLast(ids, edges, reached, v);
  }

  lemma AppendLast(ids: seq<Id>, edges: seq<Edge>, reached: seq<Id>, v: Id)
    requires FirstReadyFirst(ids, reached, edges)
    requires forall i :: 0 <= i < |reached| ==>
               LastParent(reached + [v], edges, reached[i]) == LastParent(reached, edges, reached[i])
    requires forall i :: 0 <= i < |reached| ==> ReadyBefore(ids, reached + [v], edges, reached[i], v)
    ensures FirstReadyFirst(ids, reached + [v], edges)
  {
    hide LastParent;
    hide ReadyBefore;
    var longer := reached + [v];
    forall i, k | 0 <= i < k < |longer| ensures ReadyBefore(ids, longer, edges, longer[i], longer[k]) {
      assert longer[i] == reached[i];
      if k < |reached| { ReadyBeforeKeeps(ids, edges, reached, v, reached[i], reached[k]); }
    }
  }

  lemma ReadyBeforeNewest(ids: seq<Id>, edges: seq<Edge>, longer: seq<Id>, n: nat, j: nat, x: Id, v: Id)
    requires n < |longer| && LastParent(longer, edges, v) == n
    requires LastIndexOf(Adjacent(edges, longer[n]), v) == j
    requires ReadyAt(edges, longer, n, Adjacent(edges, longer[n]), j + 1, x) && x != v
    ensures ReadyBefore(ids, longer, edges, x, v)
  {
  }

  lemma NewChild(edges: seq<Edge>, reached: seq<Id>, n: nat, children: seq<Id>, j: nat)
    requires n < |reached| && Distinct(reached) && children == Adjacent(edges, reached[n]) && j < |children|
    requires children[j] !in children[j + 1..] && Pending(edges, Done(reached, n + 1), children[j]) == 0
    ensures LastParent(reached + [children[j]], edges, children[j]) == n
    ensures LastIndexOf(children, children[j]) == j
  {
    hide LastParent;
    hide LastIndexOf;
    hide IndexOf;
    hide Pending;
    var v := children[j];
    LastIndexOfTail(children, j, v);
    LongerListKeepsReady(edges, reached, n + 1, v, v);
    AdjacentEdge(edges, reached[n], v);
    assert HasEdge(edges, reached[n], v);
    LastParentIsLast(reached, edges, v);
    IndexOfAt(reached, n);
  }

  lemma SubsetIsShorter(s: seq<Id>, t: seq<Id>)
    requires Distinct(s) && Distinct(t) && forall v :: v in s ==> v in t
    ensures |s| <= |t|
    ensures |s| == |t| ==> forall v :: v in t ==> v in s
  {
    DistinctSize(s);
    DistinctSize(t);
    SubsetSize(Elements(s), Elements(t));
    assert forall v :: v in t ==> v in Elements(t);
    assert forall v :: v in Elements(s) ==> v in s;
  }

  lemma SubsetSize(a: set<Id>, b: set<Id>)
    requires a <= b
    ensures |a| <= |b| && (|a| == |b| ==> a == b)
  {
    assert b == a + (b - a) && |b| == |a| + |b - a|;
  }

  lemma NoMoreThanIds(ids: seq<Id>, edges: seq<Edge>, reached: seq<Id>, n: nat, left: seq<Id>, inDegree: map<Id, int>)
    requires Distinct(ids) && Counted(ids, edges, reached, n, left, inDegree)
    ensures |reached| <= |ids|
  {
    SubsetIsShorter(reached, ids);
  }

  lemma HeadIsKnown(ids: seq<Id>, edges: seq<Edge>, order: seq<Id>, queue: seq<Id>,
                    adjacency: map<Id, seq<Id>>, degrees: map<Id, int>, inDegree: map<Id, int>)
    requires |queue| > 0 && Tallied(ids, edges, adjacency, degrees)
    requires Counted(ids, edges, order + queue, |order|, [], inDegree)
    ensures queue[0] in adjacency && adjacency[queue[0]] == Adjacent(edges, queue[0])
  {
    assert queue[0] in order + queue;
  }

  method Kahn(ids: seq<Id>, edges: seq<Edge>, adjacency: map<Id, seq<Id>>, degrees: map<Id, int>)
    returns (executionOrder: seq<Id>)
    requires Distinct(ids) && forall e :: e in edges ==> e.source in ids && e.target in ids
    requires Tallied(ids, edges, adjacency, degrees)
    ensures Acyclic(edges) <==> |executionOrder| == |ids|
    ensures Acyclic(edges) ==> ExecutionOrder(ids, edges, executionOrder)
  {
    hide Counted;
    hide Ordered;
    hide Queued;
    hide Tallied;
    var inDegree := degrees;
    var queue := StartQueue(ids, edges, adjacency, inDegree);
    executionOrder := [];
    assert [] + queue == queue;
    while |queue| > 0
      invariant Counted(ids, edges, executionOrder + queue, |executionOrder|, [], inDegree)
      invariant Ordered(ids, edges, executionOrder + queue)
      decreases |ids| - |executionOrder|
    {
      var current := queue[0];
      assert (executionOrder + queue)[|executionOrder|] == current;
      HeadIsKnown(ids, edges, executionOrder, queue, adjacency, degrees, inDegree);
      NoMoreThanIds(ids, edges, executionOrder + queue, |executionOrder|, [], inDegree);
      BeginRelease(ids, edges, executionOrder + queue, |executionOrder|, inDegree);
      assert executionOrder + queue == executionOrder + [current] + queue[1..];
      queue := queue[1..];
      executionOrder := executionOrder + [current];
      queue, inDegree := Release(ids, edges, executionOrder, adjacency[current], queue, inDegree);
    }
    assert executionOrder + queue == executionOrder;
    Verdict(ids, edges, executionOrder, inDegree);
  }

  /** The parentless nodes, in declaration order. */
  method StartQueue(ids: seq<Id>, ghost edges: seq<Edge>, ghost adjacency: map<Id, seq<Id>>, inDegree: map<Id, int>)
    returns (queue: seq<Id>)
    requires Distinct(ids) && Tallied(ids, edges, adjacency, inDegree)
    ensures Counted(ids, edges, queue, 0, [], inDegree)
    ensures Ordered(ids, edges, queue)
  {
    hide Pending;
    hide IndexOf;
    queue := [];
    for i := 0 to |ids|
      invariant forall v :: v in queue <==> v in ids[..i] && inDegree[v] == 0
      invariant forall a, b :: 0 <= a < b < |queue| ==> IndexOf(ids, queue[a]) < IndexOf(ids, queue[b])
      invariant forall a :: 0 <= a < |queue| ==> IndexOf(ids, queue[a]) < i
    {
      IndexOfAt(ids, i);
      assert ids[..i + 1] == ids[..i] + [ids[i]];
      if inDegree[ids[i]] == 0 {
        queue := queue + [ids[i]];
      }
    }
    assert ids[..|ids|] == ids;
    RootsAreReady(ids, edges, queue);
    RootsAreCounted(ids, edges, queue, inDegree);
  }

  lemma RootsAreCounted(ids: seq<Id>, edges: seq<Edge>, queue: seq<Id>, inDegree: map<Id, int>)
    requires Distinct(queue) && inDegree.Keys == Elements(ids)
    requires forall v :: v in ids ==> inDegree[v] == Pending(edges, {}, v)
    requires forall v :: v in queue <==> v in ids && inDegree[v] == 0
    ensures Counted(ids, edges, queue, 0, [], inDegree)
  {
    assert Done(queue, 0) == {};
  }

  lemma RootsAreReady(ids: seq<Id>, edges: seq<Edge>, queue: seq<Id>)
    requires forall v :: v in queue ==> Pending(edges, {}, v) == 0
    requires forall a, b :: 0 <= a < b < |queue| ==> IndexOf(ids, queue[a]) < IndexOf(ids, queue[b])
    ensures Distinct(queue) && Ordered(ids, edges, queue)
  {
    forall a | 0 <= a < |queue| ensures LastParent(queue, edges, queue[a]) == -1 {
      NothingPending(edges, {}, queue[a]);
      if LastParent(queue, edges, queue[a]) >= 0 { LastParentIsParent(queue, edges, queue[a]); }
    }
  }

  /** Decrements the in-degree of every child once for each edge and queues it at zero. */
  method Release(ghost ids: seq<Id>, ghost edges: seq<Edge>, ghost order: seq<Id>, neighbors: seq<Id>,
                 waiting: seq<Id>, degrees: map<Id, int>)
    returns (queue: seq<Id>, inDegree: map<Id, int>)
    requires |order| > 0 && neighbors == Adjacent(edges, order[|order| - 1])
    requires forall e :: e in edges ==> e.target in ids
    requires Counted(ids, edges, order + waiting, |order|, neighbors, degrees)
    requires Queued(ids, edges, order + waiting, |order| - 1, neighbors, 0)
    ensures Counted(ids, edges, order + queue, |order|, [], inDegree)
    ensures Ordered(ids, edges, order + queue)
  {
    hide Counted;
    hide Queued;
    queue, inDegree := waiting, degrees;
    assert neighbors[0..] == neighbors;
    for j := 0 to |neighbors|
      invariant Counted(ids, edges, order + queue, |order|, neighbors[j..], inDegree)
      invariant Queued(ids, edges, order + queue, |order| - 1, neighbors, j)
    {
      var neighbor := neighbors[j];
      assert neighbors[j..] == [neighbor] + neighbors[j + 1..];
      AdjacentEdge(edges, order[|order| - 1], neighbor);
      ReleaseOne(ids, edges, order, queue, neighbors, j, inDegree);
      var newDegree := inDegree[neighbor] - 1;
      inDegree := inDegree[neighbor := newDegree];
      if newDegree == 0 {
        queue := queue + [neighbor];
      }
    }
    assert neighbors[|neighbors|..] == [];
    QueuedIsOrdered(ids, edges, order + queue, |order| - 1, neighbors, |neighbors|);
  }

  lemma QueuedIsOrdered(ids: seq<Id>, edges: seq<Edge>, reached: seq<Id>, last: int, children: seq<Id>, j: nat)
    requires Queued(ids, edges, reached, last, children, j)
    ensures Ordered(ids, edges, reached)
    ensures Queued(ids, edges, reached, last, children, j + 1)
  {
    hide LastIndexOf;
    hide LastParent;
    hide FirstReadyFirst;
    forall i | 0 <= i < |reached| ensures ReadyAt(edges, reached, last, children, j + 1, reached[i]) {
      assert ReadyAt(edges, reached, last, children, j, reached[i]);
    }
  }

  lemma ReleaseOne(ids: seq<Id>, edges: seq<Edge>, order: seq<Id>, queue: seq<Id>, children: seq<Id>, j: nat,
                   inDegree: map<Id, int>)
    requires |order| > 0 && children == Adjacent(edges, order[|order| - 1]) && j < |children| && children[j] in ids
    requires Counted(ids, edges, order + queue, |order|, children[j..], inDegree)
    requires Queued(ids, edges, order + queue, |order| - 1, children, j)
    ensures children[j] in inDegree
    ensures var v := children[j];
      var longer := if inDegree[v] == 1 then queue + [v] else queue;
      && Counted(ids, edges, order + longer, |order|, children[j + 1..], inDegree[v := inDegree[v] - 1])
      && Queued(ids, edges, order + longer, |order| - 1, children, j + 1)
  {
    hide Counted;
    hide Queued;
    hide Adjacent;
    var v, reached, n := children[j], order + queue, |order|;
    assert children[j..] == [v] + children[j + 1..];
    CountChild(ids, edges, reached, n, v, children[j + 1..], inDegree);
    QueuedIsOrdered(ids, edges, reached, n - 1, children, j);
    assert reached[n - 1] == order[n - 1];
    if inDegree[v] == 1 {
      ReleaseLast(ids, edges, reached, n - 1, children, j, inDegree[v := 0]);
      assert reached + [v] == order + (queue + [v]);
    }
  }

  lemma ReleaseLast(ids: seq<Id>, edges: seq<Edge>, reached: seq<Id>, n: nat, children: seq<Id>, j: nat,
                    inDegree: map<Id, int>)
    requires n < |reached| && children == Adjacent(edges, reached[n]) && j < |children|
    requires Counted(ids, edges, reached + [children[j]], n + 1, children[j + 1..], inDegree)
    requires Queued(ids, edges, reached, n, children, j)
    ensures Queued(ids, edges, reached + [children[j]], n, children, j + 1)
  {
    hide Queued;
    hide Pending;
    var longer := reached + [children[j]];
    NothingLeft(ids, edges, longer, n + 1, children[j + 1..], inDegree);
    assert longer[|reached|] == children[j] && forall i :: 0 <= i < |reached| ==> longer[i] == reached[i];
    assert longer[..n + 1] == reached[..n + 1];
    QueueChild(ids, edges, reached, n, children, j);
  }

  lemma NothingLeft(ids: seq<Id>, edges: seq<Edge>, reached: seq<Id>, n: nat, left: seq<Id>, inDegree: map<Id, int>)
    requires Counted(ids, edges, reached, n, left, inDegree)
    ensures forall i :: 0 <= i < |reached| ==> Pending(edges, Done(reached, n), reached[i]) == 0 && reached[i] !in left
  {
    hide Pending;
    forall i | 0 <= i < |reached|
      ensures Pending(edges, Done(reached, n), reached[i]) == 0 && reached[i] !in left
    {
      assert reached[i] in reached && inDegree[reached[i]] == 0;
    }
  }

  /** The algorithm ends with all nodes exactly when there is no cycle. */
  lemma Verdict(ids: seq<Id>, edges: seq<Edge>, order: seq<Id>, inDegree: map<Id, int>)
    requires Distinct(ids) && forall e :: e in edges ==> e.source in ids && e.target in ids
    requires Counted(ids, edges, order, |order|, [], inDegree) && Ordered(ids, edges, order)
    ensures Acyclic(edges) <==> |order| == |ids|
    ensures Acyclic(edges) ==> ExecutionOrder(ids, edges, order)
  {
    SubsetIsShorter(order, ids);
    assert order[..|order|] == order;
    if |order| == |ids| {
      EverythingOrdered(edges, ids, order);
      TopologicalIsAcyclic(edges, order);
    } else {
      if forall v :: v in ids ==> v in order { SameLength(order, ids); }
      StuckMeansCycle(ids, edges, order);
    }
  }

  lemma EverythingOrdered(edges: seq<Edge>, ids: seq<Id>, order: seq<Id>)
    requires Ordered(ids, edges, order) && forall e :: e in edges ==> e.source in order && e.target in order
    ensures Topological(order, edges)
  {
    forall e | e in edges ensures 0 <= IndexOf(order, e.source) < IndexOf(order, e.target) {
      var i := IndexOf(order, e.target);
      LastParentIsLast(order, edges, e.target);
      assert LastParent(order, edges, order[i]) < i;
    }
  }

  /** Nodes that keep waiting for each other contain a cycle. */
  lemma StuckMeansCycle(ids: seq<Id>, edges: seq<Edge>, order: seq<Id>)
    requires forall e :: e in edges ==> e.source in ids
    requires exists v :: v in ids && v !in order
    requires forall v :: v in ids && v !in order ==> Pending(edges, Elements(order), v) > 0
    ensures !Acyclic(edges)
  {
    var rest := set v | v in ids && v !in order;
    var stuck :| stuck in ids && stuck !in order;
    assert stuck in rest;
    forall v | v in rest ensures HasParentIn(edges, rest, v) {
      NothingPending(edges, Elements(order), v);
      var e :| e in edges && e.target == v && e.source !in order;
      assert HasEdge(edges, e.source, v);
    }
    PredecessorsMakeCycle(edges, rest);
  }
}
