/** Workflow graphs: nodes, edges, paths, cycles and the orders that respect the edges. */
module Graph {
  import opened Values

  type Id = string

  datatype Node = Node(id: Id, kind: string, config: Fields)

  /** `condition` is the raw field of the edge, `Undefined` when it is absent. */
  datatype Edge = Edge(id: string, source: Id, target: Id, condition: Value)

  // ----- positions

  ghost predicate Distinct<T>(s: seq<T>) {
    forall i, j :: 0 <= i < j < |s| ==> s[i] != s[j]
  }

  function Elements<T>(s: seq<T>): set<T> {
    set x | x in s
  }

  /** JavaScript's `indexOf`: the first position of `x`, or -1. */
  function IndexOf<T(==)>(s: seq<T>, x: T): (i: int)
    ensures -1 <= i < |s|
    ensures i >= 0 ==> s[i] == x && forall k :: 0 <= k < i ==> s[k] != x
    ensures i == -1 <==> x !in s
  {
    if |s| == 0 then -1
    else
      var init, last := s[..|s| - 1], s[|s| - 1];
      assert s == init + [last];
      var i := IndexOf(init, x);
      if i >= 0 then i else if last == x then |s| - 1 else -1
  }

  /** The last position of `x`, or -1. */
  function LastIndexOf<T(==)>(s: seq<T>, x: T): (i: int)
    ensures -1 <= i < |s|
    ensures i >= 0 ==> s[i] == x
    ensures forall k :: i < k < |s| ==> s[k] != x
  {
    if |s| == 0 then -1
    else if s[|s| - 1] == x then |s| - 1
    else LastIndexOf(s[..|s| - 1], x)
  }

  lemma IndexOfAt<T>(s: seq<T>, k: nat)
    requires Distinct(s) && k < |s|
    ensures IndexOf(s, s[k]) == k
  {
    assert s[k] in s;
  }

  /** An element of a prefix keeps its position. */
  lemma IndexOfPrefix<T>(s: seq<T>, n: nat, x: T)
    requires n <= |s| && x in s[..n]
    ensures IndexOf(s, x) == IndexOf(s[..n], x) < n
  {
    var i := IndexOf(s[..n], x);
    assert s[i] == x && forall k :: 0 <= k < i ==> s[k] == s[..n][k] != x;
  }

  lemma LastIndexOfTail<T>(s: seq<T>, k: nat, x: T)
    requires k < |s| && s[k] == x && x !in s[k + 1..]
    ensures LastIndexOf(s, x) == k
  {
    assert forall j :: k < j < |s| ==> s[j] == s[k + 1..][j - k - 1];
  }

  // ----- edges, paths and cycles

  ghost predicate HasEdge(edges: seq<Edge>, u: Id, v: Id) {
    exists e :: e in edges && e.source == u && e.target == v
  }

  ghost predicate IsPath(edges: seq<Edge>, p: seq<Id>) {
    |p| > 0 && forall i :: 0 <= i < |p| - 1 ==> HasEdge(edges, p[i], p[i + 1])
  }

  ghost predicate IsCycle(edges: seq<Edge>, p: seq<Id>) {
    |p| > 1 && p[0] == p[|p| - 1] && IsPath(edges, p)
  }

  ghost predicate Acyclic(edges: seq<Edge>) {
    forall p :: !IsCycle(edges, p)
  }

  function Ids(nodes: seq<Node>): set<Id> {
    set n | n in nodes :: n.id
  }

  predicate EdgeOk(ids: set<Id>, e: Edge) {
    e.source in ids && e.target in ids && e.source != e.target
  }

  /** What the validator is for: every edge joins two known, different nodes, and nothing is circular. */
  ghost predicate ValidGraph(nodes: seq<Node>, edges: seq<Edge>) {
    && (forall e :: e in edges ==> EdgeOk(Ids(nodes), e))
    && Acyclic(edges)
  }

  /** Every edge's source stands before its target. */
  ghost predicate Topological(order: seq<Id>, edges: seq<Edge>) {
    forall e :: e in edges ==> 0 <= IndexOf(order, e.source) < IndexOf(order, e.target)
  }

  /** Targets of the edges that leave `u`, in edge order, with repetitions. */
  function Adjacent(edges: seq<Edge>, u: Id): seq<Id> {
    if |edges| == 0 then []
    else
      var rest, e := Adjacent(edges[..|edges| - 1], u), edges[|edges| - 1];
      if e.source == u then rest + [e.target] else rest
  }

  lemma AdjacentEdge(edges: seq<Edge>, u: Id, v: Id)
    ensures v in Adjacent(edges, u) <==> HasEdge(edges, u, v)
  {
    if |edges| > 0 {
      var init, e := edges[..|edges| - 1], edges[|edges| - 1];
      assert edges == init + [e] && e in edges;
      AdjacentEdge(init, u, v);
    }
  }

  /** Position of the parent of `v` that comes last in `order`; -1 for a node without parents in it. */
  function LastParent(order: seq<Id>, edges: seq<Edge>, v: Id): (p: int)
    ensures -1 <= p < |order|
  {
    if |edges| == 0 then -1
    else
      var p, e := LastParent(order, edges[..|edges| - 1], v), edges[|edges| - 1];
      if e.target == v && IndexOf(order, e.source) > p then IndexOf(order, e.source) else p
  }

  lemma LastParentIsLast(order: seq<Id>, edges: seq<Edge>, v: Id)
    ensures forall e :: e in edges && e.target == v ==> IndexOf(order, e.source) <= LastParent(order, edges, v)
  {
    if |edges| > 0 {
      assert edges == edges[..|edges| - 1] + [edges[|edges| - 1]];
      LastParentIsLast(order, edges[..|edges| - 1], v);
    }
  }

  lemma LastParentIsParent(order: seq<Id>, edges: seq<Edge>, v: Id)
    requires LastParent(order, edges, v) >= 0
    ensures exists e :: e in edges && e.target == v && IndexOf(order, e.source) == LastParent(order, edges, v)
  {
    var init, e := edges[..|edges| - 1], edges[|edges| - 1];
    assert edges == init + [e] && e in edges;
    if LastParent(order, init, v) == LastParent(order, edges, v) { LastParentIsParent(order, init, v); }
  }

  /** `u` became ready before `v`: its last parent stands earlier; among children of one parent the edge
      order decides, among parentless nodes the declaration order `ids`. */
  ghost predicate ReadyBefore(ids: seq<Id>, order: seq<Id>, edges: seq<Edge>, u: Id, v: Id) {
    var p, q := LastParent(order, edges, u), LastParent(order, edges, v);
    || p < q
    || (p == q == -1 && IndexOf(ids, u) < IndexOf(ids, v))
    || (p == q >= 0 && LastIndexOf(Adjacent(edges, order[p]), u) < LastIndexOf(Adjacent(edges, order[p]), v))
  }

  /** First come, first served: nodes stand in the order in which they became ready. */
  ghost predicate FirstReadyFirst(ids: seq<Id>, order: seq<Id>, edges: seq<Edge>) {
    forall i, j :: 0 <= i < j < |order| ==> ReadyBefore(ids, order, edges, order[i], order[j])
  }

  /** The declarative specification of an execution order. */
  ghost predicate ExecutionOrder(ids: seq<Id>, edges: seq<Edge>, order: seq<Id>) {
    && Distinct(order)
    && (forall v :: v in order <==> v in ids)
    && Topological(order, edges)
    && FirstReadyFirst(ids, order, edges)
  }

  // ----- what follows from an order

  /** A path climbs in every order that respects the edges. */
  lemma {:induction false} PathClimbs(edges: seq<Edge>, order: seq<Id>, p: seq<Id>)
    requires Topological(order, edges) && IsPath(edges, p) && |p| > 1
    ensures IndexOf(order, p[0]) < IndexOf(order, p[|p| - 1])
  {
    var n := |p| - 1;
    assert HasEdge(edges, p[n - 1], p[n]);
    if |p| > 2 {
      assert IsPath(edges, p[..n]) by {
        forall i | 0 <= i < n - 1 ensures HasEdge(edges, p[..n][i], p[..n][i + 1]) {
          assert HasEdge(edges, p[i], p[i + 1]);
        }
      }
      PathClimbs(edges, order, p[..n]);
    }
  }

  lemma TopologicalIsAcyclic(edges: seq<Edge>, order: seq<Id>)
    requires Topological(order, edges)
    ensures Acyclic(edges)
  {
    forall p ensures !IsCycle(edges, p) {
      if IsCycle(edges, p) { PathClimbs(edges, order, p); }
    }
  }

  lemma PrependToPath(edges: seq<Edge>, u: Id, p: seq<Id>)
    requires IsPath(edges, p) && HasEdge(edges, u, p[0])
    ensures IsPath(edges, [u] + p)
  {
    var q := [u] + p;
    forall i | 0 <= i < |q| - 1 ensures HasEdge(edges, q[i], q[i + 1]) {
      if i > 0 { assert HasEdge(edges, p[i - 1], p[i - 1 + 1]); }
    }
  }

  lemma Subpath(edges: seq<Edge>, p: seq<Id>, i: nat, j: nat)
    requires IsPath(edges, p) && i < j <= |p|
    ensures IsPath(edges, p[i..j])
  {
    forall k | 0 <= k < j - i - 1 ensures HasEdge(edges, p[i..j][k], p[i..j][k + 1]) {
      assert HasEdge(edges, p[i + k], p[i + k + 1]);
    }
  }

  ghost predicate HasParentIn(edges: seq<Edge>, within: set<Id>, v: Id) {
    exists u :: u in within && HasEdge(edges, u, v)
  }

  /** A non-empty set in which every node has a predecessor contains a cycle. */
  lemma PredecessorsMakeCycle(edges: seq<Edge>, rest: set<Id>)
    requires rest != {}
    requires forall v {:trigger HasParentIn(edges, rest, v)} :: v in rest ==> HasParentIn(edges, rest, v)
    ensures !Acyclic(edges)
  {
    var start :| start in rest;
    var p := [start];
    while |p| <= |rest|
      invariant IsPath(edges, p) && forall v :: v in p ==> v in rest
      decreases |rest| - |p|
    {
      assert HasParentIn(edges, rest, p[0]);
      var u :| u in rest && HasEdge(edges, u, p[0]);
      PrependToPath(edges, u, p);
      p := [u] + p;
    }
    var i, j := Pigeonhole(p, rest);
    Subpath(edges, p, i, j + 1);
    assert IsCycle(edges, p[i..j + 1]);
  }

  lemma {:induction false} Pigeonhole(p: seq<Id>, s: set<Id>) returns (i: nat, j: nat)
    requires |p| > |s| && forall v :: v in p ==> v in s
    ensures i < j < |p| && p[i] == p[j]
  {
    var last := p[|p| - 1];
    var init := p[..|p| - 1];
    if last in init {
      i := IndexOf(init, last);
      j := |p| - 1;
    } else {
      i, j := Pigeonhole(init, s - {last});
    }
  }

  // ----- uniqueness of the execution order

  lemma LastParentAgrees(o1: seq<Id>, o2: seq<Id>, n: nat, edges: seq<Edge>, v: Id)
    requires n <= |o1| && n <= |o2| && o1[..n] == o2[..n]
    requires forall e :: e in edges && e.target == v ==> e.source in o1[..n]
    ensures LastParent(o1, edges, v) == LastParent(o2, edges, v) < n
  {
    if |edges| > 0 {
      var init, e := edges[..|edges| - 1], edges[|edges| - 1];
      assert edges == init + [e] && e in edges;
      LastParentAgrees(o1, o2, n, init, v);
      if e.target == v {
        IndexOfPrefix(o1, n, e.source);
        IndexOfPrefix(o2, n, e.source);
      }
    }
  }

  lemma ParentsStandBefore(order: seq<Id>, edges: seq<Edge>, n: nat)
    requires n < |order| && Distinct(order) && Topological(order, edges)
    ensures forall e :: e in edges && e.target == order[n] ==> e.source in order[..n]
  {
    forall e | e in edges && e.target == order[n] ensures e.source in order[..n] {
      IndexOfAt(order, n);
      assert order[..n][IndexOf(order, e.source)] == e.source;
    }
  }

  lemma StandsAfter<T>(s: seq<T>, t: seq<T>, k: nat) returns (j: nat)
    requires k < |s| && k < |t| && s[..k] == t[..k] && s[k] != t[k]
    requires Distinct(t) && t[k] in s
    ensures k < j < |s| && s[j] == t[k]
  {
    assert forall i :: 0 <= i < k ==> s[i] == s[..k][i] == t[..k][i] == t[i] != t[k];
    j :| 0 <= j < |s| && s[j] == t[k];
  }

  /** Where two orders part, each of them claims that its own node was ready first. */
  lemma FirstDifference(ids: seq<Id>, edges: seq<Edge>, o1: seq<Id>, o2: seq<Id>, k: nat)
    requires FirstReadyFirst(ids, o1, edges) && Distinct(o2)
    requires k < |o1| && k < |o2| && o1[..k] == o2[..k] && o1[k] != o2[k] && o2[k] in o1
    ensures ReadyBefore(ids, o1, edges, o1[k], o2[k])
  {
    var j := StandsAfter(o1, o2, k);
    assert ReadyBefore(ids, o1, edges, o1[k], o1[j]);
  }

  lemma NextAgrees(ids: seq<Id>, edges: seq<Edge>, o1: seq<Id>, o2: seq<Id>, k: nat)
    requires ExecutionOrder(ids, edges, o1) && ExecutionOrder(ids, edges, o2)
    requires k < |o1| && k < |o2| && o1[..k] == o2[..k]
    ensures o1[k] == o2[k]
  {
    hide LastIndexOf;
    hide Adjacent;
    hide IndexOf;
    var x, y := o1[k], o2[k];
    assert x in o1 && y in o2;
    ParentsStandBefore(o1, edges, k);
    ParentsStandBefore(o2, edges, k);
    LastParentAgrees(o1, o2, k, edges, x);
    LastParentAgrees(o1, o2, k, edges, y);
    var p := LastParent(o1, edges, x);
    assert p >= 0 ==> o1[p] == o1[..k][p] == o2[..k][p] == o2[p];
    if x != y {
      FirstDifference(ids, edges, o1, o2, k);
      FirstDifference(ids, edges, o2, o1, k);
      assert false;
    }
  }

  lemma {:induction false} ExecutionOrderPrefix(ids: seq<Id>, edges: seq<Edge>, o1: seq<Id>, o2: seq<Id>, n: nat)
    requires ExecutionOrder(ids, edges, o1) && ExecutionOrder(ids, edges, o2)
    requires n <= |o1| && n <= |o2|
    ensures o1[..n] == o2[..n]
  {
    if n > 0 {
      ExecutionOrderPrefix(ids, edges, o1, o2, n - 1);
      NextAgrees(ids, edges, o1, o2, n - 1);
      assert o1[..n] == o1[..n - 1] + [o1[n - 1]] && o2[..n] == o2[..n - 1] + [o2[n - 1]];
    }
  }

  /** A graph has at most one execution order: the specification leaves the validator no choice. */
  lemma ExecutionOrderUnique(ids: seq<Id>, edges: seq<Edge>, o1: seq<Id>, o2: seq<Id>)
    requires ExecutionOrder(ids, edges, o1) && ExecutionOrder(ids, edges, o2)
    ensures o1 == o2
  {
    SameLength(o1, o2);
    ExecutionOrderPrefix(ids, edges, o1, o2, |o1|);
    assert o1[..|o1|] == o1 && o2[..|o1|] == o2;
  }

  lemma SameLength(s: seq<Id>, t: seq<Id>)
    requires Distinct(s) && Distinct(t) && forall v :: v in s <==> v in t
    ensures |s| == |t|
  {
    DistinctSize(s);
    DistinctSize(t);
    assert Elements(s) == Elements(t);
  }

  lemma {:induction false} DistinctSize(s: seq<Id>)
    requires Distinct(s)
    ensures |Elements(s)| == |s|
  {
    if |s| > 0 {
      var init, last := s[..|s| - 1], s[|s| - 1];
      DistinctSize(init);
      assert s == init + [last];
      assert Elements(s) == Elements(init) + {last};
    }
  }
}
