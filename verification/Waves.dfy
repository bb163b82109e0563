/** Execution waves: the levels of a workflow and the schedule that groups them. */
module Waves {
  import opened Graph

  // ----- specification functions

  /** Sources of the edges into `v`, in edge order, with repetitions. */
  function Parents(edges: seq<Edge>, v: Id): seq<Id> {
    if |edges| == 0 then []
    else
      var rest, e := Parents(edges[..|edges| - 1], v), edges[|edges| - 1];
      if e.target == v then rest + [e.source] else rest
  }

  function LevelOf(levels: map<Id, nat>, v: Id): nat {
    if v in levels then levels[v] else 0
  }

  /** One more than the highest level among the parents; 0 without parents. */
  function AboveParents(parents: seq<Id>, levels: map<Id, nat>): nat {
    if |parents| == 0 then 0
    else
      var below, l := AboveParents(parents[..|parents| - 1], levels), LevelOf(levels, parents[|parents| - 1]) + 1;
      if below < l then l else below
  }

  /** The level of every node of `order`, from front to back. */
  function Levels(order: seq<Id>, edges: seq<Edge>): map<Id, nat> {
    if |order| == 0 then map[]
    else
      var before, v := Levels(order[..|order| - 1], edges), order[|order| - 1];
      before[v := AboveParents(Parents(edges, v), before)]
  }

  /** The nodes of one level, in order. */
  function AtLevel(order: seq<Id>, levels: map<Id, nat>, l: nat): seq<Id> {
    if |order| == 0 then []
    else
      var before, v := AtLevel(order[..|order| - 1], levels, l), order[|order| - 1];
      if LevelOf(levels, v) == l then before + [v] else before
  }

  function Concat(waves: seq<seq<Id>>): seq<Id> {
    if |waves| == 0 then [] else Concat(waves[..|waves| - 1]) + waves[|waves| - 1]
  }

  /** The waves are the non-empty levels, lowest first. */
  ghost predicate GroupedByLevel(order: seq<Id>, levels: map<Id, nat>, waves: seq<seq<Id>>, keys: seq<nat>) {
    && |waves| == |keys|
    && Increasing(keys)
    && (forall i :: 0 <= i < |keys| ==> waves[i] == AtLevel(order, levels, keys[i]))
    && (forall i :: 0 <= i < |keys| ==> waves[i] != [])
    && (forall v :: v in order ==> LevelOf(levels, v) in keys)
  }

  // ----- the planner

  method BuildExecutionWaves(executionOrder: seq<Id>, edges: seq<Edge>)
    returns (waves: seq<seq<Id>>, ghost keys: seq<nat>)
    ensures GroupedByLevel(executionOrder, Levels(executionOrder, edges), waves, keys)
  {
    if |executionOrder| == 0 {
      return [], [];
    }
    var parentsByNode := CollectParents(executionOrder, edges);
    var levelByNode: map<Id, nat> := map[];
    for i := 0 to |executionOrder|
      invariant levelByNode == Levels(executionOrder[..i], edges)
    {
      var nodeId := executionOrder[i];
      assert executionOrder[..i + 1][..i] == executionOrder[..i];
      var parents := parentsByNode[nodeId];
      var level: nat := 0;
      for k := 0 to |parents|
        invariant level == AboveParents(parents[..k], levelByNode)
      {
        assert parents[..k + 1][..k] == parents[..k];
        var parentLevel := LevelOf(levelByNode, parents[k]);
        level := if level < parentLevel + 1 then parentLevel + 1 else level;
      }
      assert parents[..|parents|] == parents;
      levelByNode := levelByNode[nodeId := level];
    }
    assert executionOrder[..|executionOrder|] == executionOrder;
    var wavesByLevel := GroupNodes(executionOrder, levelByNode);
    waves, keys := SortByLevel(executionOrder, levelByNode, wavesByLevel);
  }

  method CollectParents(executionOrder: seq<Id>, edges: seq<Edge>) returns (parentsByNode: map<Id, seq<Id>>)
    ensures forall v :: v in executionOrder ==> v in parentsByNode && parentsByNode[v] == Parents(edges, v)
  {
    parentsByNode := map v | v in executionOrder :: [];
    for i := 0 to |edges|
      invariant parentsByNode.Keys == Elements(executionOrder)
      invariant forall v :: v in parentsByNode ==> parentsByNode[v] == Parents(edges[..i], v)
    {
      assert edges[..i + 1][..i] == edges[..i];
      var edge := edges[i];
      if edge.target in parentsByNode {
        parentsByNode := parentsByNode[edge.target := parentsByNode[edge.target] + [edge.source]];
      }
    }
    assert edges[..|edges|] == edges;
  }

  lemma AtLevelOneMore(order: seq<Id>, i: nat, levels: map<Id, nat>, l: nat)
    requires i < |order|
    ensures AtLevel(order[..i + 1], levels, l)
         == AtLevel(order[..i], levels, l) + if LevelOf(levels, order[i]) == l then [order[i]] else []
  {
    assert order[..i + 1][..i] == order[..i];
  }

  lemma AtLevelOfNothing(levels: map<Id, nat>, l: nat)
    ensures AtLevel([], levels, l) == []
  {
  }

  method GroupNodes(executionOrder: seq<Id>, levels: map<Id, nat>) returns (wavesByLevel: map<nat, seq<Id>>)
    ensures forall l :: l in wavesByLevel ==> wavesByLevel[l] == AtLevel(executionOrder, levels, l) != []
    ensures forall v :: v in executionOrder ==> LevelOf(levels, v) in wavesByLevel
  {
    hide AtLevel;
    hide LevelOf;
    wavesByLevel := map[];
    assert executionOrder[..0] == [];
    forall l: nat { AtLevelOfNothing(levels, l); }
    for i := 0 to |executionOrder|
      invariant forall l :: l in wavesByLevel ==> wavesByLevel[l] == AtLevel(executionOrder[..i], levels, l) != []
      invariant forall l: nat :: l !in wavesByLevel ==> AtLevel(executionOrder[..i], levels, l) == []
      invariant forall k :: 0 <= k < i ==> LevelOf(levels, executionOrder[k]) in wavesByLevel
    {
      forall l: nat { AtLevelOneMore(executionOrder, i, levels, l); }
      var level := LevelOf(levels, executionOrder[i]);
      var wave := if level in wavesByLevel then wavesByLevel[level] else [];
      wavesByLevel := wavesByLevel[level := wave + [executionOrder[i]]];
    }
    assert executionOrder[..|executionOrder|] == executionOrder;
  }

  /** `Array.from(entries).sort` on distinct integer keys: the lowest level is taken first. */
  method SortByLevel(ghost executionOrder: seq<Id>, ghost levels: map<Id, nat>, wavesByLevel: map<nat, seq<Id>>)
    returns (waves: seq<seq<Id>>, ghost keys: seq<nat>)
    requires forall l :: l in wavesByLevel ==> wavesByLevel[l] == AtLevel(executionOrder, levels, l) != []
    requires forall v :: v in executionOrder ==> LevelOf(levels, v) in wavesByLevel
    ensures GroupedByLevel(executionOrder, levels, waves, keys)
  {
    hide AtLevel;
    hide LevelOf;
    var left := wavesByLevel.Keys;
    waves, keys := [], [];
    while left != {}
      invariant left <= wavesByLevel.Keys && |waves| == |keys|
      invariant forall l :: l in wavesByLevel && l !in left ==> l in keys
      invariant Increasing(keys) && AllBelow(keys, left)
      invariant forall i :: 0 <= i < |keys| ==> keys[i] in wavesByLevel && waves[i] == wavesByLevel[keys[i]]
    {
      var l := Lowest(left);
      TakeLowest(keys, left, l);
      waves, keys, left := waves + [wavesByLevel[l]], keys + [l], left - {l};
    }
  }

  ghost predicate Increasing(keys: seq<nat>) {
    forall i, j :: 0 <= i < j < |keys| ==> keys[i] < keys[j]
  }

  ghost predicate AllBelow(keys: seq<nat>, rest: set<nat>) {
    forall i, l :: 0 <= i < |keys| && l in rest ==> keys[i] < l
  }

  lemma TakeLowest(keys: seq<nat>, rest: set<nat>, l: nat)
    requires Increasing(keys) && AllBelow(keys, rest) && l in rest && forall k :: k in rest ==> l <= k
    ensures Increasing(keys + [l]) && AllBelow(keys + [l], rest - {l})
  {
  }

  predicate IsLowest(s: set<nat>, l: nat) {
    l in s && forall k :: k in s ==> l <= k
  }

  function Lowest(s: set<nat>): (l: nat)
    requires s != {}
    ensures IsLowest(s, l)
  {
    LowestExists(s);
    var l :| IsLowest(s, l);
    l
  }

  lemma {:induction false} LowestExists(s: set<nat>)
    requires s != {}
    ensures exists l :: IsLowest(s, l)
  {
    var x :| x in s;
    if s == {x} {
      assert IsLowest(s, x);
    } else {
      LowestExists(s - {x});
      var l :| IsLowest(s - {x}, l);
      assert s == s - {x} + {x};
      assert IsLowest(s, if x < l then x else l);
    }
  }

  // ----- levels are longest paths

  lemma AboveEveryParent(parents: seq<Id>, levels: map<Id, nat>)
    ensures forall u :: u in parents ==> LevelOf(levels, u) < AboveParents(parents, levels)
  {
    if |parents| > 0 {
      AboveEveryParent(parents[..|parents| - 1], levels);
      assert parents == parents[..|parents| - 1] + [parents[|parents| - 1]];
    }
  }

  lemma JustAboveSomeParent(parents: seq<Id>, levels: map<Id, nat>) returns (u: Id)
    requires AboveParents(parents, levels) > 0
    ensures u in parents && LevelOf(levels, u) + 1 == AboveParents(parents, levels)
  {
    var init, last := parents[..|parents| - 1], parents[|parents| - 1];
    assert parents == init + [last];
    if LevelOf(levels, last) + 1 == AboveParents(parents, levels) {
      u := last;
    } else {
      u := JustAboveSomeParent(init, levels);
    }
  }

  lemma ParentEdge(edges: seq<Edge>, u: Id, v: Id)
    ensures u in Parents(edges, v) <==> HasEdge(edges, u, v)
  {
    if |edges| > 0 {
      assert edges == edges[..|edges| - 1] + [edges[|edges| - 1]];
      ParentEdge(edges[..|edges| - 1], u, v);
    }
  }

  /** A node's level is settled as soon as it has been visited. */
  lemma {:induction false} LevelsPrefix(order: seq<Id>, edges: seq<Edge>, n: nat, i: nat)
    requires Distinct(order) && i < n <= |order|
    ensures order[i] in Levels(order[..n], edges) && order[i] in Levels(order, edges)
    ensures Levels(order[..n], edges)[order[i]] == Levels(order, edges)[order[i]]
    decreases |order|
  {
    var m := |order| - 1;
    if n == |order| {
      assert order[..n] == order;
      if i < m { LevelsPrefix(order[..m], edges, m, i); }
    } else {
      assert order[..m][..n] == order[..n];
      LevelsPrefix(order[..m], edges, n, i);
    }
  }

  lemma LevelAt(order: seq<Id>, edges: seq<Edge>, i: nat)
    requires Distinct(order) && i < |order|
    ensures order[i] in Levels(order, edges)
    ensures Levels(order, edges)[order[i]] == AboveParents(Parents(edges, order[i]), Levels(order[..i], edges))
  {
    LevelsPrefix(order, edges, i + 1, i);
    assert order[..i + 1][..i] == order[..i];
  }

  lemma LevelOfParent(order: seq<Id>, edges: seq<Edge>, i: nat, u: Id)
    requires Distinct(order) && Topological(order, edges) && i < |order| && HasEdge(edges, u, order[i])
    ensures 0 <= IndexOf(order, u) < i
    ensures LevelOf(Levels(order[..i], edges), u) == LevelOf(Levels(order, edges), u)
  {
    IndexOfAt(order, i);
    LevelsPrefix(order, edges, i, IndexOf(order, u));
  }

  /** Every edge climbs. */
  lemma EdgeClimbs(order: seq<Id>, edges: seq<Edge>, u: Id, v: Id)
    requires Distinct(order) && Topological(order, edges) && HasEdge(edges, u, v)
    ensures LevelOf(Levels(order, edges), u) < LevelOf(Levels(order, edges), v)
  {
    var i := IndexOf(order, v);
    LevelAt(order, edges, i);
    LevelOfParent(order, edges, i, u);
    ParentEdge(edges, u, v);
    AboveEveryParent(Parents(edges, v), Levels(order[..i], edges));
  }

  /** A node above level 0 has a parent exactly one level below. */
  lemma ParentOneBelow(order: seq<Id>, edges: seq<Edge>, v: Id) returns (u: Id)
    requires Distinct(order) && Topological(order, edges) && v in order && LevelOf(Levels(order, edges), v) > 0
    ensures HasEdge(edges, u, v) && u in order
    ensures LevelOf(Levels(order, edges), u) + 1 == LevelOf(Levels(order, edges), v)
  {
    var i := IndexOf(order, v);
    LevelAt(order, edges, i);
    u := JustAboveSomeParent(Parents(edges, v), Levels(order[..i], edges));
    ParentEdge(edges, u, v);
    LevelOfParent(order, edges, i, u);
  }

  lemma {:induction false} PathIsNoLongerThanLevel(order: seq<Id>, edges: seq<Edge>, p: seq<Id>)
    requires Distinct(order) && Topological(order, edges) && IsPath(edges, p)
    ensures |p| - 1 <= LevelOf(Levels(order, edges), p[|p| - 1])
  {
    if |p| > 1 {
      var m := |p| - 1;
      Subpath(edges, p, 0, m);
      PathIsNoLongerThanLevel(order, edges, p[..m]);
      assert HasEdge(edges, p[m - 1], p[m - 1 + 1]);
      EdgeClimbs(order, edges, p[m - 1], p[m]);
    }
  }

  lemma {:induction false} PathOfLevel(order: seq<Id>, edges: seq<Edge>, v: Id) returns (p: seq<Id>)
    requires Distinct(order) && Topological(order, edges) && v in order
    ensures IsPath(edges, p) && p[|p| - 1] == v && |p| - 1 == LevelOf(Levels(order, edges), v)
    ensures forall i :: 0 <= i < |p| ==> p[i] in order
    decreases LevelOf(Levels(order, edges), v)
  {
    if LevelOf(Levels(order, edges), v) == 0 {
      p := [v];
    } else {
      var u := ParentOneBelow(order, edges, v);
      var q := PathOfLevel(order, edges, u);
      p := q + [v];
      forall i | 0 <= i < |p| - 1 ensures HasEdge(edges, p[i], p[i + 1]) {
        if i < |q| - 1 { assert HasEdge(edges, q[i], q[i + 1]); }
      }
    }
  }

  // ----- the execution order is sorted by level

  ghost predicate SortedByLevel(order: seq<Id>, levels: map<Id, nat>) {
    forall i, j :: 0 <= i <= j < |order| ==> LevelOf(levels, order[i]) <= LevelOf(levels, order[j])
  }

  lemma {:induction false} BoundedAboveParents(parents: seq<Id>, levels: map<Id, nat>, bound: nat)
    requires forall u :: u in parents ==> LevelOf(levels, u) < bound
    ensures AboveParents(parents, levels) <= bound
  {
    if |parents| > 0 {
      assert parents == parents[..|parents| - 1] + [parents[|parents| - 1]];
      BoundedAboveParents(parents[..|parents| - 1], levels, bound);
    }
  }

  /** While the nodes before it are sorted, a node stands one level above its last parent. */
  lemma LevelAboveLastParent(order: seq<Id>, edges: seq<Edge>, j: nat)
    requires Distinct(order) && Topological(order, edges) && j < |order|
    requires SortedByLevel(order[..j], Levels(order, edges))
    ensures var p := LastParent(order, edges, order[j]);
      && p < j
      && LevelOf(Levels(order, edges), order[j])
         == if p < 0 then 0 else LevelOf(Levels(order, edges), order[p]) + 1
  {
    hide Levels;
    hide LastParent;
    hide IndexOf;
    var v, levels := order[j], Levels(order, edges);
    var p := LastParent(order, edges, v);
    var l := if p < 0 then 0 else LevelOf(levels, order[p]) + 1;
    LastParentIsLast(order, edges, v);
    IndexOfAt(order, j);
    if p >= 0 {
      LastParentIsParent(order, edges, v);
      assert HasEdge(edges, order[p], v);
      EdgeClimbs(order, edges, order[p], v);
    }
    LevelAt(order, edges, j);
    forall u | u in Parents(edges, v) ensures LevelOf(Levels(order[..j], edges), u) < l {
      ParentEdge(edges, u, v);
      LevelOfParent(order, edges, j, u);
      var k := IndexOf(order, u);
      assert order[..j][k] == order[k] && order[..j][p] == order[p];
    }
    BoundedAboveParents(Parents(edges, v), Levels(order[..j], edges), l);
  }

  lemma {:induction false} PrefixSorted(ids: seq<Id>, edges: seq<Edge>, order: seq<Id>, n: nat)
    requires ExecutionOrder(ids, edges, order) && n <= |order|
    ensures SortedByLevel(order[..n], Levels(order, edges))
  {
    if n > 0 {
      var j := n - 1;
      PrefixSorted(ids, edges, order, j);
      forall i | 0 <= i < j
        ensures LevelOf(Levels(order, edges), order[i]) <= LevelOf(Levels(order, edges), order[j])
      {
        NotBelowEarlier(ids, edges, order, i, j);
      }
      SortedSnoc(order[..j], order[j], Levels(order, edges));
      assert order[..n] == order[..j] + [order[j]];
    }
  }

  lemma NotBelowEarlier(ids: seq<Id>, edges: seq<Edge>, order: seq<Id>, i: nat, j: nat)
    requires ExecutionOrder(ids, edges, order) && i < j < |order|
    requires SortedByLevel(order[..j], Levels(order, edges))
    ensures LevelOf(Levels(order, edges), order[i]) <= LevelOf(Levels(order, edges), order[j])
  {
    hide Levels;
    hide LastParent;
    hide IndexOf;
    var levels := Levels(order, edges);
    forall a, b | 0 <= a <= b < j ensures LevelOf(levels, order[a]) <= LevelOf(levels, order[b]) {
      assert order[..j][a] == order[a] && order[..j][b] == order[b];
    }
    assert SortedByLevel(order[..i], levels);
    LevelAboveLastParent(order, edges, i);
    LevelAboveLastParent(order, edges, j);
    assert ReadyBefore(ids, order, edges, order[i], order[j]);
  }

  lemma SortedSnoc(order: seq<Id>, v: Id, levels: map<Id, nat>)
    requires SortedByLevel(order, levels)
    requires forall i :: 0 <= i < |order| ==> LevelOf(levels, order[i]) <= LevelOf(levels, v)
    ensures SortedByLevel(order + [v], levels)
  {
    hide LevelOf;
  }

  /** First come, first served is breadth first: an execution order never goes down a level. */
  lemma ExecutionOrderIsSorted(ids: seq<Id>, edges: seq<Edge>, order: seq<Id>)
    requires ExecutionOrder(ids, edges, order)
    ensures SortedByLevel(order, Levels(order, edges))
  {
    PrefixSorted(ids, edges, order, |order|);
    assert order[..|order|] == order;
  }

  // ----- the waves of an execution order

  function BelowLevel(order: seq<Id>, levels: map<Id, nat>, l: nat): seq<Id> {
    if |order| == 0 then []
    else
      var before, v := BelowLevel(order[..|order| - 1], levels, l), order[|order| - 1];
      if LevelOf(levels, v) < l then before + [v] else before
  }

  lemma {:induction false} NothingAbove(order: seq<Id>, levels: map<Id, nat>, l: nat)
    requires forall i :: 0 <= i < |order| ==> LevelOf(levels, order[i]) < l
    ensures BelowLevel(order, levels, l) == order
    ensures AtLevel(order, levels, l) == []
  {
    if |order| > 0 {
      NothingAbove(order[..|order| - 1], levels, l);
      assert order == order[..|order| - 1] + [order[|order| - 1]];
    }
  }

  lemma {:induction false} NextLevel(order: seq<Id>, levels: map<Id, nat>, l: nat)
    requires SortedByLevel(order, levels)
    ensures BelowLevel(order, levels, l + 1) == BelowLevel(order, levels, l) + AtLevel(order, levels, l)
  {
    if |order| > 0 {
      var init, v := order[..|order| - 1], order[|order| - 1];
      assert forall i :: 0 <= i < |init| ==> init[i] == order[i];
      NextLevel(init, levels, l);
      if LevelOf(levels, v) < l {
        forall i | 0 <= i < |init| ensures LevelOf(levels, init[i]) < l {
          assert LevelOf(levels, order[i]) <= LevelOf(levels, order[|order| - 1]);
        }
        NothingAbove(init, levels, l);
      }
    }
  }

  lemma {:induction false} ConcatIsBelow(order: seq<Id>, levels: map<Id, nat>, waves: seq<seq<Id>>,
                                         keys: seq<nat>, n: nat)
    requires SortedByLevel(order, levels) && GroupedByLevel(order, levels, waves, keys) && n <= |waves|
    requires forall i :: 0 <= i < |keys| ==> keys[i] == i
    ensures Concat(waves[..n]) == BelowLevel(order, levels, n)
  {
    if n == 0 {
      NothingBelowZero(order, levels);
    } else {
      ConcatIsBelow(order, levels, waves, keys, n - 1);
      NextLevel(order, levels, n - 1);
      assert waves[..n][..n - 1] == waves[..n - 1];
    }
  }

  lemma {:induction false} NothingBelowZero(order: seq<Id>, levels: map<Id, nat>)
    ensures BelowLevel(order, levels, 0) == []
  {
    if |order| > 0 { NothingBelowZero(order[..|order| - 1], levels); }
  }

  lemma AtLevelMembers(order: seq<Id>, levels: map<Id, nat>, l: nat, v: Id)
    ensures v in AtLevel(order, levels, l) <==> v in order && LevelOf(levels, v) == l
  {
    if |order| > 0 {
      AtLevelMembers(order[..|order| - 1], levels, l, v);
      assert order == order[..|order| - 1] + [order[|order| - 1]];
    }
  }

  /** Level numbers have no gaps. */
  lemma {:induction false} NoGaps(ids: seq<Id>, edges: seq<Edge>, order: seq<Id>, waves: seq<seq<Id>>,
                                  keys: seq<nat>, i: nat)
    requires ExecutionOrder(ids, edges, order) && i < |keys|
    requires GroupedByLevel(order, Levels(order, edges), waves, keys)
    ensures keys[i] == i
    decreases i
  {
    hide Levels;
    hide AtLevel;
    hide LevelOf;
    hide ExecutionOrder;
    if i > 0 { NoGaps(ids, edges, order, waves, keys, i - 1); }
    if keys[i] > i {
      var v := waves[i][0];
      AtLevelMembers(order, Levels(order, edges), keys[i], v);
      OneLevelDown(ids, edges, order, v);
      NoKeyBetween(keys, i, keys[i] - 1);
      assert false;
    }
  }

  lemma OneLevelDown(ids: seq<Id>, edges: seq<Edge>, order: seq<Id>, v: Id)
    requires ExecutionOrder(ids, edges, order) && v in order && LevelOf(Levels(order, edges), v) > 0
    ensures exists u :: u in order && LevelOf(Levels(order, edges), u) == LevelOf(Levels(order, edges), v) - 1
  {
    var u := ParentOneBelow(order, edges, v);
  }

  lemma NoKeyBetween(keys: seq<nat>, i: nat, l: nat)
    requires Increasing(keys) && i < |keys| && l in keys && l < keys[i]
    ensures i > 0 && l <= keys[i - 1]
  {
    var k :| 0 <= k < |keys| && keys[k] == l;
  }

  ghost predicate PathTo(edges: seq<Edge>, p: seq<Id>, v: Id) {
    IsPath(edges, p) && p[|p| - 1] == v
  }

  /** The longest path that ends in `v` has `n` edges. */
  ghost predicate LongestPath(edges: seq<Edge>, v: Id, n: nat) {
    && (exists p :: PathTo(edges, p, v) && |p| == n + 1)
    && (forall p :: PathTo(edges, p, v) ==> |p| <= n + 1)
  }

  lemma LevelIsLongestPath(order: seq<Id>, edges: seq<Edge>, v: Id, n: nat)
    requires Distinct(order) && Topological(order, edges) && v in order
    ensures LevelOf(Levels(order, edges), v) == n <==> LongestPath(edges, v, n)
  {
    hide Levels;
    var p := PathOfLevel(order, edges, v);
    assert PathTo(edges, p, v);
    forall q | PathTo(edges, q, v) ensures |q| <= |p| {
      PathIsNoLongerThanLevel(order, edges, q);
    }
  }

  /** Running wave after wave is running the execution order. The recorded steps are complete because of this. */
  lemma WavesAreExecutionOrder(ids: seq<Id>, edges: seq<Edge>, order: seq<Id>, waves: seq<seq<Id>>, keys: seq<nat>)
    requires ExecutionOrder(ids, edges, order)
    requires GroupedByLevel(order, Levels(order, edges), waves, keys)
    ensures Concat(waves) == order
    ensures forall l: nat, v | l < |waves| :: v in waves[l] <==> v in order && LongestPath(edges, v, l)
    ensures forall v :: v in order ==> LevelOf(Levels(order, edges), v) < |waves|
  {
    hide Levels;
    var levels := Levels(order, edges);
    forall i | 0 <= i < |keys| ensures keys[i] == i { NoGaps(ids, edges, order, waves, keys, i); }
    ExecutionOrderIsSorted(ids, edges, order);
    ConcatIsBelow(order, levels, waves, keys, |waves|);
    assert waves[..|waves|] == waves;
    NothingAbove(order, levels, |waves|);
    forall l: nat, v | l < |waves| ensures v in waves[l] <==> v in order && LongestPath(edges, v, l) {
      AtLevelMembers(order, levels, l, v);
      if v in order { LevelIsLongestPath(order, edges, v, l); }
    }
  }

  /** Every edge leads to a strictly later wave. */
  lemma EdgesLeadToLaterWaves(ids: seq<Id>, edges: seq<Edge>, order: seq<Id>, waves: seq<seq<Id>>, keys: seq<nat>,
                              e: Edge, a: nat, b: nat)
    requires ExecutionOrder(ids, edges, order)
    requires GroupedByLevel(order, Levels(order, edges), waves, keys)
    requires e in edges && a < |waves| && b < |waves| && e.source in waves[a] && e.target in waves[b]
    ensures a < b
  {
    hide Levels;
    NoGaps(ids, edges, order, waves, keys, a);
    NoGaps(ids, edges, order, waves, keys, b);
    AtLevelMembers(order, Levels(order, edges), a, e.source);
    AtLevelMembers(order, Levels(order, edges), b, e.target);
    EdgeClimbs(order, edges, e.source, e.target);
  }

  // ----- minimality

  /** Values of `layer` that occur on the nodes of `order`. */
  ghost function LayersUsed(order: seq<Id>, layer: Id -> int): set<int> {
    set v | v in order :: layer(v)
  }

  lemma {:induction false} ClimbingPathUsesLayers(edges: seq<Edge>, order: seq<Id>, layer: Id -> int, p: seq<Id>)
    requires IsPath(edges, p) && forall i :: 0 <= i < |p| ==> p[i] in order
    requires forall e :: e in edges ==> layer(e.source) < layer(e.target)
    ensures |PathLayers(p, layer)| == |p|
    ensures forall i :: 0 <= i < |p| ==> layer(p[i]) <= layer(p[|p| - 1])
  {
    var m := |p| - 1;
    if m == 0 {
      assert PathLayers(p, layer) == {layer(p[0])};
    } else {
      Subpath(edges, p, 0, m);
      ClimbingPathUsesLayers(edges, order, layer, p[..m]);
      assert HasEdge(edges, p[m - 1], p[m - 1 + 1]);
      hide IsPath;
      assert p == p[..m] + [p[m]];
      OneMoreLayer(p[..m], p[m], layer);
    }
  }

  ghost function PathLayers(p: seq<Id>, layer: Id -> int): set<int> {
    set i | 0 <= i < |p| :: layer(p[i])
  }

  lemma OneMoreLayer(p: seq<Id>, v: Id, layer: Id -> int)
    requires |PathLayers(p, layer)| == |p|
    requires forall i :: 0 <= i < |p| ==> layer(p[i]) < layer(v)
    ensures |PathLayers(p + [v], layer)| == |p| + 1
  {
    var longer := p + [v];
    assert longer[|p|] == v && forall i :: 0 <= i < |p| ==> longer[i] == p[i];
    assert PathLayers(longer, layer) == PathLayers(p, layer) + {layer(v)};
  }

  /** No assignment of layers that respects the edges makes do with fewer layers than there are waves. */
  lemma WavesAreMinimal(ids: seq<Id>, edges: seq<Edge>, order: seq<Id>, waves: seq<seq<Id>>, keys: seq<nat>,
                        layer: Id -> int)
    requires ExecutionOrder(ids, edges, order)
    requires GroupedByLevel(order, Levels(order, edges), waves, keys)
    requires forall e :: e in edges ==> layer(e.source) < layer(e.target)
    ensures |LayersUsed(order, layer)| >= |waves|
  {
    if |waves| > 0 {
      var top := |waves| - 1;
      var v := waves[top][0];
      NoGaps(ids, edges, order, waves, keys, top);
      AtLevelMembers(order, Levels(order, edges), top, v);
      var p := PathOfLevel(order, edges, v);
      ClimbingPathUsesLayers(edges, order, layer, p);
      CoversAtLeast(PathLayers(p, layer), LayersUsed(order, layer));
    }
  }

  lemma CoversAtLeast(a: set<int>, b: set<int>)
    requires a <= b
    ensures |a| <= |b|
  {
    assert b == a + (b - a);
  }
}
