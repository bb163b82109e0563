/** Conditional edges: when does an edge carry its source's output to its target? */
module Branching {
  import opened Values
  import opened Graph
  import Text

  function ReadPath(current: Value, parts: seq<string>): Value
    decreases |parts|
  {
    if parts == [] then current
    else if !current.Record? then Undefined
    else ReadPath(if parts[0] in current.fields then current.fields[parts[0]] else Undefined, parts[1..])
  }

  function ReadBoolean(source: Fields, parts: seq<string>): Option<bool> {
    var value := ReadPath(Record(source), parts);
    if value.Bool? then Some(value.b) else None
  }

  function ReadString(source: Fields, parts: seq<string>): Option<string> {
    var value := ReadPath(Record(source), parts);
    if value.Text? && Text.Trim(value.s) != "" then Some(Text.Trim(value.s)) else None
  }

  /** The boolean that decides a true/false branch, taken from the first place that holds one. */
  function Decision(output: Fields): Option<bool> {
    var fromCondition := ReadBoolean(output, ["_condition", "result"]);
    var fromEvaluation := ReadBoolean(output, ["_evaluation", "passed"]);
    if fromCondition.Some? then fromCondition
    else if fromEvaluation.Some? then fromEvaluation
    else ReadBoolean(output, ["result"])
  }

  function RouteTaken(output: Fields): Option<string> {
    var route := ReadString(output, ["_route"]);
    var branch := ReadString(output, ["_branch", "route"]);
    if route.Some? then route
    else if branch.Some? then branch
    else ReadString(output, ["route"])
  }

  /** A textual condition, trimmed and in lower case. */
  function Token(raw: string): string {
    Text.ToLower(Text.Trim(raw))
  }

  /** Branches of which an output can take one: the boolean ones, those of an evaluation and the named routes. */
  datatype Family = Unconditional | Boolean | Evaluation | Route

  function FamilyOf(token: string): Family {
    if token in {"", "always", "any"} then Unconditional
    else if token in {"true", "false"} then Boolean
    else if token in {"pass", "fail"} then Evaluation
    else Route
  }

  predicate EdgeConditionMatches(condition: Value, output: Fields) {
    match condition
    case Bool(expected) => Decision(output) == Some(expected)
    case Text(raw) =>
      var token := Token(raw);
      (match FamilyOf(token)
       case Unconditional => true
       case Boolean => Decision(output) == Some(token == "true")
       case Evaluation => ReadBoolean(output, ["_evaluation", "passed"]) == Some(token == "pass")
       case Route => RouteTaken(output).Some? && Text.ToLower(RouteTaken(output).value) == token)
    case _ => true
  }

  /** The edges into `v`, in edge order. */
  function Incoming(edges: seq<Edge>, v: Id): seq<Edge> {
    if |edges| == 0 then []
    else
      var rest, e := Incoming(edges[..|edges| - 1], v), edges[|edges| - 1];
      if e.target == v then rest + [e] else rest
  }

  lemma IncomingMembers(edges: seq<Edge>, v: Id)
    ensures forall e :: e in Incoming(edges, v) <==> e in edges && e.target == v
  {
    if |edges| > 0 {
      assert edges == edges[..|edges| - 1] + [edges[|edges| - 1]];
      IncomingMembers(edges[..|edges| - 1], v);
    }
  }

  lemma NothingIncoming(edges: seq<Edge>, v: Id)
    requires forall e :: e in edges ==> e.target != v
    ensures Incoming(edges, v) == []
  {
    if |edges| > 0 {
      assert edges == edges[..|edges| - 1] + [edges[|edges| - 1]] && edges[|edges| - 1] in edges;
      NothingIncoming(edges[..|edges| - 1], v);
    }
  }

  /** The edge carries data: its source has an output and its condition matches it. */
  predicate Carries(e: Edge, outputs: map<Id, Fields>) {
    e.source in outputs && EdgeConditionMatches(e.condition, outputs[e.source])
  }

  /** `Object.assign` over the outputs that the edges carry, in edge order. */
  function Merged(incoming: seq<Edge>, outputs: map<Id, Fields>): Fields {
    if |incoming| == 0 then map[]
    else
      var rest, e := Merged(incoming[..|incoming| - 1], outputs), incoming[|incoming| - 1];
      if Carries(e, outputs) then rest + outputs[e.source] else rest
  }

  predicate AnyCarries(incoming: seq<Edge>, outputs: map<Id, Fields>) {
    exists e :: e in incoming && Carries(e, outputs)
  }

  datatype ParentResolution = ParentResolution(merged: Fields, skipNode: bool)

  /** A node with parents is skipped when none of its edges carries anything. */
  function Resolution(v: Id, edges: seq<Edge>, outputs: map<Id, Fields>): ParentResolution {
    var incoming := Incoming(edges, v);
    ParentResolution(Merged(incoming, outputs), incoming != [] && !AnyCarries(incoming, outputs))
  }

  method ResolveParentOutputs(nodeId: Id, edges: seq<Edge>, outputMap: map<Id, Fields>)
    returns (r: ParentResolution)
    ensures r == Resolution(nodeId, edges, outputMap)
  {
    var parentEdges := Incoming(edges, nodeId);
    var merged: Fields := map[];
    var matchedParents := 0;
    for i := 0 to |parentEdges|
      invariant merged == Merged(parentEdges[..i], outputMap)
      invariant 0 <= matchedParents <= i
      invariant matchedParents == 0 <==> !AnyCarries(parentEdges[..i], outputMap)
    {
      var edge := parentEdges[i];
      assert parentEdges[..i + 1][..i] == parentEdges[..i];
      assert parentEdges[..i + 1] == parentEdges[..i] + [edge];
      if edge.source in outputMap && EdgeConditionMatches(edge.condition, outputMap[edge.source]) {
        merged := merged + outputMap[edge.source];
        matchedParents := matchedParents + 1;
        assert edge in parentEdges[..i + 1] && Carries(edge, outputMap);
      }
    }
    assert parentEdges[..|parentEdges|] == parentEdges;
    return ParentResolution(merged, |parentEdges| > 0 && matchedParents == 0);
  }

  /** Of two edges with different conditions of one family, an output takes at most one. */
  lemma BranchesExclude(raw1: string, raw2: string, output: Fields)
    requires Token(raw1) != Token(raw2) && FamilyOf(Token(raw1)) == FamilyOf(Token(raw2)) != Unconditional
    ensures !(EdgeConditionMatches(Text(raw1), output) && EdgeConditionMatches(Text(raw2), output))
  {
  }

  /** The condition asks for one outcome of a decision, as a boolean or in words. */
  predicate Expects(condition: Value, outcome: bool) {
    match condition
    case Bool(b) => b == outcome
    case Text(raw) => Token(raw) == if outcome then "true" else "false"
    case _ => false
  }

  /** All edges into `v`, at least one, come from `u` with a condition of this kind. */
  ghost predicate OnlyFrom(edges: seq<Edge>, v: Id, u: Id, accepts: Value -> bool) {
    && (exists e :: e in edges && e.target == v)
    && forall e :: e in edges && e.target == v ==> e.source == u && accepts(e.condition)
  }

  lemma SkippedUnlessCarried(edges: seq<Edge>, v: Id, u: Id, accepts: Value -> bool, outputs: map<Id, Fields>)
    requires OnlyFrom(edges, v, u, accepts)
    ensures !Resolution(v, edges, outputs).skipNode ==>
      u in outputs && exists c: Value :: accepts(c) && EdgeConditionMatches(c, outputs[u])
    ensures u in outputs && (forall c: Value :: accepts(c) ==> EdgeConditionMatches(c, outputs[u])) ==>
      !Resolution(v, edges, outputs).skipNode
  {
    IncomingMembers(edges, v);
    hide EdgeConditionMatches;
    var incoming := Incoming(edges, v);
    var e :| e in edges && e.target == v;
    assert e in incoming;
    if AnyCarries(incoming, outputs) {
      var f :| f in incoming && Carries(f, outputs);
      assert accepts(f.condition);
    }
  }

  lemma ExpectedMatches(condition: Value, outcome: bool, output: Fields)
    requires Expects(condition, outcome)
    ensures EdgeConditionMatches(condition, output) <==> Decision(output) == Some(outcome)
  {
    hide Decision;
    hide Token;
    hide ReadBoolean;
    hide RouteTaken;
  }

  /** A decision takes exactly one of its branches: of two nodes behind the true and the false edges of `u`, one runs
      and one is skipped when `u` has decided; otherwise both are skipped. */
  lemma DecisionTakesOneBranch(edges: seq<Edge>, u: Id, v: Id, w: Id, outputs: map<Id, Fields>)
    requires OnlyFrom(edges, v, u, c => Expects(c, true)) && OnlyFrom(edges, w, u, c => Expects(c, false))
    ensures var onTrue, onFalse := !Resolution(v, edges, outputs).skipNode, !Resolution(w, edges, outputs).skipNode;
      if u in outputs && Decision(outputs[u]).Some? then
        onTrue == Decision(outputs[u]).value && onFalse == !Decision(outputs[u]).value
      else !onTrue && !onFalse
  {
    SkippedUnlessCarried(edges, v, u, c => Expects(c, true), outputs);
    SkippedUnlessCarried(edges, w, u, c => Expects(c, false), outputs);
    if u in outputs {
      forall c, outcome | Expects(c, outcome)
        ensures EdgeConditionMatches(c, outputs[u]) <==> Decision(outputs[u]) == Some(outcome)
      {
        ExpectedMatches(c, outcome, outputs[u]);
      }
    }
    hide EdgeConditionMatches;
    hide Resolution;
    hide Decision;
  }

  /** Nodes behind edges of `u` with different conditions of one family never run together. */
  lemma BranchesExcludeNodes(edges: seq<Edge>, u: Id, v: Id, w: Id, raw1: string, raw2: string,
                             outputs: map<Id, Fields>)
    requires Token(raw1) != Token(raw2) && FamilyOf(Token(raw1)) == FamilyOf(Token(raw2)) != Unconditional
    requires OnlyFrom(edges, v, u, c => c == Text(raw1)) && OnlyFrom(edges, w, u, c => c == Text(raw2))
    ensures Resolution(v, edges, outputs).skipNode || Resolution(w, edges, outputs).skipNode
  {
    SkippedUnlessCarried(edges, v, u, c => c == Text(raw1), outputs);
    SkippedUnlessCarried(edges, w, u, c => c == Text(raw2), outputs);
    if u in outputs { BranchesExclude(raw1, raw2, outputs[u]); }
    hide EdgeConditionMatches;
    hide Resolution;
  }

  // ----- what a resolution depends on

  /** Only the outputs of the parents matter. */
  lemma ResolutionDependsOnParents(v: Id, edges: seq<Edge>, o1: map<Id, Fields>, o2: map<Id, Fields>)
    requires forall e :: e in edges && e.target == v ==>
               (e.source in o1 <==> e.source in o2) && (e.source in o1 ==> o1[e.source] == o2[e.source])
    ensures Resolution(v, edges, o1) == Resolution(v, edges, o2)
  {
    IncomingMembers(edges, v);
    var incoming := Incoming(edges, v);
    MergedAgrees(incoming, o1, o2);
    assert forall e :: e in incoming ==> Carries(e, o1) == Carries(e, o2);
  }

  lemma MergedAgrees(incoming: seq<Edge>, o1: map<Id, Fields>, o2: map<Id, Fields>)
    requires forall e :: e in incoming ==>
               (e.source in o1 <==> e.source in o2) && (e.source in o1 ==> o1[e.source] == o2[e.source])
    ensures Merged(incoming, o1) == Merged(incoming, o2)
  {
    if |incoming| > 0 {
      assert incoming == incoming[..|incoming| - 1] + [incoming[|incoming| - 1]];
      MergedAgrees(incoming[..|incoming| - 1], o1, o2);
    }
  }
}
