/** What the conditions of edges ask of an output, said of the output's own fields, and what that makes of a node. */
module Conditions {
  import opened Values
  import opened Graph
  import opened Branching

  // ----- the places a condition looks at

  predicate BoolAt(output: Fields, outer: string, inner: string, b: bool) {
    && outer in output && output[outer].Record?
    && inner in output[outer].fields && output[outer].fields[inner] == Bool(b)
  }

  predicate NoBoolAt(output: Fields, outer: string, inner: string) {
    !BoolAt(output, outer, inner, true) && !BoolAt(output, outer, inner, false)
  }

  /** The output decides for `b`: `_condition.result`, else `_evaluation.passed`, else `result`. */
  predicate DecidesFor(output: Fields, b: bool) {
    || BoolAt(output, "_condition", "result", b)
    || (NoBoolAt(output, "_condition", "result") && BoolAt(output, "_evaluation", "passed", b))
    || (NoBoolAt(output, "_condition", "result") && NoBoolAt(output, "_evaluation", "passed")
        && "result" in output && output["result"] == Bool(b))
  }

  ghost predicate TextReads(v: Value, w: string) {
    v.Text? && !Text.Blank(v.s) && Text.Reads(v.s, w)
  }

  ghost predicate NoText(v: Value) {
    v.Text? ==> Text.Blank(v.s)
  }

  function Top(output: Fields, key: string): Value {
    if key in output then output[key] else Undefined
  }

  function Nested(output: Fields, outer: string, inner: string): Value {
    var v := Top(output, outer);
    if v.Record? && inner in v.fields then v.fields[inner] else Undefined
  }

  /** The output takes the route `w`: `_route`, else `_branch.route`, else `route`. */
  ghost predicate RoutesTo(output: Fields, w: string) {
    || TextReads(Top(output, "_route"), w)
    || (NoText(Top(output, "_route")) && TextReads(Nested(output, "_branch", "route"), w))
    || (NoText(Top(output, "_route")) && NoText(Nested(output, "_branch", "route"))
        && TextReads(Top(output, "route"), w))
  }

  // ----- the kinds of conditions

  /** Nothing is asked: the condition is absent, neither boolean nor text, or an empty or unconditional word. */
  ghost predicate Plain(condition: Value) {
    match condition
    case Bool(_) => false
    case Text(raw) => Text.Reads(raw, "") || Text.Reads(raw, "always") || Text.Reads(raw, "any")
    case _ => true
  }

  ghost predicate AsksFor(condition: Value, b: bool) {
    || condition == Bool(b)
    || (condition.Text? && Text.Reads(condition.s, if b then "true" else "false"))
  }

  ghost predicate AsksPass(condition: Value, b: bool) {
    condition.Text? && Text.Reads(condition.s, if b then "pass" else "fail")
  }

  ghost predicate AsksRoute(condition: Value, w: string) {
    && condition.Text? && Text.Reads(condition.s, w)
    && w !in {"", "always", "any", "true", "false", "pass", "fail"}
  }

  /** The output meets the condition. */
  ghost predicate Holds(condition: Value, output: Fields) {
    || Plain(condition)
    || (exists b :: AsksFor(condition, b) && DecidesFor(output, b))
    || (exists b :: AsksPass(condition, b) && BoolAt(output, "_evaluation", "passed", b))
    || (exists w :: AsksRoute(condition, w) && RoutesTo(output, w))
  }

  // ----- the matcher does what the conditions ask

  lemma ReadTop(output: Fields, key: string)
    ensures ReadPath(Record(output), [key]) == Top(output, key)
  {
    assert [key][1..] == [];
  }

  lemma ReadNested(output: Fields, outer: string, inner: string)
    ensures ReadPath(Record(output), [outer, inner]) == Nested(output, outer, inner)
  {
    assert [outer, inner][1..] == [inner] && [inner][1..] == [];
    var v := Top(output, outer);
    assert ReadPath(Record(output), [outer, inner]) == ReadPath(v, [inner]);
    if v.Record? { assert ReadPath(v, [inner]) == ReadPath(Nested(output, outer, inner), []); }
  }

  lemma DecisionMeans(output: Fields, b: bool)
    ensures Decision(output) == Some(b) <==> DecidesFor(output, b)
    ensures ReadBoolean(output, ["_evaluation", "passed"]) == Some(b) <==> BoolAt(output, "_evaluation", "passed", b)
  {
    ReadNested(output, "_condition", "result");
    ReadNested(output, "_evaluation", "passed");
    ReadTop(output, "result");
    hide ReadPath;
  }

  lemma BlankTrims(s: string)
    ensures Text.Trim(s) == "" <==> Text.Blank(s)
  {
    Text.TrimMeans(s, "");
    if Text.Blank(s) { assert s == s + "" + "" && Text.Blank(""); }
    hide Text.Trim;
    hide Text.IsSpace;
  }

  lemma ReadStringMeans(output: Fields, parts: seq<string>, w: string)
    ensures ReadString(output, parts).None? <==> NoText(ReadPath(Record(output), parts))
    ensures ReadString(output, parts).Some? && Text.ToLower(ReadString(output, parts).value) == w
       <==> TextReads(ReadPath(Record(output), parts), w)
  {
    var v := ReadPath(Record(output), parts);
    hide ReadPath;
    if v.Text? {
      BlankTrims(v.s);
      Text.ReadsMeans(v.s, w);
    }
    hide Text.Trim;
    hide Text.ToLower;
    hide Text.Reads;
    hide Text.Blank;
  }

  lemma RouteMeans(output: Fields, w: string)
    ensures RouteTaken(output).Some? && Text.ToLower(RouteTaken(output).value) == w <==> RoutesTo(output, w)
  {
    ReadTop(output, "_route");
    ReadNested(output, "_branch", "route");
    ReadTop(output, "route");
    ReadStringMeans(output, ["_route"], w);
    ReadStringMeans(output, ["_branch", "route"], w);
    ReadStringMeans(output, ["route"], w);
    hide ReadPath;
    hide ReadString;
    hide Text.ToLower;
    hide Text.Reads;
    hide Text.Blank;
    hide Top;
    hide Nested;
  }

  /** Every kind of condition, on the fields of the output alone. */
  lemma ConditionMeans(condition: Value, output: Fields)
    ensures EdgeConditionMatches(condition, output) <==> Holds(condition, output)
  {
    match condition {
      case Bool(expected) =>
        DecisionMeans(output, expected);
        hide Decision;
        hide DecidesFor;
        hide BoolAt;
      case Text(raw) => WordMeans(raw, output);
      case _ =>
    }
  }

  lemma WordMeans(raw: string, output: Fields)
    ensures EdgeConditionMatches(Text(raw), output) <==> Holds(Text(raw), output)
  {
    var token := Token(raw);
    forall w: string ensures Text.Reads(raw, w) <==> w == token { Text.ReadsMeans(raw, w); }
    hide Text.Reads;
    hide Token;
    WordHolds(raw, token, output);
    DecisionMeans(output, true);
    DecisionMeans(output, false);
    RouteMeans(output, token);
    hide Decision;
    hide DecidesFor;
    hide RouteTaken;
    hide RoutesTo;
    hide ReadBoolean;
    hide BoolAt;
    hide Text.ToLower;
    hide Holds;
  }

  lemma WordHolds(raw: string, token: string, output: Fields)
    requires forall w: string :: Text.Reads(raw, w) <==> w == token
    ensures Holds(Text(raw), output) <==>
      match FamilyOf(token)
      case Unconditional => true
      case Boolean => DecidesFor(output, token == "true")
      case Evaluation => BoolAt(output, "_evaluation", "passed", token == "pass")
      case Route => RoutesTo(output, token)
  {
    hide Text.Reads;
    hide DecidesFor;
    hide BoolAt;
    hide RoutesTo;
    var c := Text(raw);
    assert Plain(c) <==> token in {"", "always", "any"};
    assert AsksFor(c, true) <==> token == "true";
    assert AsksFor(c, false) <==> token == "false";
    assert AsksPass(c, true) <==> token == "pass";
    assert AsksPass(c, false) <==> token == "fail";
    assert forall w :: AsksRoute(c, w) <==> w == token && FamilyOf(token) == Route;
    hide Plain;
    hide AsksFor;
    hide AsksPass;
    hide AsksRoute;
  }

  // ----- what a node receives

  /** The edge gives its source's output to `v`. */
  ghost predicate Gives(e: Edge, v: Id, outputs: map<Id, Fields>) {
    e.target == v && e.source in outputs && Holds(e.condition, outputs[e.source])
  }

  ghost predicate GivesKey(edges: seq<Edge>, i: int, v: Id, outputs: map<Id, Fields>, k: string) {
    0 <= i < |edges| && Gives(edges[i], v, outputs) && k in outputs[edges[i].source]
  }

  lemma IncomingOneMore(edges: seq<Edge>, v: Id, outputs: map<Id, Fields>)
    requires |edges| > 0
    ensures var init, e := edges[..|edges| - 1], edges[|edges| - 1];
      Merged(Incoming(edges, v), outputs)
      == if Gives(e, v, outputs) then Merged(Incoming(init, v), outputs) + outputs[e.source]
         else Merged(Incoming(init, v), outputs)
  {
    var init, e := edges[..|edges| - 1], edges[|edges| - 1];
    var rest := Incoming(init, v);
    if e.source in outputs { ConditionMeans(e.condition, outputs[e.source]); }
    if e.target == v { assert Incoming(edges, v) == rest + [e] && (rest + [e])[..|rest|] == rest; }
    hide EdgeConditionMatches;
    hide Holds;
  }

  /** Every key comes from the last edge that gives it. */
  lemma {:induction false} MergedMeans(edges: seq<Edge>, v: Id, outputs: map<Id, Fields>, k: string)
    ensures k in Merged(Incoming(edges, v), outputs) <==> exists i :: GivesKey(edges, i, v, outputs, k)
    ensures forall i ::
      GivesKey(edges, i, v, outputs, k) && (forall j :: j > i ==> !GivesKey(edges, j, v, outputs, k)) ==>
        && k in Merged(Incoming(edges, v), outputs)
        && Merged(Incoming(edges, v), outputs)[k] == outputs[edges[i].source][k]
  {
    if |edges| > 0 {
      var n := |edges| - 1;
      var init := edges[..n];
      MergedMeans(init, v, outputs, k);
      IncomingOneMore(edges, v, outputs);
      hide Merged;
      hide Incoming;
      var all, before := Merged(Incoming(edges, v), outputs), Merged(Incoming(init, v), outputs);
      var last := GivesKey(edges, n, v, outputs, k);
      assert last ==> k in all && all[k] == outputs[edges[n].source][k];
      assert !last ==> (k in all <==> k in before) && (k in all ==> all[k] == before[k]);
      hide Gives;
      forall i ensures GivesKey(edges, i, v, outputs, k) <==> GivesKey(init, i, v, outputs, k) || (i == n && last) { }
    }
  }

  /** A node with parents is skipped exactly if no edge gives it anything; its input holds the keys it is given, each
      with the value of the last edge that gives it. */
  lemma NodeInputMeans(edges: seq<Edge>, v: Id, outputs: map<Id, Fields>)
    ensures var r := Resolution(v, edges, outputs);
      && (r.skipNode <==>
           (exists e :: e in edges && e.target == v) && forall e :: e in edges ==> !Gives(e, v, outputs))
      && (forall k :: k in r.merged <==> exists i :: GivesKey(edges, i, v, outputs, k))
      && (forall k, i ::
           GivesKey(edges, i, v, outputs, k) && (forall j :: j > i ==> !GivesKey(edges, j, v, outputs, k))
           ==> k in r.merged && r.merged[k] == outputs[edges[i].source][k])
  {
    forall k { MergedMeans(edges, v, outputs, k); }
    IncomingMembers(edges, v);
    var incoming := Incoming(edges, v);
    forall e | e in edges ensures Gives(e, v, outputs) <==> e in incoming && Carries(e, outputs) {
      if e.source in outputs { ConditionMeans(e.condition, outputs[e.source]); }
    }
    hide Merged;
    hide Incoming;
    hide EdgeConditionMatches;
    hide Holds;
    hide GivesKey;
    assert incoming != [] <==> exists e :: e in edges && e.target == v by {
      if incoming != [] { assert incoming[0] in incoming; }
    }
  }

  /** A node behind an edge that asks nothing, from a source with an output, runs and receives all keys of it. */
  lemma PlainEdgeRuns(edges: seq<Edge>, e: Edge, outputs: map<Id, Fields>)
    requires e in edges && e.source in outputs && Plain(e.condition)
    ensures var r := Resolution(e.target, edges, outputs);
      !r.skipNode && outputs[e.source].Keys <= r.merged.Keys
  {
    NodeInputMeans(edges, e.target, outputs);
    var i :| 0 <= i < |edges| && edges[i] == e;
    assert Gives(e, e.target, outputs);
    hide Resolution;
    hide Plain;
    hide Gives;
    forall k | k in outputs[e.source] ensures k in Resolution(e.target, edges, outputs).merged {
      assert GivesKey(edges, i, e.target, outputs, k);
    }
  }
}
