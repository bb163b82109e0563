/** The automatic fixes of a workflow graph: helper nodes before or behind a target node, and configuration flags. */
module Autofix {
  import opened Values
  import opened Graph

  datatype FixAction =
    | InsertConsentGateUpstream
    | InsertPiiAnonymiserDownstream
    | InsertGuardrailUpstream
    | InsertHumanLoopDownstream
    | InsertBiasCheckerDownstream
    | EnableAuditLogging
    | EnableOutputJustification

  function NormalizeAction(action: string): Option<FixAction> {
    match action
    case "INSERT_CONSENT_GATE_UPSTREAM" => Some(InsertConsentGateUpstream)
    case "INSERT_PII_ANONYMISER_DOWNSTREAM" => Some(InsertPiiAnonymiserDownstream)
    case "INSERT_GUARDRAIL_UPSTREAM" => Some(InsertGuardrailUpstream)
    case "INSERT_HUMAN_LOOP_DOWNSTREAM" => Some(InsertHumanLoopDownstream)
    case "INSERT_BIAS_CHECKER_DOWNSTREAM" => Some(InsertBiasCheckerDownstream)
    case "ENABLE_AUDIT_LOGGING" => Some(EnableAuditLogging)
    case "ENABLE_OUTPUT_JUSTIFICATION" => Some(EnableOutputJustification)
    case _ => None
  }

  function HelperKind(action: FixAction): string {
    match action
    case InsertConsentGateUpstream => "consent-gate"
    case InsertPiiAnonymiserDownstream => "pii-anonymiser"
    case InsertGuardrailUpstream => "guardrail"
    case InsertHumanLoopDownstream => "human-in-the-loop"
    case InsertBiasCheckerDownstream => "bias-checker"
    case EnableAuditLogging => ""
    case EnableOutputJustification => ""
  }

  predicate IsFlag(action: FixAction) {
    action.EnableAuditLogging? || action.EnableOutputJustification?
  }

  predicate IsUpstream(action: FixAction) {
    action.InsertConsentGateUpstream? || action.InsertGuardrailUpstream?
  }

  function FlagKey(action: FixAction): string {
    if action.EnableAuditLogging? then "auditEnabled" else "emitJustification"
  }

  /** The recognised actions, each once, in the order of their first mention. */
  function Recognised(actions: seq<string>): (r: seq<FixAction>)
    ensures Distinct(r)
  {
    if |actions| == 0 then []
    else
      var before, action := Recognised(actions[..|actions| - 1]), NormalizeAction(actions[|actions| - 1]);
      if action.Some? && action.value !in before then before + [action.value] else before
  }

  /** An action is applied exactly when some string of the list names it. */
  lemma {:induction false} RecognisedIsNamed(actions: seq<string>, action: FixAction)
    ensures action in Recognised(actions) <==>
        exists i :: 0 <= i < |actions| && NormalizeAction(actions[i]) == Some(action)
  {
    hide NormalizeAction;
    if |actions| > 0 {
      var init, last := actions[..|actions| - 1], actions[|actions| - 1];
      assert actions == init + [last];
      RecognisedIsNamed(init, action);
      if exists i :: 0 <= i < |init| && NormalizeAction(init[i]) == Some(action) {
        var i :| 0 <= i < |init| && NormalizeAction(init[i]) == Some(action);
        assert actions[i] == init[i];
      }
    }
  }

  datatype GraphState = GraphState(nodes: seq<Node>, edges: seq<Edge>)

  function FindNode(nodes: seq<Node>, id: Id): (i: int)
    ensures -1 <= i < |nodes|
    ensures i >= 0 ==> nodes[i].id == id && forall k :: 0 <= k < i ==> nodes[k].id != id
    ensures i < 0 <==> id !in Ids(nodes)
  {
    if |nodes| == 0 then -1
    else
      assert nodes == nodes[..|nodes| - 1] + [nodes[|nodes| - 1]];
      var i := FindNode(nodes[..|nodes| - 1], id);
      if i >= 0 then i else if nodes[|nodes| - 1].id == id then |nodes| - 1 else -1
  }

  function HelperConfig(target: Id, actor: string): Fields {
    map["generatedBy" := Text("rex-autofix"), "generatedForNodeId" := Text(target), "generatedByUserId" := Text(actor)]
  }

  function HelperEdge(action: FixAction, target: Id, helper: Id): Edge {
    if IsUpstream(action) then Edge("", helper, target, Undefined) else Edge("", target, helper, Undefined)
  }

  /** One action: a flag in the configuration of the node at `at`, or a helper node `helper` with one edge. */
  function Applied(g: GraphState, at: nat, action: FixAction, helper: Id, actor: string): GraphState
    requires at < |g.nodes|
  {
    var target := g.nodes[at];
    if IsFlag(action) then
      g.(nodes := g.nodes[at := target.(config := target.config[FlagKey(action) := Bool(true)])])
    else
      GraphState(g.nodes + [Node(helper, HelperKind(action), HelperConfig(target.id, actor))],
                 g.edges + [HelperEdge(action, target.id, helper)])
  }

  /** All actions in turn; `helpers` supplies the random ids, one for each position. */
  function AppliedAll(g: GraphState, at: nat, actions: seq<FixAction>, helpers: seq<Id>, actor: string): (r: GraphState)
    requires at < |g.nodes| && |helpers| >= |actions|
    ensures |r.nodes| >= |g.nodes| && r.nodes[at].id == g.nodes[at].id
  {
    if |actions| == 0 then g
    else
      var m := |actions| - 1;
      Applied(AppliedAll(g, at, actions[..m], helpers, actor), at, actions[m], helpers[m], actor)
  }

  class WorkflowGraph {
    var nodes: seq<Node>
    var edges: seq<Edge>

    constructor (nodes: seq<Node>, edges: seq<Edge>)
      ensures this.nodes == nodes && this.edges == edges
    {
      this.nodes, this.edges := nodes, edges;
    }

    ghost function State(): GraphState
      reads this
    {
      GraphState(nodes, edges)
    }

    /** Edits the graph in place; an unknown target leaves it alone and raises an error. */
    method ApplyRexFixes(targetNodeId: Id, actions: seq<string>, helpers: seq<Id>, actorUserId: string)
      returns (applied: Option<seq<FixAction>>)
      requires |helpers| >= |Recognised(actions)|
      modifies this
      ensures FindNode(old(nodes), targetNodeId) < 0 ==> applied == None && State() == old(State())
      ensures FindNode(old(nodes), targetNodeId) >= 0 ==>
        && applied == Some(Recognised(actions))
        && State()
          == AppliedAll(old(State()), FindNode(old(nodes), targetNodeId), Recognised(actions), helpers, actorUserId)
    {
      var at := FindNode(nodes, targetNodeId);
      if at < 0 {
        return None;
      }
      var normalizedActions := Recognised(actions);
      ghost var before := State();
      for i := 0 to |normalizedActions|
        invariant |nodes| >= |before.nodes| && nodes[at].id == targetNodeId
        invariant State() == AppliedAll(before, at, normalizedActions[..i], helpers, actorUserId)
      {
        assert normalizedActions[..i + 1][..i] == normalizedActions[..i];
        var action := normalizedActions[i];
        if IsFlag(action) {
          var targetNode := nodes[at];
          nodes := nodes[at := targetNode.(config := targetNode.config[FlagKey(action) := Bool(true)])];
        } else {
          var helperNodeId := helpers[i];
          nodes := nodes + [Node(helperNodeId, HelperKind(action), HelperConfig(targetNodeId, actorUserId))];
          if IsUpstream(action) {
            edges := edges + [Edge("", helperNodeId, targetNodeId, Undefined)];
          } else {
            edges := edges + [Edge("", targetNodeId, helperNodeId, Undefined)];
          }
        }
      }
      assert normalizedActions[..|normalizedActions|] == normalizedActions;
      applied := Some(normalizedActions);
    }
  }

  // ----- the edit keeps the graph valid

  /** The id is mentioned nowhere in the graph. */
  ghost predicate Unused(g: GraphState, id: Id) {
    && id !in Ids(g.nodes)
    && forall e :: e in g.edges ==> e.source != id && e.target != id
  }

  lemma OldEdgesRemain(edges: seq<Edge>, e: Edge, u: Id, v: Id)
    ensures HasEdge(edges + [e], u, v) <==> HasEdge(edges, u, v) || (u == e.source && v == e.target)
  {
    assert forall x :: x in edges + [e] <==> x in edges || x == e;
    if u == e.source && v == e.target { assert e in edges + [e]; }
  }

  /** A path never runs through a node without incoming or without outgoing edges, except at its ends. */
  lemma CycleAvoidsHelper(edges: seq<Edge>, e: Edge, helper: Id, p: seq<Id>)
    requires forall x :: x in edges ==> x.source != helper && x.target != helper
    requires e.source != e.target && (e.source == helper || e.target == helper)
    requires IsCycle(edges + [e], p)
    ensures IsCycle(edges, p)
  {
    forall i | 0 <= i < |p| - 1 ensures HasEdge(edges, p[i], p[i + 1]) {
      assert HasEdge(edges + [e], p[i], p[i + 1]);
      OldEdgesRemain(edges, e, p[i], p[i + 1]);
      if p[i] == e.source && p[i + 1] == e.target {
        HelperHasOneEdge(edges, e, helper, p, i);
      }
    }
  }

  lemma HelperHasOneEdge(edges: seq<Edge>, e: Edge, helper: Id, p: seq<Id>, i: nat)
    requires forall x :: x in edges ==> x.source != helper && x.target != helper
    requires e.source != e.target && (e.source == helper || e.target == helper)
    requires IsCycle(edges + [e], p) && i < |p| - 1
    ensures !(p[i] == e.source && p[i + 1] == e.target)
  {
    if p[i] == e.source && p[i + 1] == e.target {
      // the edge before the helper, or the one behind it, cannot exist
      var before := if i > 0 then i - 1 else |p| - 2;
      var behind := if i + 2 < |p| then i + 1 else 0;
      assert HasEdge(edges + [e], p[before], p[before + 1]) && HasEdge(edges + [e], p[behind], p[behind + 1]);
      OldEdgesRemain(edges, e, p[before], p[before + 1]);
      OldEdgesRemain(edges, e, p[behind], p[behind + 1]);
      assert false;
    }
  }

  /** Adding a helper with its single edge keeps and creates neither faults nor cycles. */
  lemma HelperKeepsValidity(g: GraphState, node: Node, e: Edge, target: Id)
    requires Unused(g, node.id) && target in Ids(g.nodes)
    requires (e.source == node.id && e.target == target) || (e.source == target && e.target == node.id)
    ensures ValidGraph(g.nodes + [node], g.edges + [e]) <==> ValidGraph(g.nodes, g.edges)
  {
    var nodes, edges := g.nodes + [node], g.edges + [e];
    assert Ids(nodes) == Ids(g.nodes) + {node.id};
    assert forall x :: x in edges <==> x in g.edges || x == e;
    assert (forall x :: x in edges ==> EdgeOk(Ids(nodes), x)) <==>
      (forall x :: x in g.edges ==> EdgeOk(Ids(g.nodes), x)) by {
      assert EdgeOk(Ids(nodes), e);
      assert forall x :: x in g.edges ==> (EdgeOk(Ids(nodes), x) <==> EdgeOk(Ids(g.nodes), x));
    }
    if Acyclic(g.edges) {
      forall p ensures !IsCycle(edges, p) {
        if IsCycle(edges, p) { CycleAvoidsHelper(g.edges, e, node.id, p); }
      }
    }
    if Acyclic(edges) {
      forall p ensures !IsCycle(g.edges, p) {
        if IsCycle(g.edges, p) { CycleRemains(g.edges, e, p); }
      }
    }
  }

  lemma CycleRemains(edges: seq<Edge>, e: Edge, p: seq<Id>)
    requires IsCycle(edges, p)
    ensures IsCycle(edges + [e], p)
  {
    forall i | 0 <= i < |p| - 1 ensures HasEdge(edges + [e], p[i], p[i + 1]) {
      assert HasEdge(edges, p[i], p[i + 1]);
      OldEdgesRemain(edges, e, p[i], p[i + 1]);
    }
  }

  /** The random ids are new: distinct, and mentioned nowhere in the graph. */
  ghost predicate Fresh(g: GraphState, helpers: seq<Id>) {
    Distinct(helpers) && forall i :: 0 <= i < |helpers| ==> Unused(g, helpers[i])
  }

  lemma FlagKeepsIds(nodes: seq<Node>, at: nat, config: Fields)
    requires at < |nodes|
    ensures Ids(nodes[at := nodes[at].(config := config)]) == Ids(nodes)
  {
    var edited := nodes[at := nodes[at].(config := config)];
    forall id | id in Ids(nodes) ensures id in Ids(edited) {
      var i :| 0 <= i < |nodes| && nodes[i].id == id;
      assert edited[i].id == id && edited[i] in edited;
    }
    forall id | id in Ids(edited) ensures id in Ids(nodes) {
      var i :| 0 <= i < |edited| && edited[i].id == id;
      assert nodes[i].id == id && nodes[i] in nodes;
    }
  }

  lemma AppliedKeepsUnused(g: GraphState, at: nat, action: FixAction, helper: Id, actor: string, id: Id)
    requires at < |g.nodes| && Unused(g, id) && id != helper
    ensures Unused(Applied(g, at, action, helper, actor), id)
  {
    var target := g.nodes[at];
    assert target in g.nodes;
    if IsFlag(action) {
      FlagKeepsIds(g.nodes, at, target.config[FlagKey(action) := Bool(true)]);
    } else {
      var r := Applied(g, at, action, helper, actor);
      assert forall n :: n in r.nodes ==> n in g.nodes || n.id == helper;
      assert forall e :: e in r.edges ==> e in g.edges || e == HelperEdge(action, target.id, helper);
    }
  }

  lemma {:induction false} LaterHelpersStayUnused(g: GraphState, at: nat, actions: seq<FixAction>, helpers: seq<Id>,
                                                  actor: string, id: Id)
    requires at < |g.nodes| && |helpers| >= |actions| && Unused(g, id)
    requires forall i :: 0 <= i < |actions| ==> helpers[i] != id
    ensures Unused(AppliedAll(g, at, actions, helpers, actor), id)
  {
    if |actions| > 0 {
      var m := |actions| - 1;
      LaterHelpersStayUnused(g, at, actions[..m], helpers, actor, id);
      AppliedKeepsUnused(AppliedAll(g, at, actions[..m], helpers, actor), at, actions[m], helpers[m], actor, id);
    }
  }

  lemma AppliedKeepsValidity(g: GraphState, at: nat, action: FixAction, helper: Id, actor: string)
    requires at < |g.nodes| && Unused(g, helper)
    ensures var r := Applied(g, at, action, helper, actor);
      ValidGraph(r.nodes, r.edges) <==> ValidGraph(g.nodes, g.edges)
  {
    var target := g.nodes[at];
    if IsFlag(action) {
      FlagKeepsIds(g.nodes, at, target.config[FlagKey(action) := Bool(true)]);
    } else {
      assert target in g.nodes;
      HelperKeepsValidity(g, Node(helper, HelperKind(action), HelperConfig(target.id, actor)),
                          HelperEdge(action, target.id, helper), target.id);
    }
  }

  /** The validator accepts the edited graph exactly when it accepted the graph before. */
  lemma {:induction false} FixesKeepValidity(g: GraphState, at: nat, actions: seq<FixAction>, helpers: seq<Id>,
      actor: string)
    requires at < |g.nodes| && |helpers| >= |actions| && Fresh(g, helpers)
    ensures var r := AppliedAll(g, at, actions, helpers, actor);
      ValidGraph(r.nodes, r.edges) <==> ValidGraph(g.nodes, g.edges)
  {
    if |actions| > 0 {
      var m := |actions| - 1;
      FixesKeepValidity(g, at, actions[..m], helpers, actor);
      LaterHelpersStayUnused(g, at, actions[..m], helpers, actor, helpers[m]);
      AppliedKeepsValidity(AppliedAll(g, at, actions[..m], helpers, actor), at, actions[m], helpers[m], actor);
    }
  }

  function Inserted(actions: seq<FixAction>): nat {
    if |actions| == 0 then 0
    else Inserted(actions[..|actions| - 1]) + if IsFlag(actions[|actions| - 1]) then 0 else 1
  }

  /** What the edit did for one action. */
  ghost predicate Effect(g: GraphState, at: nat, action: FixAction, helper: Id, actor: string)
    requires at < |g.nodes|
  {
    if IsFlag(action) then FlagKey(action) in g.nodes[at].config && g.nodes[at].config[FlagKey(action)] == Bool(true)
    else
      && Node(helper, HelperKind(action), HelperConfig(g.nodes[at].id, actor)) in g.nodes
      && HelperEdge(action, g.nodes[at].id, helper) in g.edges
  }

  lemma LaterActionKeepsEffect(g: GraphState, at: nat, action: FixAction, helper: Id, actor: string,
                               later: FixAction, laterHelper: Id)
    requires at < |g.nodes| && Effect(g, at, action, helper, actor) && helper != g.nodes[at].id
    ensures Effect(Applied(g, at, later, laterHelper, actor), at, action, helper, actor)
  {
    var r := Applied(g, at, later, laterHelper, actor);
    if !IsFlag(action) {
      var node := Node(helper, HelperKind(action), HelperConfig(g.nodes[at].id, actor));
      var i :| 0 <= i < |g.nodes| && g.nodes[i] == node;
      assert r.nodes[i] == node;
    }
  }

  /** Nothing of the old graph goes missing, and every action shows: old edges and nodes keep their place, only the
      target's configuration grows, and each inserting action adds one node and one edge. */
  lemma {:induction false} FixesAddOnly(g: GraphState, at: nat, actions: seq<FixAction>, helpers: seq<Id>,
      actor: string)
    requires at < |g.nodes| && |helpers| >= |actions| && Fresh(g, helpers)
    ensures var r := AppliedAll(g, at, actions, helpers, actor);
      && |r.nodes| == |g.nodes| + Inserted(actions) && |r.edges| == |g.edges| + Inserted(actions)
      && r.edges[..|g.edges|] == g.edges
      && (forall i :: 0 <= i < |g.nodes| && i != at ==> r.nodes[i] == g.nodes[i])
      && r.nodes[at].kind == g.nodes[at].kind && g.nodes[at].config.Keys <= r.nodes[at].config.Keys
      && (forall k :: k in g.nodes[at].config && k != "auditEnabled" && k != "emitJustification" ==>
           r.nodes[at].config[k] == g.nodes[at].config[k])
      && (forall i :: 0 <= i < |actions| ==> Effect(r, at, actions[i], helpers[i], actor))
  {
    if |actions| > 0 {
      var m := |actions| - 1;
      FixesAddOnly(g, at, actions[..m], helpers, actor);
      var before := AppliedAll(g, at, actions[..m], helpers, actor);
      assert g.nodes[at] in g.nodes;
      forall i | 0 <= i < m
        ensures Effect(Applied(before, at, actions[m], helpers[m], actor), at, actions[i], helpers[i], actor)
      {
        assert actions[..m][i] == actions[i] && Unused(g, helpers[i]);
        LaterActionKeepsEffect(before, at, actions[i], helpers[i], actor, actions[m], helpers[m]);
      }
    }
  }

  // ----- what the names of the actions stand for

  /** The marks of a node that was added for the target. */
  predicate IsMarked(node: Node, target: Id, actor: string) {
    && "generatedBy" in node.config && node.config["generatedBy"] == Text("rex-autofix")
    && "generatedForNodeId" in node.config && node.config["generatedForNodeId"] == Text(target)
    && "generatedByUserId" in node.config && node.config["generatedByUserId"] == Text(actor)
  }

  /** A helper of this kind stands before the target. */
  ghost predicate HelperBefore(g: GraphState, target: Id, kind: string, actor: string) {
    exists node :: node in g.nodes && node.kind == kind && IsMarked(node, target, actor)
      && Edge("", node.id, target, Undefined) in g.edges
  }

  ghost predicate HelperBehind(g: GraphState, target: Id, kind: string, actor: string) {
    exists node :: node in g.nodes && node.kind == kind && IsMarked(node, target, actor)
      && Edge("", target, node.id, Undefined) in g.edges
  }

  ghost predicate FlagSet(g: GraphState, at: nat, key: string) {
    at < |g.nodes| && key in g.nodes[at].config && g.nodes[at].config[key] == Bool(true)
  }

  lemma NamedIsRecognised(actions: seq<string>, name: string, action: FixAction)
    requires name in actions && NormalizeAction(name) == Some(action)
    ensures action in Recognised(actions)
  {
    RecognisedIsNamed(actions, action);
    var i :| 0 <= i < |actions| && actions[i] == name;
  }

  ghost predicate Shows(g: GraphState, at: nat, target: Id, action: FixAction, actor: string) {
    match action
    case InsertConsentGateUpstream => HelperBefore(g, target, "consent-gate", actor)
    case InsertPiiAnonymiserDownstream => HelperBehind(g, target, "pii-anonymiser", actor)
    case InsertGuardrailUpstream => HelperBefore(g, target, "guardrail", actor)
    case InsertHumanLoopDownstream => HelperBehind(g, target, "human-in-the-loop", actor)
    case InsertBiasCheckerDownstream => HelperBehind(g, target, "bias-checker", actor)
    case EnableAuditLogging => FlagSet(g, at, "auditEnabled")
    case EnableOutputJustification => FlagSet(g, at, "emitJustification")
  }

  lemma EffectShows(g: GraphState, at: nat, action: FixAction, helper: Id, actor: string)
    requires at < |g.nodes| && Effect(g, at, action, helper, actor)
    ensures Shows(g, at, g.nodes[at].id, action, actor)
  {
    if !IsFlag(action) {
      var node := Node(helper, HelperKind(action), HelperConfig(g.nodes[at].id, actor));
      assert node in g.nodes && IsMarked(node, g.nodes[at].id, actor);
      assert HelperEdge(action, g.nodes[at].id, helper) in g.edges;
    }
  }

  lemma RecognisedShows(g: GraphState, at: nat, actions: seq<string>, helpers: seq<Id>, actor: string, name: string,
                        action: FixAction)
    requires at < |g.nodes| && |helpers| >= |Recognised(actions)| && Fresh(g, helpers)
    requires name in actions && NormalizeAction(name) == Some(action)
    ensures Shows(AppliedAll(g, at, Recognised(actions), helpers, actor), at, g.nodes[at].id, action, actor)
  {
    NamedIsRecognised(actions, name, action);
    FixesAddOnly(g, at, Recognised(actions), helpers, actor);
    var i :| 0 <= i < |Recognised(actions)| && Recognised(actions)[i] == action;
    hide *;
    EffectShows(AppliedAll(g, at, Recognised(actions), helpers, actor), at, Recognised(actions)[i], helpers[i], actor);
  }

  /** Every action that the list names shows in the edited graph: the right kind of helper on the right side of the
      target, or the flag. */
  lemma NamedActionsShow(g: GraphState, at: nat, actions: seq<string>, helpers: seq<Id>, actor: string)
    requires at < |g.nodes| && |helpers| >= |Recognised(actions)| && Fresh(g, helpers)
    ensures var r, target := AppliedAll(g, at, Recognised(actions), helpers, actor), g.nodes[at].id;
      && ("INSERT_CONSENT_GATE_UPSTREAM" in actions ==> HelperBefore(r, target, "consent-gate", actor))
      && ("INSERT_PII_ANONYMISER_DOWNSTREAM" in actions ==> HelperBehind(r, target, "pii-anonymiser", actor))
      && ("INSERT_GUARDRAIL_UPSTREAM" in actions ==> HelperBefore(r, target, "guardrail", actor))
      && ("INSERT_HUMAN_LOOP_DOWNSTREAM" in actions ==> HelperBehind(r, target, "human-in-the-loop", actor))
      && ("INSERT_BIAS_CHECKER_DOWNSTREAM" in actions ==> HelperBehind(r, target, "bias-checker", actor))
      && ("ENABLE_AUDIT_LOGGING" in actions ==> FlagSet(r, at, "auditEnabled"))
      && ("ENABLE_OUTPUT_JUSTIFICATION" in actions ==> FlagSet(r, at, "emitJustification"))
  {
    Names();
    hide NormalizeAction;
    hide Recognised;
    hide AppliedAll;
    hide HelperBefore;
    hide HelperBehind;
    hide FlagSet;
    hide Fresh;
    if "INSERT_CONSENT_GATE_UPSTREAM" in actions {
      RecognisedShows(g, at, actions, helpers, actor, "INSERT_CONSENT_GATE_UPSTREAM", InsertConsentGateUpstream);
    }
    if "INSERT_PII_ANONYMISER_DOWNSTREAM" in actions {
      RecognisedShows(g, at, actions, helpers, actor, "INSERT_PII_ANONYMISER_DOWNSTREAM",
                      InsertPiiAnonymiserDownstream);
    }
    if "INSERT_GUARDRAIL_UPSTREAM" in actions {
      RecognisedShows(g, at, actions, helpers, actor, "INSERT_GUARDRAIL_UPSTREAM", InsertGuardrailUpstream);
    }
    if "INSERT_HUMAN_LOOP_DOWNSTREAM" in actions {
      RecognisedShows(g, at, actions, helpers, actor, "INSERT_HUMAN_LOOP_DOWNSTREAM", InsertHumanLoopDownstream);
    }
    if "INSERT_BIAS_CHECKER_DOWNSTREAM" in actions {
      RecognisedShows(g, at, actions, helpers, actor, "INSERT_BIAS_CHECKER_DOWNSTREAM", InsertBiasCheckerDownstream);
    }
    if "ENABLE_AUDIT_LOGGING" in actions {
      RecognisedShows(g, at, actions, helpers, actor, "ENABLE_AUDIT_LOGGING", EnableAuditLogging);
    }
    if "ENABLE_OUTPUT_JUSTIFICATION" in actions {
      RecognisedShows(g, at, actions, helpers, actor, "ENABLE_OUTPUT_JUSTIFICATION", EnableOutputJustification);
    }
  }

  lemma Names()
    ensures NormalizeAction("INSERT_CONSENT_GATE_UPSTREAM") == Some(InsertConsentGateUpstream)
    ensures NormalizeAction("INSERT_PII_ANONYMISER_DOWNSTREAM") == Some(InsertPiiAnonymiserDownstream)
    ensures NormalizeAction("INSERT_GUARDRAIL_UPSTREAM") == Some(InsertGuardrailUpstream)
    ensures NormalizeAction("INSERT_HUMAN_LOOP_DOWNSTREAM") == Some(InsertHumanLoopDownstream)
    ensures NormalizeAction("INSERT_BIAS_CHECKER_DOWNSTREAM") == Some(InsertBiasCheckerDownstream)
    ensures NormalizeAction("ENABLE_AUDIT_LOGGING") == Some(EnableAuditLogging)
    ensures NormalizeAction("ENABLE_OUTPUT_JUSTIFICATION") == Some(EnableOutputJustification)
  {
  }

  /** How often an action occurs. */
  function Times(actions: seq<FixAction>, action: FixAction): nat {
    if |actions| == 0 then 0
    else Times(actions[..|actions| - 1], action) + if actions[|actions| - 1] == action then 1 else 0
  }

  lemma {:induction false} InsertedIsSum(actions: seq<FixAction>)
    ensures Inserted(actions)
         == Times(actions, InsertConsentGateUpstream) + Times(actions, InsertPiiAnonymiserDownstream)
          + Times(actions, InsertGuardrailUpstream) + Times(actions, InsertHumanLoopDownstream)
          + Times(actions, InsertBiasCheckerDownstream)
  {
    if |actions| > 0 { InsertedIsSum(actions[..|actions| - 1]); }
  }

  lemma {:induction false} OnceIfDistinct(actions: seq<FixAction>, action: FixAction)
    requires Distinct(actions)
    ensures Times(actions, action) == if action in actions then 1 else 0
  {
    if |actions| > 0 {
      assert actions == actions[..|actions| - 1] + [actions[|actions| - 1]];
      OnceIfDistinct(actions[..|actions| - 1], action);
    }
  }

  lemma NamedOnce(actions: seq<string>, name: string, action: FixAction)
    requires forall s :: NormalizeAction(s) == Some(action) <==> s == name
    ensures Times(Recognised(actions), action) == if name in actions then 1 else 0
  {
    OnceIfDistinct(Recognised(actions), action);
    RecognisedIsNamed(actions, action);
    hide NormalizeAction;
    hide Recognised;
    if name in actions {
      var i :| 0 <= i < |actions| && actions[i] == name;
      assert NormalizeAction(actions[i]) == Some(action);
    }
  }

  /** As many helpers are added as inserting actions are named, however often. */
  lemma OneHelperForEachName(actions: seq<string>)
    ensures Inserted(Recognised(actions))
         == (if "INSERT_CONSENT_GATE_UPSTREAM" in actions then 1 else 0)
          + (if "INSERT_PII_ANONYMISER_DOWNSTREAM" in actions then 1 else 0)
          + (if "INSERT_GUARDRAIL_UPSTREAM" in actions then 1 else 0)
          + (if "INSERT_HUMAN_LOOP_DOWNSTREAM" in actions then 1 else 0)
          + (if "INSERT_BIAS_CHECKER_DOWNSTREAM" in actions then 1 else 0)
  {
    InsertedIsSum(Recognised(actions));
    NamedOnce(actions, "INSERT_CONSENT_GATE_UPSTREAM", InsertConsentGateUpstream);
    NamedOnce(actions, "INSERT_PII_ANONYMISER_DOWNSTREAM", InsertPiiAnonymiserDownstream);
    NamedOnce(actions, "INSERT_GUARDRAIL_UPSTREAM", InsertGuardrailUpstream);
    NamedOnce(actions, "INSERT_HUMAN_LOOP_DOWNSTREAM", InsertHumanLoopDownstream);
    NamedOnce(actions, "INSERT_BIAS_CHECKER_DOWNSTREAM", InsertBiasCheckerDownstream);
  }

  /** The first string that names the action. */
  ghost predicate FirstNamedAt(actions: seq<string>, action: FixAction, i: nat) {
    && i < |actions| && NormalizeAction(actions[i]) == Some(action)
    && forall k :: 0 <= k < i ==> NormalizeAction(actions[k]) != Some(action)
  }

  /** The actions are applied in the order in which they are first named. */
  lemma {:induction false} AppliedInOrder(actions: seq<string>, a: nat, b: nat, i: nat, j: nat)
    requires a < b < |Recognised(actions)|
    requires FirstNamedAt(actions, Recognised(actions)[a], i) && FirstNamedAt(actions, Recognised(actions)[b], j)
    ensures i < j
  {
    hide NormalizeAction;
    var n := |actions| - 1;
    var init := actions[..n];
    var before := Recognised(init);
    RecognisedIsNamed(init, Recognised(actions)[a]);
    RecognisedIsNamed(init, Recognised(actions)[b]);
    if b < |before| {
      assert Recognised(actions)[a] == before[a] && Recognised(actions)[b] == before[b];
      assert before[a] in before && before[b] in before;
      assert FirstNamedAt(init, before[a], i) && FirstNamedAt(init, before[b], j);
      AppliedInOrder(init, a, b, i, j);
    } else {
      assert Recognised(actions)[a] == before[a] && before[a] in before;
      assert i < n;
      assert j == n;
    }
  }
}
