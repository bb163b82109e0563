/** What one execution of a workflow does, node after node along the execution order.
    The executor in module Executor is proved to behave like this. */
module Engine {
  import opened Values
  import opened Graph
  import opened Branching
  import opened ExecutionState

  // ----- retry policy

  datatype RetryPolicy = RetryPolicy(
    enabled: bool, maxAttempts: nat, retryOnError: bool, retryOnDirective: bool,
    failOnMaxAttempts: bool, incrementLoopOnRetry: bool)

  function Field(fields: Fields, key: string): Value {
    if key in fields then fields[key] else Undefined
  }

  /** JavaScript's `a ?? b`. */
  function Coalesce(a: Value, b: Value): Value {
    if a.Undefined? || a.Null? then b else a
  }

  function ParseBooleanLike(value: Value, fallback: bool): bool {
    match value
    case Bool(b) => b
    case Text(s) =>
      if Text.ToLower(s) == "true" then true
      else if Text.ToLower(s) == "false" then false
      else fallback
    case _ => fallback
  }

  function ClampInt(value: Value, min: int, max: int, fallback: int): int {
    if !value.Number? then fallback
    else
      var n := if value.n.Floor < max then value.n.Floor else max;
      if n < min then min else n
  }

  function NodeRetryPolicy(config: Fields): (p: RetryPolicy)
    ensures 1 <= p.maxAttempts <= 10
  {
    var raw := Field(config, "retryPolicy");
    var fields := if raw.Record? then raw.fields else map[];
    var enabled := ParseBooleanLike(Coalesce(Field(fields, "enabled"), Field(config, "retryEnabled")), false);
    var maxAttempts := ClampInt(Coalesce(Field(fields, "maxAttempts"), Field(config, "retryMaxAttempts")), 1, 10,
                                if enabled then 3 else 1);
    RetryPolicy(enabled, maxAttempts,
                ParseBooleanLike(Field(fields, "retryOnError"), true),
                ParseBooleanLike(Field(fields, "retryOnDirective"), true),
                ParseBooleanLike(Field(fields, "failOnMaxAttempts"), true),
                ParseBooleanLike(Field(fields, "incrementLoopOnRetry"), true))
  }

  // ----- the outside world

  /** What one call of a node's `execute` did. `patch` is everything it wrote to the control record, through the
      context during the call and through its output after it; `retry` says that the output asked for a retry. */
  datatype Reply =
    | Returned(data: Fields, patch: ControlPatch, retry: bool)
    | Threw(patch: ControlPatch)

  /** What retrieval does to the input of a node before it executes. */
  datatype Preparation = Plain | Injected(key: string, payload: Value) | RetrievalFailed

  /** Nodes and hooks as oracles. Calls are numbered through the whole run, so an answer may depend on everything
      that happened before; a hook that answers true throws. */
  datatype World = World(
    configured: Node -> bool,
    prepare: (Id, Fields) -> Preparation,
    execute: (nat, Id, Fields) -> Reply,
    startThrows: nat -> bool,
    completeThrows: nat -> bool)

  // ----- the attempts of one node

  datatype AttemptRecord = AttemptCompleted | AttemptRetry | AttemptFailed

  datatype Verdict = Trying | Produced(data: Fields) | GaveUp

  datatype Attempts = Attempts(made: nat, records: seq<AttemptRecord>, control: Control, calls: nat, verdict: Verdict)

  /** The catch block of the retry loop. */
  function AfterError(policy: RetryPolicy, a: Attempts): Attempts {
    var failed := a.(records := a.records + [AttemptFailed]);
    if policy.enabled && policy.retryOnError && a.made < policy.maxAttempts then
      var control := WithRetry(a.control, false);
      failed.(control := control, verdict := if LimitBroken(control) then GaveUp else Trying)
    else
      failed.(verdict := GaveUp)
  }

  /** One turn of the retry loop. A limit that breaks while a requested retry is registered is raised inside the
      `try`, so it passes through the catch block, too. */
  function Attempt(world: World, policy: RetryPolicy, id: Id, input: Fields, a: Attempts): Attempts {
    var called := a.(made := a.made + 1, calls := a.calls + 1);
    match world.execute(a.calls, id, input)
    case Threw(patch) =>
      AfterError(policy, called.(control := Patched(a.control, patch)))
    case Returned(data, patch, retry) =>
      var patched := called.(control := Patched(a.control, patch));
      var honoured := policy.enabled && policy.retryOnDirective && retry;
      if honoured && called.made < policy.maxAttempts then
        var control := WithRetry(patched.control, policy.incrementLoopOnRetry);
        var retried := patched.(control := control, records := a.records + [AttemptRetry]);
        if LimitBroken(control) then AfterError(policy, retried) else retried
      else if honoured && policy.failOnMaxAttempts then
        AfterError(policy, patched)
      else
        patched.(records := a.records + [AttemptCompleted], verdict := Produced(data))
  }

  function AllAttempts(world: World, policy: RetryPolicy, id: Id, input: Fields, a: Attempts): (r: Attempts)
    decreases policy.maxAttempts - a.made
  {
    if a.made < policy.maxAttempts && a.verdict.Trying? then
      AllAttempts(world, policy, id, input, Attempt(world, policy, id, input, a))
    else a
  }

  // ----- the run

  datatype StepStatus = Completed | Failed | Skipped

  datatype Step = Step(nodeId: Id, status: StepStatus, input: Fields, output: Option<Fields>,
                       records: seq<AttemptRecord>)

  datatype ExecutionStatus = RunCompleted | RunFailed

  /** `Going` executes the next node, `Ending` only skips the remaining ones, `Aborted` left through an exception. */
  datatype Mode = Going | Ending | Aborted

  datatype Run = Run(
    steps: seq<Step>, outputs: map<Id, Fields>, control: Control, status: ExecutionStatus, mode: Mode,
    calls: nat, starts: nat, reports: nat)

  function InitialRun(control: Control): Run {
    Run([], map[], control, RunCompleted, Going, 0, 0, 0)
  }

  /** The outer catch block. */
  function Abort(run: Run): Run {
    run.(mode := Aborted, status := RunFailed, control := run.control.(terminate := true))
  }

  /** Records a step and reports it; a report that throws ends the run. */
  function Report(world: World, run: Run, step: Step): Run {
    var pushed := run.(steps := run.steps + [step], reports := run.reports + 1);
    if world.completeThrows(run.reports) then Abort(pushed) else pushed
  }

  function SkippedStep(id: Id): Step {
    Step(id, Skipped, map[], None, [])
  }

  function FailNode(world: World, run: Run, id: Id, input: Fields, records: seq<AttemptRecord>): Run {
    var control := run.control.(terminate := true, retryCount := run.control.retryCount + 1);
    Report(world, run.(control := control, status := RunFailed, mode := Ending),
           Step(id, Failed, input, None, records))
  }

  /** A node without a carrying edge. Its report stands inside the node's `try`: when it throws, the node fails and
      gets a second step. */
  function SkipNode(world: World, run: Run, id: Id): Run {
    var pushed := run.(steps := run.steps + [SkippedStep(id)], reports := run.reports + 1);
    if world.completeThrows(run.reports) then FailNode(world, pushed, id, map[], []) else pushed
  }

  /** Control is inspected after a completed node only. */
  function AfterCompletion(run: Run): Run {
    if run.mode.Aborted? then run
    else if LimitBroken(run.control) then
      run.(status := RunFailed, mode := Ending, control := run.control.(terminate := true))
    else if run.control.terminate then run.(mode := Ending)
    else run
  }

  function ExecuteNode(world: World, run: Run, node: Node, input: Fields): Run {
    var a := AllAttempts(world, NodeRetryPolicy(node.config), node.id, input,
                         Attempts(0, [], run.control, run.calls, Trying));
    var after := run.(control := a.control, calls := a.calls);
    match a.verdict
    case Produced(data) =>
      AfterCompletion(Report(world, after.(outputs := after.outputs[node.id := data]),
                             Step(node.id, Completed, input, Some(data), a.records)))
    case _ => FailNode(world, after, node.id, input, a.records)
  }

  /** One turn of the node loop. */
  function RunNode(world: World, edges: seq<Edge>, trigger: Fields, run: Run, node: Node): Run {
    var started := run.(starts := run.starts + 1);
    if world.startThrows(run.starts) then Abort(started)
    else if !world.configured(node) then FailNode(world, started, node.id, map[], [])
    else
      var parents := Resolution(node.id, edges, started.outputs);
      if parents.skipNode then SkipNode(world, started, node.id)
      else
        var input := trigger + parents.merged;
        match world.prepare(node.id, input)
        case RetrievalFailed => FailNode(world, started, node.id, map[], [])
        case Injected(key, payload) => ExecuteNode(world, started, node, input[key := payload])
        case Plain => ExecuteNode(world, started, node, input)
  }

  /** `new Map(nodes.map(n => [n.id, n]))`: the last node of an id wins. */
  function NodeMap(nodes: seq<Node>): (m: map<Id, Node>)
    ensures m.Keys == Ids(nodes)
    ensures forall v :: v in m ==> m[v].id == v
  {
    if |nodes| == 0 then map[]
    else
      assert nodes == nodes[..|nodes| - 1] + [nodes[|nodes| - 1]];
      NodeMap(nodes[..|nodes| - 1])[nodes[|nodes| - 1].id := nodes[|nodes| - 1]]
  }

  lemma {:induction false} LastNodeWins(nodes: seq<Node>, i: nat)
    requires i < |nodes| && forall j :: i < j < |nodes| ==> nodes[j].id != nodes[i].id
    ensures nodes[i].id in NodeMap(nodes) && NodeMap(nodes)[nodes[i].id] == nodes[i]
  {
    var n := |nodes| - 1;
    if i < n {
      LastNodeWins(nodes[..n], i);
      assert nodes[n].id != nodes[i].id;
    }
  }

  /** One node of the execution order, in whatever mode the run is. */
  function Advance(world: World, nodes: map<Id, Node>, edges: seq<Edge>, trigger: Fields, run: Run, id: Id): Run
    requires id in nodes
  {
    match run.mode
    case Going => RunNode(world, edges, trigger, run, nodes[id])
    case Ending => Report(world, run, SkippedStep(id))
    case Aborted => run
  }

  /** The run after the first nodes of `order`. */
  function RunAlong(world: World, nodes: map<Id, Node>, edges: seq<Edge>, trigger: Fields, control: Control,
                    order: seq<Id>): Run
    requires forall v :: v in order ==> v in nodes
  {
    if |order| == 0 then InitialRun(control)
    else
      Advance(world, nodes, edges, trigger,
              RunAlong(world, nodes, edges, trigger, control, order[..|order| - 1]), order[|order| - 1])
  }
}
