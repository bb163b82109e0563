/** How often nodes can be called: per node and over a whole run, against the shared retry budget. */
module RetryBudget {
  import opened Values
  import opened Graph
  import opened ExecutionState
  import opened Engine
  import opened StepAccounting
  import opened Branching

  /** No node writes to the control record. */
  ghost predicate LeavesControlAlone(world: World) {
    forall n, id, input :: world.execute(n, id, input).patch == NO_PATCH
  }

  /** Retries that the budget still allows. */
  function Allowance(c: Control): nat {
    if c.maxRetries > c.retryCount then c.maxRetries - c.retryCount else 0
  }

  ghost predicate SameLimits(c: Control, d: Control) {
    c.maxRetries == d.maxRetries && c.maxLoops == d.maxLoops && c.terminate == d.terminate
  }

  // ----- one node

  /** While a node is being tried, every call so far was followed by a retry that kept the limits. */
  ghost predicate PaidFor(start: Control, a: Attempts) {
    && a.verdict.Trying? && SameLimits(start, a.control)
    && a.made <= a.control.retryCount - start.retryCount
    && (a.made == 0 ==> a.control == start)
    && (a.made > 0 ==> !LimitBroken(a.control))
  }

  ghost predicate PaidForButLast(start: Control, a: Attempts) {
    && SameLimits(start, a.control)
    && 1 <= a.made <= 1 + Allowance(start)
    && (a.verdict.Produced? ==>
         a.made - 1 <= a.control.retryCount - start.retryCount && (a.made == 1 ==> a.control == start)
         && (a.made > 1 ==> !LimitBroken(a.control)))
  }

  lemma AttemptIsPaidFor(world: World, policy: RetryPolicy, id: Id, input: Fields, start: Control, a: Attempts)
    requires LeavesControlAlone(world) && PaidFor(start, a) && a.made < policy.maxAttempts
    ensures var b := Attempt(world, policy, id, input, a);
      && b.made == a.made + 1 && b.calls == a.calls + 1
      && if b.verdict.Trying? then PaidFor(start, b) && b.made < policy.maxAttempts else PaidForButLast(start, b)
  {
    assert world.execute(a.calls, id, input).patch == NO_PATCH;
    assert Patched(a.control, NO_PATCH) == a.control;
  }

  lemma {:induction false} AttemptsArePaidFor(world: World, policy: RetryPolicy, id: Id, input: Fields,
                                              start: Control, a: Attempts)
    requires LeavesControlAlone(world) && PaidFor(start, a) && a.made < policy.maxAttempts
    ensures var r := AllAttempts(world, policy, id, input, a);
      && PaidForButLast(start, r) && !r.verdict.Trying?
      && r.made <= policy.maxAttempts && r.calls - a.calls == r.made - a.made
    decreases policy.maxAttempts - a.made
  {
    var b := Attempt(world, policy, id, input, a);
    AttemptIsPaidFor(world, policy, id, input, start, a);
    hide Attempt;
    if b.verdict.Trying? { AttemptsArePaidFor(world, policy, id, input, start, b); }
  }

  /** A node is called at least once and at most `maxAttempts` times, never more than ten, and its repetitions fit
      into what the budget allows. */
  lemma CallsOfOneNode(world: World, node: Node, input: Fields, control: Control, calls: nat)
    requires LeavesControlAlone(world)
    ensures var r := AllAttempts(world, NodeRetryPolicy(node.config), node.id, input,
                                 Attempts(0, [], control, calls, Trying));
      && r.calls == calls + r.made
      && 1 <= r.made <= NodeRetryPolicy(node.config).maxAttempts <= 10
      && r.made <= 1 + Allowance(control)
  {
    AttemptsArePaidFor(world, NodeRetryPolicy(node.config), node.id, input, control,
                       Attempts(0, [], control, calls, Trying));
  }

  /** The setting of a retry policy: inside `retryPolicy`, else in the node's configuration itself. */
  function Setting(config: Fields, nested: string, flat: string): Value {
    var raw := Field(config, "retryPolicy");
    var inside := if raw.Record? then Field(raw.fields, nested) else Undefined;
    if inside.Undefined? || inside.Null? then Field(config, flat) else inside
  }

  predicate SaysTrue(v: Value) {
    v == Bool(true) || (v.Text? && Text.ToLower(v.s) == "true")
  }

  lemma {:induction false} AttemptsBounded(world: World, policy: RetryPolicy, id: Id, input: Fields, a: Attempts)
    requires a.made <= policy.maxAttempts && (!policy.enabled && a.made > 0 ==> !a.verdict.Trying?)
    ensures var r := AllAttempts(world, policy, id, input, a);
      r.made <= policy.maxAttempts && (!policy.enabled && a.made <= 1 ==> r.made <= 1)
    decreases policy.maxAttempts - a.made
  {
    if a.made < policy.maxAttempts && a.verdict.Trying? {
      AttemptsBounded(world, policy, id, input, Attempt(world, policy, id, input, a));
    }
  }

  /** Repetitions have to be asked for, whatever a node does: more than one call needs a configuration that enables
      retries, more than three need one that also gives a larger number of attempts. */
  lemma RepeatedOnlyIfConfigured(world: World, node: Node, input: Fields, control: Control, calls: nat)
    ensures var r := AllAttempts(world, NodeRetryPolicy(node.config), node.id, input,
                                 Attempts(0, [], control, calls, Trying));
      && (r.made > 1 ==> SaysTrue(Setting(node.config, "enabled", "retryEnabled")))
      && (r.made > 3 ==>
           var n := Setting(node.config, "maxAttempts", "retryMaxAttempts"); n.Number? && n.n.Floor > 3)
  {
    var policy := NodeRetryPolicy(node.config);
    AttemptsBounded(world, policy, node.id, input, Attempts(0, [], control, calls, Trying));
    hide AllAttempts;
  }

  // ----- the whole run

  ghost function Executed(steps: seq<Step>): nat {
    if |steps| == 0 then 0
    else Executed(steps[..|steps| - 1]) + if steps[|steps| - 1].status.Skipped? then 0 else 1
  }

  lemma ExecutedOneMore(steps: seq<Step>, step: Step)
    ensures Executed(steps + [step]) == Executed(steps) + if step.status.Skipped? then 0 else 1
  {
    assert (steps + [step])[..|steps|] == steps;
  }

  /** The calls of a run so far are first calls of executed nodes and retries within the budget. */
  ghost predicate WithinBudget(start: Control, run: Run) {
    && (run.mode.Going? ==>
         && SameLimits(start, run.control)
         && run.calls <= Executed(run.steps) + (run.control.retryCount - start.retryCount)
         && run.control.retryCount >= start.retryCount
         && (run.control.retryCount > start.retryCount ==> run.control.retryCount <= start.maxRetries)
         && (LimitBroken(run.control) ==> LimitBroken(start)))
    && run.calls <= Executed(run.steps) + Allowance(start)
  }

  lemma FailNodeWithinBudget(world: World, start: Control, run: Run, id: Id, input: Fields, records: seq<AttemptRecord>)
    requires run.calls <= Executed(run.steps) + 1 + Allowance(start)
    ensures WithinBudget(start, FailNode(world, run, id, input, records))
  {
    ExecutedOneMore(run.steps, Step(id, Failed, input, None, records));
    hide Executed;
  }

  lemma CompletionWithinBudget(world: World, start: Control, before: Control, run: Run, step: Step)
    requires run.mode.Going? && step.status.Completed? && SameLimits(start, run.control)
    requires run.calls <= Executed(run.steps) + 1 + (run.control.retryCount - start.retryCount)
    requires run.control.retryCount >= start.retryCount
    requires run.control.retryCount > start.retryCount ==> run.control.retryCount <= start.maxRetries
    requires LimitBroken(run.control) ==> LimitBroken(start)
    ensures WithinBudget(start, AfterCompletion(Report(world, run, step)))
    ensures AfterCompletion(Report(world, run, step)).mode.Ending? ==> LimitBroken(start) || start.terminate
  {
    ExecutedOneMore(run.steps, step);
    hide Executed;
  }

  lemma ExecuteNodeWithinBudget(world: World, start: Control, run: Run, node: Node, input: Fields)
    requires LeavesControlAlone(world) && run.mode.Going? && WithinBudget(start, run)
    ensures var r := ExecuteNode(world, run, node, input);
      && WithinBudget(start, r)
      && (r.mode.Ending? && !LimitBroken(start) && !start.terminate ==> HasFailure(r.steps))
  {
    var policy := NodeRetryPolicy(node.config);
    var first := Attempts(0, [], run.control, run.calls, Trying);
    var a := AllAttempts(world, policy, node.id, input, first);
    AttemptsArePaidFor(world, policy, node.id, input, run.control, first);
    hide AllAttempts;
    hide NodeRetryPolicy;
    hide Executed;
    hide WithinBudget;
    BudgetOf(start, run);
    var after := run.(control := a.control, calls := a.calls);
    match a.verdict {
      case Produced(data) =>
        CompletionWithinBudget(world, start, run.control, after.(outputs := after.outputs[node.id := data]),
                               Step(node.id, Completed, input, Some(data), a.records));
      case GaveUp =>
        FailNodeWithinBudget(world, start, after, node.id, input, a.records);
        FailureShows(world, after, node.id, input, a.records);
    }
  }

  lemma FailureShows(world: World, run: Run, id: Id, input: Fields, records: seq<AttemptRecord>)
    ensures HasFailure(FailNode(world, run, id, input, records).steps)
  {
    var r := FailNode(world, run, id, input, records);
    assert r.steps[|run.steps|].status.Failed?;
  }

  lemma BudgetOf(start: Control, run: Run)
    requires WithinBudget(start, run) && run.mode.Going?
    ensures SameLimits(start, run.control)
    ensures run.calls <= Executed(run.steps) + (run.control.retryCount - start.retryCount)
    ensures run.control.retryCount >= start.retryCount
    ensures run.control.retryCount > start.retryCount ==> run.control.retryCount <= start.maxRetries
    ensures LimitBroken(run.control) ==> LimitBroken(start)
    ensures run.control.retryCount - start.retryCount + Allowance(run.control) <= Allowance(start)
  {
  }

  /** What a node must leave behind: the budget kept, and no early end without a failure. */
  ghost predicate NodeKeepsBudget(start: Control, r: Run) {
    && WithinBudget(start, r)
    && (r.mode.Ending? && !LimitBroken(start) && !start.terminate ==> HasFailure(r.steps))
  }

  lemma FailureKeepsBudget(world: World, start: Control, run: Run, id: Id, input: Fields)
    requires run.calls <= Executed(run.steps) + 1 + Allowance(start)
    ensures NodeKeepsBudget(start, FailNode(world, run, id, input, []))
  {
    FailNodeWithinBudget(world, start, run, id, input, []);
    FailureShows(world, run, id, input, []);
  }

  lemma SkipKeepsBudget(world: World, start: Control, run: Run, id: Id)
    requires run.mode.Going? && WithinBudget(start, run)
    ensures NodeKeepsBudget(start, SkipNode(world, run, id))
  {
    ExecutedOneMore(run.steps, SkippedStep(id));
    hide Executed;
    hide FailNode;
    var pushed := run.(steps := run.steps + [SkippedStep(id)], reports := run.reports + 1);
    FailureKeepsBudget(world, start, pushed, id, map[]);
  }

  lemma RunNodeWithinBudget(world: World, edges: seq<Edge>, trigger: Fields, start: Control, run: Run, node: Node)
    requires LeavesControlAlone(world) && run.mode.Going? && WithinBudget(start, run)
    ensures NodeKeepsBudget(start, RunNode(world, edges, trigger, run, node))
  {
    hide ExecuteNode;
    hide Resolution;
    hide FailNode;
    hide SkipNode;
    hide LeavesControlAlone;
    var started := run.(starts := run.starts + 1);
    assert WithinBudget(start, started);
    hide Executed;
    FailureKeepsBudget(world, start, started, node.id, map[]);
    SkipKeepsBudget(world, start, started, node.id);
    if world.startThrows(run.starts) {
      assert WithinBudget(start, Abort(started));
    } else if world.configured(node) {
      var parents := Resolution(node.id, edges, started.outputs);
      hide WithinBudget;
      if !parents.skipNode {
        var input := trigger + parents.merged;
        match world.prepare(node.id, input) {
          case RetrievalFailed =>
          case Injected(key, payload) => ExecuteNodeWithinBudget(world, start, started, node, input[key := payload]);
          case Plain => ExecuteNodeWithinBudget(world, start, started, node, input);
        }
      }
    }
  }

  lemma SkipRestKeepsBudget(world: World, start: Control, run: Run, id: Id)
    requires run.mode.Ending? && NodeKeepsBudget(start, run)
    ensures NodeKeepsBudget(start, Report(world, run, SkippedStep(id)))
  {
    ExecutedOneMore(run.steps, SkippedStep(id));
    hide Executed;
    var r := Report(world, run, SkippedStep(id));
    if i :| 0 <= i < |run.steps| && run.steps[i].status.Failed? {
      assert r.steps[i].status.Failed?;
    }
  }

  lemma {:induction false} AlwaysWithinBudget(world: World, nodes: map<Id, Node>, edges: seq<Edge>, trigger: Fields,
                                              start: Control, order: seq<Id>)
    requires LeavesControlAlone(world) && forall v :: v in order ==> v in nodes
    ensures NodeKeepsBudget(start, RunAlong(world, nodes, edges, trigger, start, order))
  {
    if |order| > 0 {
      var init, id := order[..|order| - 1], order[|order| - 1];
      AlwaysWithinBudget(world, nodes, edges, trigger, start, init);
      var run := RunAlong(world, nodes, edges, trigger, start, init);
      assert RunAlong(world, nodes, edges, trigger, start, order) == Advance(world, nodes, edges, trigger, run, id);
      hide RunAlong;
      hide RunNode;
      hide Report;
      hide LeavesControlAlone;
      match run.mode {
        case Going =>
          assert WithinBudget(start, run);
          RunNodeWithinBudget(world, edges, trigger, start, run, nodes[id]);
        case Ending => SkipRestKeepsBudget(world, start, run, id);
        case Aborted =>
      }
      hide WithinBudget;
    }
  }

  lemma FailNodeExecutesOne(world: World, run: Run, id: Id, input: Fields, records: seq<AttemptRecord>)
    ensures Executed(FailNode(world, run, id, input, records).steps) == Executed(run.steps) + 1
  {
    ExecutedOneMore(run.steps, Step(id, Failed, input, None, records));
  }

  lemma SkipNodeExecutesOne(world: World, run: Run, id: Id)
    ensures Executed(SkipNode(world, run, id).steps) <= Executed(run.steps) + 1
  {
    ExecutedOneMore(run.steps, SkippedStep(id));
    var pushed := run.(steps := run.steps + [SkippedStep(id)], reports := run.reports + 1);
    FailNodeExecutesOne(world, pushed, id, map[], []);
    hide Executed;
  }

  lemma ExecuteNodeExecutesOne(world: World, run: Run, node: Node, input: Fields)
    ensures Executed(ExecuteNode(world, run, node, input).steps) == Executed(run.steps) + 1
  {
    var a := AllAttempts(world, NodeRetryPolicy(node.config), node.id, input,
                         Attempts(0, [], run.control, run.calls, Trying));
    var after := run.(control := a.control, calls := a.calls);
    FailNodeExecutesOne(world, after, node.id, input, a.records);
    hide AllAttempts;
    hide NodeRetryPolicy;
    if a.verdict.Produced? {
      ExecutedOneMore(run.steps, Step(node.id, Completed, input, Some(a.verdict.data), a.records));
    }
    hide Executed;
    hide FailNode;
  }

  lemma RunNodeExecutesOne(world: World, edges: seq<Edge>, trigger: Fields, run: Run, node: Node)
    ensures Executed(RunNode(world, edges, trigger, run, node).steps) <= Executed(run.steps) + 1
  {
    hide Executed;
    hide FailNode;
    hide SkipNode;
    hide ExecuteNode;
    hide Resolution;
    var started := run.(starts := run.starts + 1);
    var parents := Resolution(node.id, edges, started.outputs);
    FailNodeExecutesOne(world, started, node.id, map[], []);
    if parents.skipNode {
      SkipNodeExecutesOne(world, started, node.id);
    } else {
      var input := trigger + parents.merged;
      match world.prepare(node.id, input) {
        case RetrievalFailed =>
        case Injected(key, payload) => ExecuteNodeExecutesOne(world, started, node, input[key := payload]);
        case Plain => ExecuteNodeExecutesOne(world, started, node, input);
      }
    }
  }

  /** A node executes at most once, whatever the hooks do. */
  lemma {:induction false} ExecutedPerNode(world: World, nodes: map<Id, Node>, edges: seq<Edge>, trigger: Fields,
                                           control: Control, order: seq<Id>)
    requires forall v :: v in order ==> v in nodes
    ensures Executed(RunAlong(world, nodes, edges, trigger, control, order).steps) <= |order|
  {
    if |order| > 0 {
      var init, id := order[..|order| - 1], order[|order| - 1];
      ExecutedPerNode(world, nodes, edges, trigger, control, init);
      var run := RunAlong(world, nodes, edges, trigger, control, init);
      RunNodeExecutesOne(world, edges, trigger, run, nodes[id]);
      ExecutedOneMore(run.steps, SkippedStep(id));
      hide Executed;
      hide RunNode;
    }
  }

  /** Over a whole run, nodes are called at most once each plus the retries that were left in the budget, even when
      hooks throw; and with counters that start within their limits no limit is broken when a node completes, so that
      only a failed node ends the run early. */
  lemma CallsOfWholeRun(world: World, nodes: map<Id, Node>, edges: seq<Edge>, trigger: Fields, control: Control,
                        order: seq<Id>)
    requires LeavesControlAlone(world) && forall v :: v in order ==> v in nodes
    ensures var run := RunAlong(world, nodes, edges, trigger, control, order);
      && run.calls <= |order| + Allowance(control)
      && (!LimitBroken(control) && !control.terminate ==>
           && (run.mode.Going? ==> !LimitBroken(run.control))
           && (run.mode.Ending? ==> HasFailure(run.steps)))
  {
    AlwaysWithinBudget(world, nodes, edges, trigger, control, order);
    ExecutedPerNode(world, nodes, edges, trigger, control, order);
    hide RunAlong;
    hide Executed;
  }
}
