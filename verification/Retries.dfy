/** What the attempts of a node amount to: which outcomes are repeated, when a node produces an output and when it
    gives up, said of the node's configuration, its replies and the shared counters. */
module Retries {
  import opened Values
  import opened Graph
  import opened ExecutionState
  import opened Engine
  import opened RetryBudget
  import Text

  // ----- what the configuration asks for

  predicate SaysFalse(v: Value) {
    v == Bool(false) || (v.Text? && Text.ToLower(v.s) == "false")
  }

  /** A setting inside `retryPolicy`; absent settings read as undefined. */
  function Inside(config: Fields, key: string): Value {
    if "retryPolicy" in config && config["retryPolicy"].Record? && key in config["retryPolicy"].fields then
      config["retryPolicy"].fields[key]
    else Undefined
  }

  predicate RetriesEnabled(config: Fields) {
    SaysTrue(Setting(config, "enabled", "retryEnabled"))
  }

  predicate RetriesErrors(config: Fields) {
    RetriesEnabled(config) && !SaysFalse(Inside(config, "retryOnError"))
  }

  predicate RetriesDirectives(config: Fields) {
    RetriesEnabled(config) && !SaysFalse(Inside(config, "retryOnDirective"))
  }

  /** `n` is the number of attempts that the configuration allows: the one it names, within one and ten, or else three
      with retries and one without. */
  predicate Allows(config: Fields, n: nat) {
    var named := Setting(config, "maxAttempts", "retryMaxAttempts");
    if !named.Number? then n == if RetriesEnabled(config) then 3 else 1
    else
      && 1 <= n <= 10
      && (n < named.n.Floor ==> n == 10)
      && (n > named.n.Floor ==> n == 1)
  }

  lemma PolicyMeans(config: Fields)
    ensures var p := NodeRetryPolicy(config);
      && (p.enabled <==> RetriesEnabled(config))
      && (p.retryOnError <==> !SaysFalse(Inside(config, "retryOnError")))
      && (p.retryOnDirective <==> !SaysFalse(Inside(config, "retryOnDirective")))
      && (p.failOnMaxAttempts <==> !SaysFalse(Inside(config, "failOnMaxAttempts")))
      && (p.incrementLoopOnRetry <==> !SaysFalse(Inside(config, "incrementLoopOnRetry")))
      && Allows(config, p.maxAttempts)
  {
    hide Text.ToLower;
  }

  // ----- every run of attempts

  /** The node's reply to its `k`-th call since `calls`. */
  function ReplyAt(world: World, node: Node, input: Fields, calls: nat, k: nat): Reply {
    world.execute(calls + k, node.id, input)
  }

  /** The reply is of a kind that is repeated. */
  predicate IsRepeated(config: Fields, reply: Reply) {
    if reply.Threw? then RetriesErrors(config) else reply.retry && RetriesDirectives(config)
  }

  function RecordOf(reply: Reply): AttemptRecord {
    if reply.Threw? then AttemptFailed else AttemptRetry
  }

  /** `n` attempts have been made since `calls`, and all were repeated. */
  ghost predicate Repeating(world: World, node: Node, input: Fields, calls: nat, a: Attempts) {
    && a.verdict.Trying? && a.calls == calls + a.made && |a.records| == a.made
    && forall k :: 0 <= k < a.made ==>
         && IsRepeated(node.config, ReplyAt(world, node, input, calls, k))
         && a.records[k] == RecordOf(ReplyAt(world, node, input, calls, k))
  }

  /** How it ended, with the last reply. */
  ghost predicate Ended(world: World, node: Node, input: Fields, calls: nat, r: Attempts) {
    && r.made > 0 && r.calls == calls + r.made
    && (forall n :: Allows(node.config, n) ==> r.made <= n)
    && (forall k :: 0 <= k < r.made - 1 ==>
         && IsRepeated(node.config, ReplyAt(world, node, input, calls, k))
         && k < |r.records| && r.records[k] == RecordOf(ReplyAt(world, node, input, calls, k)))
    && var last := ReplyAt(world, node, input, calls, r.made - 1);
    && (match r.verdict
        case Produced(data) =>
          && last.Returned? && data == last.data
          && |r.records| == r.made && r.records[r.made - 1] == AttemptCompleted
          && (IsRepeated(node.config, last) ==>
               Allows(node.config, r.made) && SaysFalse(Inside(node.config, "failOnMaxAttempts")))
        case GaveUp =>
          && (last.Returned? ==>
               && last.retry && IsRepeated(node.config, last)
               && (Allows(node.config, r.made) ==> !SaysFalse(Inside(node.config, "failOnMaxAttempts"))))
          && r.made <= |r.records| <= r.made + 1 && r.records[|r.records| - 1] == AttemptFailed
          && (Allows(node.config, r.made) || !IsRepeated(node.config, last) || LimitBroken(r.control))
        case Trying => false)
  }

  /** One attempt, from `a` to `r`. */
  ghost predicate Attempted(config: Fields, max: nat, reply: Reply, a: Attempts, r: Attempts) {
    && r.made == a.made + 1 && r.calls == a.calls + 1
    && match r.verdict
       case Trying => IsRepeated(config, reply) && r.made < max && r.records == a.records + [RecordOf(reply)]
       case Produced(data) =>
         && reply.Returned? && data == reply.data && r.records == a.records + [AttemptCompleted]
         && (IsRepeated(config, reply) ==> r.made >= max && SaysFalse(Inside(config, "failOnMaxAttempts")))
       case GaveUp =>
         && (reply.Returned? ==>
              && reply.retry && IsRepeated(config, reply)
              && (r.made >= max ==> !SaysFalse(Inside(config, "failOnMaxAttempts"))))
         && (r.records == a.records + [AttemptFailed] || r.records == a.records + [AttemptRetry] + [AttemptFailed])
         && (r.made >= max || !IsRepeated(config, reply) || LimitBroken(r.control))
  }

  lemma AttemptMeans(world: World, node: Node, input: Fields, a: Attempts)
    requires a.verdict.Trying? && a.made < NodeRetryPolicy(node.config).maxAttempts
    ensures Attempted(node.config, NodeRetryPolicy(node.config).maxAttempts, world.execute(a.calls, node.id, input),
                      a, Attempt(world, NodeRetryPolicy(node.config), node.id, input, a))
  {
    PolicyMeans(node.config);
    hide NodeRetryPolicy;
    hide SaysFalse;
    hide RetriesEnabled;
    hide Allows;
    hide Inside;
    hide Patched;
  }

  lemma OneAttempt(world: World, node: Node, input: Fields, calls: nat, a: Attempts)
    requires Repeating(world, node, input, calls, a) && a.made < NodeRetryPolicy(node.config).maxAttempts
    ensures var r := Attempt(world, NodeRetryPolicy(node.config), node.id, input, a);
      if r.verdict.Trying? then
        Repeating(world, node, input, calls, r) && r.made < NodeRetryPolicy(node.config).maxAttempts
      else Ended(world, node, input, calls, r)
  {
    var policy := NodeRetryPolicy(node.config);
    AttemptMeans(world, node, input, a);
    PolicyMeans(node.config);
    OnlyOneAllowed(node.config, policy.maxAttempts);
    var r := Attempt(world, policy, node.id, input, a);
    hide Attempt;
    hide NodeRetryPolicy;
    hide IsRepeated;
    hide SaysFalse;
    hide Allows;
    hide Inside;
    hide LimitBroken;
    assert ReplyAt(world, node, input, calls, a.made) == world.execute(a.calls, node.id, input);
    assert forall k :: 0 <= k < a.made ==> r.records[k] == a.records[k];
  }

  lemma OnlyOneAllowed(config: Fields, n: nat)
    requires Allows(config, n)
    ensures forall m :: Allows(config, m) ==> m == n
  {
    hide RetriesEnabled;
    hide Setting;
  }

  lemma {:induction false} RepeatsUntilEnded(world: World, node: Node, input: Fields, calls: nat, a: Attempts)
    requires Repeating(world, node, input, calls, a) && a.made < NodeRetryPolicy(node.config).maxAttempts
    ensures Ended(world, node, input, calls, AllAttempts(world, NodeRetryPolicy(node.config), node.id, input, a))
    decreases NodeRetryPolicy(node.config).maxAttempts - a.made
  {
    OneAttempt(world, node, input, calls, a);
    var policy := NodeRetryPolicy(node.config);
    var r := Attempt(world, policy, node.id, input, a);
    hide NodeRetryPolicy;
    hide Repeating;
    hide Ended;
    hide Attempt;
    if r.verdict.Trying? {
      MadeOne(world, policy, node.id, input, a);
      RepeatsUntilEnded(world, node, input, calls, r);
    }
  }

  lemma MadeOne(world: World, policy: RetryPolicy, id: Id, input: Fields, a: Attempts)
    ensures Attempt(world, policy, id, input, a).made == a.made + 1
  {
  }

  /** Whatever a node replies: all replies but the last are of a kind that is repeated; the node produces the data of
      the last one, or gives up because the attempts are used up, the last reply is not repeated, or a limit broke. */
  lemma AttemptsMean(world: World, node: Node, input: Fields, control: Control, calls: nat)
    ensures Ended(world, node, input, calls,
                  AllAttempts(world, NodeRetryPolicy(node.config), node.id, input,
                              Attempts(0, [], control, calls, Trying)))
  {
    RepeatsUntilEnded(world, node, input, calls, Attempts(0, [], control, calls, Trying));
  }

  // ----- repetitions do happen

  /** The control record after `k` repeated replies: their patches, a retry for each, and a loop for each request of a
      retry where loops are counted. */
  function ControlAfter(world: World, node: Node, input: Fields, control: Control, calls: nat, k: nat): Control {
    if k == 0 then control
    else
      var before := ControlAfter(world, node, input, control, calls, k - 1);
      var reply := ReplyAt(world, node, input, calls, k - 1);
      var patched := Patched(before, reply.patch);
      var loops := if reply.Returned? && !SaysFalse(Inside(node.config, "incrementLoopOnRetry")) then 1 else 0;
      patched.(retryCount := patched.retryCount + 1, loopCount := patched.loopCount + loops)
  }

  /** The first `j` replies are repeated within the limits, and there is an attempt left after them. */
  ghost predicate MayRepeat(world: World, node: Node, input: Fields, control: Control, calls: nat, j: nat) {
    && (forall n :: Allows(node.config, n) ==> j < n)
    && forall k: nat :: k < j ==> RepeatsAt(world, node, input, control, calls, k)
  }

  /** The reply is repeated, and the limits allow it. */
  ghost predicate RepeatsAt(world: World, node: Node, input: Fields, control: Control, calls: nat, k: nat) {
    && IsRepeated(node.config, ReplyAt(world, node, input, calls, k))
    && !LimitBroken(ControlAfter(world, node, input, control, calls, k + 1))
  }

  lemma {:induction false} StillTrying(world: World, node: Node, input: Fields, control: Control, calls: nat, j: nat,
                                       k: nat)
    returns (a: Attempts)
    requires MayRepeat(world, node, input, control, calls, j) && k <= j
    ensures a.made == k && a.calls == calls + k && a.verdict.Trying?
    ensures a.control == ControlAfter(world, node, input, control, calls, k)
    ensures AllAttempts(world, NodeRetryPolicy(node.config), node.id, input, a)
         == AllAttempts(world, NodeRetryPolicy(node.config), node.id, input,
                        Attempts(0, [], control, calls, Trying))
  {
    if k == 0 {
      a := Attempts(0, [], control, calls, Trying);
    } else {
      var before := StillTrying(world, node, input, control, calls, j, k - 1);
      PolicyMeans(node.config);
      var policy := NodeRetryPolicy(node.config);
      a := Attempt(world, policy, node.id, input, before);
      hide NodeRetryPolicy;
      assert j < policy.maxAttempts;
      assert AllAttempts(world, policy, node.id, input, before) == AllAttempts(world, policy, node.id, input, a);
      hide *;
      StepControl(world, node, input, control, calls, j, k - 1, before);
    }
  }

  lemma StepControl(world: World, node: Node, input: Fields, control: Control, calls: nat, j: nat, k: nat, a: Attempts)
    requires MayRepeat(world, node, input, control, calls, j) && k < j
    requires a.made == k && a.calls == calls + k && a.verdict.Trying?
    requires a.control == ControlAfter(world, node, input, control, calls, k)
    ensures var r := Attempt(world, NodeRetryPolicy(node.config), node.id, input, a);
      && r.made == k + 1 && r.calls == calls + k + 1 && r.verdict.Trying?
      && r.control == ControlAfter(world, node, input, control, calls, k + 1)
  {
    PolicyMeans(node.config);
    hide NodeRetryPolicy;
    hide SaysFalse;
    hide RetriesEnabled;
    hide Allows;
    hide Inside;
    hide Patched;
    assert RepeatsAt(world, node, input, control, calls, k);
  }

  /** After `j` repeated replies within the limits, a reply that asks for nothing more is the node's output, after
      exactly `j + 1` calls; its patch comes on top of the counted retries. */
  lemma RepetitionsHappen(world: World, node: Node, input: Fields, control: Control, calls: nat, j: nat)
    requires MayRepeat(world, node, input, control, calls, j)
    requires ReplyAt(world, node, input, calls, j).Returned? && !ReplyAt(world, node, input, calls, j).retry
    ensures var reply := ReplyAt(world, node, input, calls, j);
      var r := AllAttempts(world, NodeRetryPolicy(node.config), node.id, input,
                           Attempts(0, [], control, calls, Trying));
      && r.verdict == Produced(reply.data) && r.made == j + 1
      && r.control == Patched(ControlAfter(world, node, input, control, calls, j), reply.patch)
  {
    var a := StillTrying(world, node, input, control, calls, j, j);
    PolicyMeans(node.config);
    var policy := NodeRetryPolicy(node.config);
    assert j < policy.maxAttempts;
    var r := Attempt(world, policy, node.id, input, a);
    hide NodeRetryPolicy;
    hide Patched;
    hide Allows;
    hide ControlAfter;
    hide MayRepeat;
    assert AllAttempts(world, policy, node.id, input, a) == AllAttempts(world, policy, node.id, input, r) == r;
  }

  /** How many of the first `k` replies asked for a retry. */
  function Requests(world: World, node: Node, input: Fields, calls: nat, k: nat): nat {
    if k == 0 then 0
    else Requests(world, node, input, calls, k - 1) + if ReplyAt(world, node, input, calls, k - 1).Threw? then 0 else 1
  }

  lemma {:induction false} CountedRetries(world: World, node: Node, input: Fields, control: Control, calls: nat, k: nat)
    requires forall i :: 0 <= i < k ==> ReplyAt(world, node, input, calls, i).patch == NO_PATCH
    ensures ControlAfter(world, node, input, control, calls, k) == control.(
      retryCount := control.retryCount + k,
      loopCount := control.loopCount
        + if SaysFalse(Inside(node.config, "incrementLoopOnRetry")) then 0 else Requests(world, node, input, calls, k))
  {
    hide SaysFalse;
    hide Inside;
    if k > 0 {
      CountedRetries(world, node, input, control, calls, k - 1);
      assert ReplyAt(world, node, input, calls, k - 1).patch == NO_PATCH;
    }
  }

  /** A node that fails or asks for a retry `j` times and then returns: with repetition configured, attempts left and
      room for `j` retries and the requested loops, it produces its output after `j + 1` calls and leaves exactly
      these retries and loops behind. */
  lemma RetriesLeadToOutput(world: World, node: Node, input: Fields, control: Control, calls: nat, j: nat, data: Fields)
    requires forall n :: Allows(node.config, n) ==> j < n
    requires forall k :: 0 <= k < j ==>
      && IsRepeated(node.config, ReplyAt(world, node, input, calls, k))
      && ReplyAt(world, node, input, calls, k).patch == NO_PATCH
    requires ReplyAt(world, node, input, calls, j) == Returned(data, NO_PATCH, false)
    requires j > 0 ==>
      && control.retryCount + j <= control.maxRetries
      && control.loopCount + Requests(world, node, input, calls, j) <= control.maxLoops
    ensures var r := AllAttempts(world, NodeRetryPolicy(node.config), node.id, input,
                                 Attempts(0, [], control, calls, Trying));
      && r.verdict == Produced(data) && r.calls == calls + j + 1
      && r.control.retryCount == control.retryCount + j
      && r.control.loopCount == control.loopCount
         + (if SaysFalse(Inside(node.config, "incrementLoopOnRetry")) then 0
            else Requests(world, node, input, calls, j))
      && |r.records| == j + 1 && r.records[j] == AttemptCompleted
      && forall k :: 0 <= k < j ==> r.records[k] == RecordOf(ReplyAt(world, node, input, calls, k))
  {
    hide AllAttempts;
    hide NodeRetryPolicy;
    hide ControlAfter;
    hide Requests;
    hide IsRepeated;
    hide SaysFalse;
    hide Inside;
    hide Patched;
    hide Allows;
    MayRepeatWithinLimits(world, node, input, control, calls, j);
    hide MayRepeat;
    CountedRetries(world, node, input, control, calls, j);
    NoPatch(ControlAfter(world, node, input, control, calls, j));
    RepetitionsHappen(world, node, input, control, calls, j);
    AttemptsMean(world, node, input, control, calls);
  }

  lemma MayRepeatWithinLimits(world: World, node: Node, input: Fields, control: Control, calls: nat, j: nat)
    requires forall n :: Allows(node.config, n) ==> j < n
    requires forall k :: 0 <= k < j ==>
      && IsRepeated(node.config, ReplyAt(world, node, input, calls, k))
      && ReplyAt(world, node, input, calls, k).patch == NO_PATCH
    requires j > 0 ==>
      && control.retryCount + j <= control.maxRetries
      && control.loopCount + Requests(world, node, input, calls, j) <= control.maxLoops
    ensures MayRepeat(world, node, input, control, calls, j)
  {
    hide ControlAfter;
    hide Requests;
    hide IsRepeated;
    hide SaysFalse;
    hide Inside;
    hide Allows;
    hide ReplyAt;
    forall k: nat | k < j ensures RepeatsAt(world, node, input, control, calls, k) {
      assert IsRepeated(node.config, ReplyAt(world, node, input, calls, k));
      CountedRetries(world, node, input, control, calls, k + 1);
      RequestsGrow(world, node, input, calls, k + 1, j);
    }
  }

  lemma NoPatch(c: Control)
    ensures Patched(c, NO_PATCH) == c
  {
  }

  lemma {:induction false} RequestsGrow(world: World, node: Node, input: Fields, calls: nat, i: nat, k: nat)
    requires i <= k
    ensures Requests(world, node, input, calls, i) <= Requests(world, node, input, calls, k)
  {
    if i < k { RequestsGrow(world, node, input, calls, i, k - 1); }
  }
}
