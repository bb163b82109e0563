/** Flattening a nested JSON value into one record whose keys are rendered paths. */
module JsonFlattening {
  import opened Values
  import Graph
  import Text

  datatype PathStep = Key(key: string) | Index(index: nat)

  datatype Options = Options(maxDepth: nat, includeArrays: bool)

  // ----- rendering of paths

  function RenderStep(prefix: string, step: PathStep): string {
    match step
    case Key(key) => if prefix != "" then prefix + "." + key else key
    case Index(index) => prefix + "[" + Text.Decimal(index) + "]"
  }

  function Render(prefix: string, path: seq<PathStep>): string
    decreases |path|
  {
    if path == [] then prefix else Render(RenderStep(prefix, path[0]), path[1..])
  }

  // ----- the leaves of a value

  /** What the walk keeps for the end of `path` when it enters `v` at `depth`. */
  function Kept(v: Value, path: seq<PathStep>, depth: nat, options: Options): Option<Value>
    decreases |path|
  {
    if depth > options.maxDepth then None
    else
      match v
      case Record(fields) =>
        if |fields| == 0 then (if path == [] then Some(v) else None)
        else if path != [] && path[0].Key? && path[0].key in fields then
          Kept(fields[path[0].key], path[1..], depth + 1, options)
        else None
      case List(items) =>
        if !options.includeArrays then
          (if path == [] then Some(Text("[array:" + Text.Decimal(|items|) + "]")) else None)
        else if path != [] && path[0].Index? && path[0].index < |items| then
          Kept(items[path[0].index], path[1..], depth + 1, options)
        else None
      case _ => if path == [] then Some(v) else None
  }

  /** The paths of all kept leaves, each once, in some order. */
  ghost predicate Lists(v: Value, depth: nat, options: Options, ps: seq<seq<PathStep>>) {
    Graph.Distinct(ps) && forall p :: p in ps <==> Kept(v, p, depth, options).Some?
  }

  /** What the walk of `v` under `prefix` writes for these paths. */
  function Writes(v: Value, prefix: string, depth: nat, options: Options, ps: seq<seq<PathStep>>):
    (ws: seq<(string, Value)>)
    requires forall i :: 0 <= i < |ps| ==> Kept(v, ps[i], depth, options).Some?
    ensures |ws| == |ps|
  {
    seq(|ps|, i requires 0 <= i < |ps| => (Render(prefix, ps[i]), Kept(v, ps[i], depth, options).value))
  }

  // ----- the record under construction

  const PROTO := "__proto__"

  /** The own entries of an ordinary object. A write to `__proto__` reaches the accessor of its prototype and leaves no
      entry, until null has been written there: then the object is `bare` and has no accessor any more. */
  datatype Store = Store(out: Fields, bare: bool)

  const EMPTY := Store(map[], false)

  function Write(s: Store, key: string, value: Value): Store {
    if key == PROTO && !s.bare then s.(bare := value == Null)
    else s.(out := s.out[key := value])
  }

  function WriteAll(s: Store, ws: seq<(string, Value)>): Store {
    if |ws| == 0 then s
    else
      var w := ws[|ws| - 1];
      Write(WriteAll(s, ws[..|ws| - 1]), w.0, w.1)
  }

  lemma {:induction false} WriteBoth(s: Store, first: seq<(string, Value)>, second: seq<(string, Value)>)
    ensures WriteAll(s, first + second) == WriteAll(WriteAll(s, first), second)
  {
    if |second| == 0 {
      assert first + second == first;
    } else {
      var n := |second| - 1;
      WriteBoth(s, first, second[..n]);
      assert (first + second)[..|first| + n] == first + second[..n];
    }
  }

  // ----- the walk

  /** The walk goes from `v` to `child` by this step. */
  ghost predicate IsChild(v: Value, step: PathStep, child: Value, depth: nat, options: Options) {
    && depth <= options.maxDepth
    && match v
       case Record(fields) => step.Key? && step.key in fields && child == fields[step.key]
       case List(items) =>
         options.includeArrays && step.Index? && step.index < |items| && child == items[step.index]
       case _ => false
  }

  /** The paths of the kept leaves below some of the children. */
  ghost predicate ListsBelow(v: Value, depth: nat, options: Options, ps: seq<seq<PathStep>>, steps: set<PathStep>) {
    && Graph.Distinct(ps)
    && forall p :: p in ps <==> p != [] && p[0] in steps && Kept(v, p, depth, options).Some?
  }

  function Below(step: PathStep, qs: seq<seq<PathStep>>): (ps: seq<seq<PathStep>>)
    ensures |ps| == |qs|
  {
    seq(|qs|, i requires 0 <= i < |qs| => [step] + qs[i])
  }

  lemma ChildKept(v: Value, step: PathStep, child: Value, prefix: string, depth: nat, options: Options,
                  q: seq<PathStep>)
    requires IsChild(v, step, child, depth, options)
    ensures Kept(v, [step] + q, depth, options) == Kept(child, q, depth + 1, options)
    ensures Render(prefix, [step] + q) == Render(RenderStep(prefix, step), q)
  {
    assert ([step] + q)[1..] == q;
  }

  lemma BelowMembers(step: PathStep, qs: seq<seq<PathStep>>)
    ensures forall p :: p in Below(step, qs) <==> p != [] && p[0] == step && p[1..] in qs
    ensures Graph.Distinct(qs) ==> Graph.Distinct(Below(step, qs))
  {
    var ps := Below(step, qs);
    forall p ensures p in ps <==> p != [] && p[0] == step && p[1..] in qs {
      if p in ps {
        var i :| 0 <= i < |ps| && ps[i] == p;
        assert p[1..] == qs[i];
      }
      if p != [] && p[0] == step && p[1..] in qs {
        var i :| 0 <= i < |qs| && qs[i] == p[1..];
        assert ps[i] == p;
      }
    }
    assert forall i :: 0 <= i < |ps| ==> ps[i][1..] == qs[i];
  }

  lemma DistinctBoth(ps: seq<seq<PathStep>>, qs: seq<seq<PathStep>>)
    requires Graph.Distinct(ps) && Graph.Distinct(qs) && forall p :: p in ps ==> p !in qs
    ensures Graph.Distinct(ps + qs)
  {
    var all := ps + qs;
    forall i, j | 0 <= i < j < |all| ensures all[i] != all[j] {
      if i < |ps| <= j { assert all[i] in ps && all[j] == qs[j - |ps|]; }
    }
  }

  lemma MoreListed(v: Value, step: PathStep, child: Value, depth: nat, options: Options,
                   steps: set<PathStep>, ps: seq<seq<PathStep>>, qs: seq<seq<PathStep>>)
    requires IsChild(v, step, child, depth, options) && step !in steps
    requires ListsBelow(v, depth, options, ps, steps) && Lists(child, depth + 1, options, qs)
    ensures ListsBelow(v, depth, options, ps + Below(step, qs), steps + {step})
  {
    BelowMembers(step, qs);
    var more := Below(step, qs);
    DistinctBoth(ps, more);
    forall q { ChildKept(v, step, child, "", depth, options, q); }
    hide Kept;
    hide Render;
    hide IsChild;
    hide Below;
    forall p
      ensures p in ps + more <==> p != [] && p[0] in steps + {step} && Kept(v, p, depth, options).Some?
    {
      if p != [] && p[0] == step { assert p == [step] + p[1..]; }
    }
  }

  /** The walk has gone through one more child. */
  lemma OneMoreChild(before: Store, v: Value, step: PathStep, child: Value, prefix: string, depth: nat,
                     options: Options, steps: set<PathStep>, ps: seq<seq<PathStep>>, qs: seq<seq<PathStep>>)
    requires IsChild(v, step, child, depth, options) && step !in steps
    requires ListsBelow(v, depth, options, ps, steps) && Lists(child, depth + 1, options, qs)
    ensures ListsBelow(v, depth, options, ps + Below(step, qs), steps + {step})
    ensures WriteAll(before, Writes(v, prefix, depth, options, ps + Below(step, qs)))
         == WriteAll(WriteAll(before, Writes(v, prefix, depth, options, ps)),
                     Writes(child, RenderStep(prefix, step), depth + 1, options, qs))
  {
    MoreListed(v, step, child, depth, options, steps, ps, qs);
    MoreWrites(v, step, child, prefix, depth, options, ps, qs);
    hide *;
    WriteBoth(before, Writes(v, prefix, depth, options, ps),
              Writes(child, RenderStep(prefix, step), depth + 1, options, qs));
  }

  lemma MoreWrites(v: Value, step: PathStep, child: Value, prefix: string, depth: nat, options: Options,
                   ps: seq<seq<PathStep>>, qs: seq<seq<PathStep>>)
    requires IsChild(v, step, child, depth, options)
    requires forall i :: 0 <= i < |ps| ==> Kept(v, ps[i], depth, options).Some?
    requires forall i :: 0 <= i < |qs| ==> Kept(child, qs[i], depth + 1, options).Some?
    requires forall i :: 0 <= i < |ps + Below(step, qs)| ==> Kept(v, (ps + Below(step, qs))[i], depth, options).Some?
    ensures Writes(v, prefix, depth, options, ps + Below(step, qs))
         == Writes(v, prefix, depth, options, ps)
          + Writes(child, RenderStep(prefix, step), depth + 1, options, qs)
  {
    forall i | 0 <= i < |qs|
      ensures Kept(v, Below(step, qs)[i], depth, options) == Kept(child, qs[i], depth + 1, options)
      ensures Render(prefix, Below(step, qs)[i]) == Render(RenderStep(prefix, step), qs[i])
    {
      ChildKept(v, step, child, prefix, depth, options, qs[i]);
    }
    hide Kept;
    hide Render;
    hide RenderStep;
    hide IsChild;
    hide Below;
  }

  lemma NoChildYet(before: Store, v: Value, prefix: string, depth: nat, options: Options)
    ensures ListsBelow(v, depth, options, [], {})
    ensures WriteAll(before, Writes(v, prefix, depth, options, [])) == before
  {
  }

  lemma FieldIsChild(fields: Fields, key: string, depth: nat, options: Options)
    requires depth <= options.maxDepth && key in fields
    ensures IsChild(Record(fields), Key(key), fields[key], depth, options)
  {
  }

  lemma ItemIsChild(items: seq<Value>, index: nat, depth: nat, options: Options)
    requires depth <= options.maxDepth && options.includeArrays && index < |items|
    ensures IsChild(List(items), Index(index), items[index], depth, options)
  {
  }

  lemma AllFields(fields: Fields, depth: nat, options: Options, ps: seq<seq<PathStep>>, steps: set<PathStep>)
    requires |fields| > 0 && ListsBelow(Record(fields), depth, options, ps, steps)
    requires forall k :: k in fields ==> Key(k) in steps
    ensures Lists(Record(fields), depth, options, ps)
  {
  }

  lemma AllItems(items: seq<Value>, depth: nat, options: Options, ps: seq<seq<PathStep>>, steps: set<PathStep>)
    requires options.includeArrays && ListsBelow(List(items), depth, options, ps, steps)
    requires forall i: nat :: i < |items| ==> Index(i) in steps
    ensures Lists(List(items), depth, options, ps)
  {
  }

  lemma OneLeaf(v: Value, prefix: string, depth: nat, options: Options, kept: Value)
    requires forall p :: Kept(v, p, depth, options) == if p == [] then Some(kept) else None
    ensures Lists(v, depth, options, [[]]) && Writes(v, prefix, depth, options, [[]]) == [(prefix, kept)]
  {
  }

  class Flattener {
    var out: Fields
    var bare: bool
    const options: Options

    constructor (options: Options)
      ensures Contents() == EMPTY && this.options == options
    {
      out := map[];
      bare := false;
      this.options := options;
    }

    function Contents(): Store
      reads this
    {
      Store(out, bare)
    }

    method Put(key: string, value: Value)
      modifies this
      ensures Contents() == WriteAll(old(Contents()), [(key, value)])
    {
      assert WriteAll(Contents(), [(key, value)][..0]) == Contents();
      if key == PROTO && !bare {
        bare := value == Null;
      } else {
        out := out[key := value];
      }
    }

    method Walk(current: Value, prefix: string, depth: nat) returns (ghost ps: seq<seq<PathStep>>)
      modifies this
      ensures Lists(current, depth, options, ps)
      ensures Contents() == WriteAll(old(Contents()), Writes(current, prefix, depth, options, ps))
      decreases current, 1
    {
      ps := [];
      if depth > options.maxDepth {
        return;
      }
      match current {
        case Record(fields) =>
          if |fields| == 0 {
            ps := [[]];
            OneLeaf(current, prefix, depth, options, current);
            Put(prefix, current);
          } else {
            ps := WalkFields(fields, prefix, depth);
          }
        case List(items) =>
          if options.includeArrays {
            ps := WalkItems(items, prefix, depth);
          } else {
            var summary := Text("[array:" + Text.Decimal(|items|) + "]");
            ps := [[]];
            OneLeaf(current, prefix, depth, options, summary);
            Put(prefix, summary);
          }
        case _ =>
          ps := [[]];
          OneLeaf(current, prefix, depth, options, current);
          Put(prefix, current);
      }
    }

    /** The entries of a record, in any order. */
    method WalkFields(fields: Fields, prefix: string, depth: nat) returns (ghost ps: seq<seq<PathStep>>)
      requires depth <= options.maxDepth && |fields| > 0
      modifies this
      ensures Lists(Record(fields), depth, options, ps)
      ensures Contents() == WriteAll(old(Contents()), Writes(Record(fields), prefix, depth, options, ps))
      decreases Record(fields), 0
    {
      hide Kept;
      hide Render;
      hide WriteAll;
      hide Writes;
      hide IsChild;
      hide Lists;
      ghost var v := Record(fields);
      var todo := fields.Keys;
      ghost var steps: set<PathStep> := {};
      ps := [];
      NoChildYet(Contents(), v, prefix, depth, options);
      while todo != {}
        invariant todo <= fields.Keys
        invariant forall k :: k in fields ==> (Key(k) in steps <==> k !in todo)
        invariant ListsBelow(v, depth, options, ps, steps)
        invariant Contents() == WriteAll(old(Contents()), Writes(v, prefix, depth, options, ps))
      {
        var key :| key in todo;
        assert fields[key] == v.fields[key];
        FieldIsChild(fields, key, depth, options);
        ghost var before := ps;
        ghost var qs := Walk(fields[key], RenderStep(prefix, Key(key)), depth + 1);
        OneMoreChild(old(Contents()), v, Key(key), fields[key], prefix, depth, options, steps, before, qs);
        ps := before + Below(Key(key), qs);
        steps := steps + {Key(key)};
        todo := todo - {key};
      }
      AllFields(fields, depth, options, ps, steps);
    }

    method WalkItems(items: seq<Value>, prefix: string, depth: nat) returns (ghost ps: seq<seq<PathStep>>)
      requires depth <= options.maxDepth && options.includeArrays
      modifies this
      ensures Lists(List(items), depth, options, ps)
      ensures Contents() == WriteAll(old(Contents()), Writes(List(items), prefix, depth, options, ps))
      decreases List(items), 0
    {
      hide Kept;
      hide Render;
      hide WriteAll;
      hide Writes;
      hide IsChild;
      hide Lists;
      ghost var v := List(items);
      ghost var steps: set<PathStep> := {};
      ps := [];
      NoChildYet(Contents(), v, prefix, depth, options);
      for index := 0 to |items|
        invariant forall i: nat :: Index(i) in steps <==> i < index
        invariant ListsBelow(v, depth, options, ps, steps)
        invariant Contents() == WriteAll(old(Contents()), Writes(v, prefix, depth, options, ps))
      {
        assert items[index] == v.items[index];
        ItemIsChild(items, index, depth, options);
        ghost var before := ps;
        ghost var qs := Walk(items[index], RenderStep(prefix, Index(index)), depth + 1);
        OneMoreChild(old(Contents()), v, Index(index), items[index], prefix, depth, options, steps, before, qs);
        ps := before + Below(Index(index), qs);
        steps := steps + {Index(index)};
      }
      AllItems(items, depth, options, ps, steps);
    }
  }

  /** The entries after the walk from the root. */
  ghost function Flattened(v: Value, options: Options, ps: seq<seq<PathStep>>): Fields
    requires Lists(v, 0, options, ps)
  {
    WriteAll(EMPTY, Writes(v, "", 0, options, ps)).out
  }

  /** A container without any entry is returned as it is. */
  ghost predicate FlattensTo(v: Value, options: Options, r: Value) {
    exists ps :: Lists(v, 0, options, ps) &&
      r == if |Flattened(v, options, ps)| == 0 && (v.Record? || v.List?) then v else Record(Flattened(v, options, ps))
  }

  method FlattenJson(value: Value, maxDepth: int, includeArrays: bool) returns (r: Value)
    ensures FlattensTo(value, Options(if maxDepth < 1 then 1 else maxDepth, includeArrays), r)
  {
    var flattener := new Flattener(Options(if maxDepth < 1 then 1 else maxDepth, includeArrays));
    ghost var ps := flattener.Walk(value, "", 0);
    assert flattener.out == Flattened(value, flattener.options, ps);
    hide *;
    if |flattener.out| == 0 && (value.Record? || value.List?) {
      return value;
    }
    return Record(flattener.out);
  }

  // ----- rendered paths can be told apart

  predicate CleanKey(key: string) {
    key != "" && '.' !in key && '[' !in key
  }

  predicate CleanStep(step: PathStep) {
    step.Key? ==> CleanKey(step.key)
  }

  ghost predicate CleanPath(p: seq<PathStep>) {
    forall i :: 0 <= i < |p| ==> CleanStep(p[i])
  }

  /** Every key inside the value is non-empty and free of dots and opening brackets. */
  ghost predicate CleanKeys(v: Value)
    decreases v
  {
    match v
    case Record(fields) => forall k :: k in fields ==> CleanKey(k) && CleanKeys(fields[k])
    case List(items) => forall i :: 0 <= i < |items| ==> CleanKeys(items[i])
    case _ => true
  }

  lemma {:induction false} KeptPathsAreClean(v: Value, p: seq<PathStep>, depth: nat, options: Options)
    requires CleanKeys(v) && Kept(v, p, depth, options).Some?
    ensures CleanPath(p)
    decreases |p|
  {
    if p != [] {
      match v {
        case Record(fields) => KeptPathsAreClean(fields[p[0].key], p[1..], depth + 1, options);
        case List(items) => KeptPathsAreClean(items[p[0].index], p[1..], depth + 1, options);
        case _ =>
      }
      assert forall i :: 0 < i < |p| ==> p[i] == p[1..][i - 1];
    }
  }

  /** What a step adds behind a non-empty prefix. */
  function StepText(step: PathStep): (s: string)
    ensures s != "" && (s[0] == '.' || s[0] == '[')
  {
    match step
    case Key(key) => "." + key
    case Index(index) => "[" + Text.Decimal(index) + "]"
  }

  function Tail(p: seq<PathStep>): (s: string)
    ensures s == "" <==> p == []
    ensures s != "" ==> s[0] == '.' || s[0] == '['
    decreases |p|
  {
    if p == [] then "" else StepText(p[0]) + Tail(p[1..])
  }

  lemma Associative(a: string, b: string, c: string)
    ensures (a + b) + c == a + (b + c)
  {
  }

  lemma RenderStepBehindPrefix(prefix: string, step: PathStep)
    requires prefix != ""
    ensures RenderStep(prefix, step) == prefix + StepText(step)
  {
    match step {
      case Key(key) => Associative(prefix, ".", key);
      case Index(index) =>
        Associative(prefix, "[", Text.Decimal(index));
        Associative(prefix, "[" + Text.Decimal(index), "]");
    }
  }

  lemma {:induction false} RenderBehindPrefix(prefix: string, p: seq<PathStep>)
    requires prefix != ""
    ensures Render(prefix, p) == prefix + Tail(p)
    decreases |p|
  {
    if p != [] {
      RenderStepBehindPrefix(prefix, p[0]);
      hide RenderStep;
      hide StepText;
      RenderBehindPrefix(RenderStep(prefix, p[0]), p[1..]);
      Associative(prefix, StepText(p[0]), Tail(p[1..]));
    }
  }

  ghost predicate FreeOf(s: string, stops: set<char>) {
    forall i :: 0 <= i < |s| ==> s[i] !in stops
  }

  ghost predicate StopsOrEnds(s: string, stops: set<char>) {
    s == "" || s[0] in stops
  }

  /** A text is split in one way where the first stop character stands. */
  lemma SplitAtStop(a: string, t: string, b: string, u: string, stops: set<char>)
    requires FreeOf(a, stops) && FreeOf(b, stops) && StopsOrEnds(t, stops) && StopsOrEnds(u, stops)
    requires a + t == b + u
    ensures a == b && t == u
  {
    var s := a + t;
    if |a| < |b| { StopInside(a, t, b, u, stops); }
    if |b| < |a| { StopInside(b, u, a, t, stops); }
    assert a == s[..|a|] && b == (b + u)[..|b|];
    assert t == s[|a|..] && u == (b + u)[|b|..];
  }

  lemma StopInside(a: string, t: string, b: string, u: string, stops: set<char>)
    requires FreeOf(b, stops) && StopsOrEnds(t, stops) && a + t == b + u
    ensures |a| >= |b|
  {
    assert forall i :: 0 <= i < |b| ==> (b + u)[i] == b[i];
    assert t != "" ==> (a + t)[|a|] == t[0];
  }

  lemma {:induction false} TailInjective(p: seq<PathStep>, q: seq<PathStep>)
    requires CleanPath(p) && CleanPath(q) && Tail(p) == Tail(q)
    ensures p == q
    decreases |p|
  {
    if p != [] {
      assert q != [] && CleanStep(p[0]) && CleanStep(q[0]);
      StepInjective(p[0], Tail(p[1..]), q[0], Tail(q[1..]));
      assert CleanPath(p[1..]) && CleanPath(q[1..]);
      TailInjective(p[1..], q[1..]);
      assert p == [p[0]] + p[1..] && q == [q[0]] + q[1..];
    }
  }

  lemma DropFirst(c: char, a: string, t: string)
    ensures ([c] + a + t)[1..] == a + t && ([c] + a + t)[0] == c
  {
  }

  lemma KeyTextInjective(a: string, t: string, b: string, u: string)
    requires CleanKey(a) && CleanKey(b) && "." + a + t == "." + b + u
    requires StopsOrEnds(t, {'.', '['}) && StopsOrEnds(u, {'.', '['})
    ensures a == b && t == u
  {
    DropFirst('.', a, t);
    DropFirst('.', b, u);
    SplitAtStop(a, t, b, u, {'.', '['});
  }

  lemma {:induction false} IndexTextInjective(m: nat, t: string, n: nat, u: string)
    requires "[" + Text.Decimal(m) + "]" + t == "[" + Text.Decimal(n) + "]" + u
    ensures m == n && t == u
  {
    hide Text.Decimal;
    var d, e := Text.Decimal(m), Text.Decimal(n);
    assert "[" + d + "]" + t == "[" + d + ("]" + t) && "[" + e + "]" + u == "[" + e + ("]" + u);
    DropFirst('[', d, "]" + t);
    DropFirst('[', e, "]" + u);
    SplitAtStop(d, "]" + t, e, "]" + u, {']'});
    Text.DecimalInjective(m, n);
    assert ("]" + t)[1..] == t && ("]" + u)[1..] == u;
  }

  lemma StepInjective(a: PathStep, t: string, b: PathStep, u: string)
    requires CleanStep(a) && CleanStep(b) && StepText(a) + t == StepText(b) + u
    requires StopsOrEnds(t, {'.', '['}) && StopsOrEnds(u, {'.', '['})
    ensures a == b && t == u
  {
    assert StepText(a)[0] == (StepText(a) + t)[0] == (StepText(b) + u)[0] == StepText(b)[0];
    match a {
      case Key(key) => KeyTextInjective(key, t, b.key, u);
      case Index(index) => IndexTextInjective(index, t, b.index, u);
    }
  }

  lemma SameFirstKey(p: seq<PathStep>, q: seq<PathStep>)
    requires CleanPath(p) && CleanPath(q) && p != [] && q != [] && p[0].Key? && q[0].Key?
    requires p[0].key + Tail(p[1..]) == q[0].key + Tail(q[1..])
    ensures p == q
  {
    assert CleanStep(p[0]) && CleanStep(q[0]);
    assert CleanPath(p[1..]) && CleanPath(q[1..]);
    hide Tail;
    SplitAtStop(p[0].key, Tail(p[1..]), q[0].key, Tail(q[1..]), {'.', '['});
    TailInjective(p[1..], q[1..]);
    assert p == [p[0]] + p[1..] && q == [q[0]] + q[1..];
  }

  /** A path that begins with a key and one that begins with an index render differently. */
  lemma KeyIsNoIndex(p: seq<PathStep>, q: seq<PathStep>)
    requires CleanPath(p) && p != [] && q != [] && p[0].Key? && q[0].Index?
    ensures p[0].key + Tail(p[1..]) != Tail(q)
  {
    assert CleanStep(p[0]) && Tail(q)[0] == StepText(q[0])[0] == '[';
    hide Tail;
    assert (p[0].key + Tail(p[1..]))[0] == p[0].key[0];
  }

  /** Distinct clean paths have distinct renderings. */
  lemma RenderInjective(p: seq<PathStep>, q: seq<PathStep>)
    requires CleanPath(p) && CleanPath(q) && Render("", p) == Render("", q)
    ensures p == q
  {
    RenderFromRoot(p);
    RenderFromRoot(q);
    hide *;
    if p != [] && q != [] {
      if p[0].Key? && q[0].Key? {
        SameFirstKey(p, q);
      } else if p[0].Index? && q[0].Index? {
        TailInjective(p, q);
      } else if p[0].Key? {
        KeyIsNoIndex(p, q);
      } else {
        KeyIsNoIndex(q, p);
      }
    }
  }

  lemma RenderStepAtRoot(step: PathStep)
    ensures step.Key? ==> RenderStep("", step) == step.key
    ensures step.Index? ==> RenderStep("", step) == StepText(step)
  {
    if step.Index? {
      Associative("", "[", Text.Decimal(step.index));
      assert "" + "[" == "[";
    }
  }

  lemma RenderFromRoot(p: seq<PathStep>)
    requires CleanPath(p)
    ensures p == [] ==> Render("", p) == ""
    ensures p != [] ==> Render("", p) != ""
    ensures p != [] && p[0].Key? ==> Render("", p) == p[0].key + Tail(p[1..])
    ensures p != [] && p[0].Index? ==> Render("", p) == Tail(p) && Render("", p)[0] == '['
  {
    if p != [] {
      assert CleanStep(p[0]);
      RenderStepAtRoot(p[0]);
      assert p[0].Index? ==> StepText(p[0])[0] == '[';
      hide RenderStep;
      hide StepText;
      RenderBehindPrefix(RenderStep("", p[0]), p[1..]);
    }
  }

  // ----- what the record holds in the end

  ghost predicate WritesTo(ws: seq<(string, Value)>, i: int, key: string) {
    0 <= i < |ws| && ws[i].0 == key
  }

  /** Of an ordinary key the last write counts. */
  lemma {:induction false} OrdinaryKey(ws: seq<(string, Value)>, key: string)
    requires key != PROTO
    ensures key in WriteAll(EMPTY, ws).out <==> exists i :: WritesTo(ws, i, key)
    ensures key in WriteAll(EMPTY, ws).out ==>
      exists i :: WritesTo(ws, i, key) && ws[i].1 == WriteAll(EMPTY, ws).out[key]
  {
    if |ws| > 0 {
      var n := |ws| - 1;
      OrdinaryKey(ws[..n], key);
      forall i | WritesTo(ws, i, key) ensures i == n || WritesTo(ws[..n], i, key) { }
      if ws[n].0 == key {
        assert WritesTo(ws, n, key);
      } else if key in WriteAll(EMPTY, ws).out {
        var i :| WritesTo(ws[..n], i, key) && ws[..n][i].1 == WriteAll(EMPTY, ws).out[key];
        assert WritesTo(ws, i, key) && ws[i].1 == WriteAll(EMPTY, ws).out[key];
      }
    }
  }

  lemma {:induction false} BareAfterNull(ws: seq<(string, Value)>)
    ensures WriteAll(EMPTY, ws).bare <==> exists i :: WritesTo(ws, i, PROTO) && ws[i].1 == Null
  {
    if |ws| > 0 {
      var n := |ws| - 1;
      BareAfterNull(ws[..n]);
      if i :| WritesTo(ws[..n], i, PROTO) && ws[..n][i].1 == Null {
        assert WritesTo(ws, i, PROTO) && ws[i].1 == Null;
      } else if ws[n] == (PROTO, Null) {
        assert WritesTo(ws, n, PROTO) && ws[n].1 == Null;
      } else {
        forall i | WritesTo(ws, i, PROTO) ensures ws[i].1 != Null {
          if i < n { assert WritesTo(ws[..n], i, PROTO); }
        }
      }
    }
  }

  /** `__proto__` becomes an entry with a write that follows a null. */
  ghost predicate NullBefore(ws: seq<(string, Value)>, i: int, j: int) {
    WritesTo(ws, i, PROTO) && WritesTo(ws, j, PROTO) && i < j && ws[i].1 == Null
  }

  lemma {:induction false} ProtoKey(ws: seq<(string, Value)>)
    ensures PROTO in WriteAll(EMPTY, ws).out <==> exists i, j :: NullBefore(ws, i, j)
    ensures PROTO in WriteAll(EMPTY, ws).out ==>
      exists i, j :: NullBefore(ws, i, j) && ws[j].1 == WriteAll(EMPTY, ws).out[PROTO]
  {
    if |ws| > 0 {
      var n := |ws| - 1;
      ProtoKey(ws[..n]);
      BareAfterNull(ws[..n]);
      var before := WriteAll(EMPTY, ws[..n]);
      if ws[n].0 == PROTO && before.bare {
        var i :| WritesTo(ws[..n], i, PROTO) && ws[..n][i].1 == Null;
        assert NullBefore(ws, i, n);
      } else if PROTO in before.out {
        var i, j :| NullBefore(ws[..n], i, j) && ws[..n][j].1 == before.out[PROTO];
        assert NullBefore(ws, i, j);
      } else if i, j :| NullBefore(ws, i, j) {
        assert WritesTo(ws[..n], i, PROTO);
        if j < n { assert NullBefore(ws[..n], i, j); }
      }
    }
  }

  // ----- which leaves are lost

  /** Every kept leaf can be looked up under its rendered path. */
  ghost predicate Lossless(v: Value, options: Options, out: Fields) {
    forall p :: Kept(v, p, 0, options).Some? ==>
      Render("", p) in out && out[Render("", p)] == Kept(v, p, 0, options).value
  }

  /** Two kept leaves with different values whose paths render alike. */
  ghost predicate Clash(v: Value, options: Options, p: seq<PathStep>, q: seq<PathStep>) {
    && Kept(v, p, 0, options).Some? && Kept(v, q, 0, options).Some?
    && Render("", p) == Render("", q) && Kept(v, p, 0, options) != Kept(v, q, 0, options)
  }

  ghost predicate KeptAtProto(v: Value, options: Options, p: seq<PathStep>) {
    Kept(v, p, 0, options).Some? && Render("", p) == PROTO
  }

  /** The leaf goes to the accessor of the prototype and is not written a second time. */
  ghost predicate LostToProto(v: Value, options: Options, p: seq<PathStep>) {
    && KeptAtProto(v, options, p)
    && !(Kept(v, p, 0, options) == Some(Null) && exists q :: q != p && KeptAtProto(v, options, q))
  }

  lemma WriteOf(v: Value, options: Options, ps: seq<seq<PathStep>>, p: seq<PathStep>) returns (i: nat)
    requires Lists(v, 0, options, ps) && Kept(v, p, 0, options).Some?
    ensures i < |ps| && ps[i] == p
    ensures Writes(v, "", 0, options, ps)[i] == (Render("", p), Kept(v, p, 0, options).value)
  {
    i :| 0 <= i < |ps| && ps[i] == p;
  }

  /** Leaves are lost exactly if two with different values have paths that render alike or if a path renders to
      `__proto__`, unless nulls are written there twice. Every entry is a kept leaf. */
  lemma LosslessWithoutClash(v: Value, options: Options, ps: seq<seq<PathStep>>)
    requires Lists(v, 0, options, ps)
    ensures Lossless(v, options, Flattened(v, options, ps))
       <==> (forall p, q :: !Clash(v, options, p, q)) && (forall p :: !LostToProto(v, options, p))
    ensures forall key :: key in Flattened(v, options, ps) ==> IsLeaf(v, options, key, Flattened(v, options, ps)[key])
  {
    var out := Flattened(v, options, ps);
    forall key | key in out ensures IsLeaf(v, options, key, out[key]) { EntryIsLeaf(v, options, ps, key); }
    if Lossless(v, options, out) {
      forall p ensures !LostToProto(v, options, p) { NotLostToProto(v, options, ps, p); }
      hide *;
      forall p, q ensures !Clash(v, options, p, q) { LosslessNoClash(v, options, out, p, q); }
    } else {
      hide Kept;
      hide Render;
      var p :| Kept(v, p, 0, options).Some?
        && !(Render("", p) in out && out[Render("", p)] == Kept(v, p, 0, options).value);
      hide Flattened;
      var clash, q := WhyLost(v, options, ps, p);
      assert if clash then Clash(v, options, p, q) else LostToProto(v, options, p);
    }
  }

  ghost predicate IsLeaf(v: Value, options: Options, key: string, value: Value) {
    exists p :: Kept(v, p, 0, options) == Some(value) && Render("", p) == key
  }

  lemma LosslessNoClash(v: Value, options: Options, out: Fields, p: seq<PathStep>, q: seq<PathStep>)
    requires Lossless(v, options, out)
    ensures !Clash(v, options, p, q)
  {
    hide Kept;
    hide Render;
  }

  lemma EntryIsLeaf(v: Value, options: Options, ps: seq<seq<PathStep>>, key: string)
    requires Lists(v, 0, options, ps) && key in Flattened(v, options, ps)
    ensures IsLeaf(v, options, key, Flattened(v, options, ps)[key])
  {
    var ws := Writes(v, "", 0, options, ps);
    SomeWrite(ws, key);
    hide Kept;
    hide Render;
    hide WriteAll;
    var i :| WritesTo(ws, i, key) && ws[i].1 == Flattened(v, options, ps)[key];
    assert Kept(v, ps[i], 0, options) == Some(Flattened(v, options, ps)[key]) && Render("", ps[i]) == key;
  }

  lemma SomeWrite(ws: seq<(string, Value)>, key: string)
    requires key in WriteAll(EMPTY, ws).out
    ensures exists i :: WritesTo(ws, i, key) && ws[i].1 == WriteAll(EMPTY, ws).out[key]
  {
    hide WriteAll;
    if key == PROTO {
      ProtoKey(ws);
      var i, j :| NullBefore(ws, i, j) && ws[j].1 == WriteAll(EMPTY, ws).out[PROTO];
      assert WritesTo(ws, j, key) && ws[j].1 == WriteAll(EMPTY, ws).out[key];
    } else {
      OrdinaryKey(ws, key);
    }
  }

  lemma NotLostToProto(v: Value, options: Options, ps: seq<seq<PathStep>>, p: seq<PathStep>)
    requires Lists(v, 0, options, ps) && Lossless(v, options, Flattened(v, options, ps))
    ensures !LostToProto(v, options, p)
  {
    if KeptAtProto(v, options, p) {
      var ws, out := Writes(v, "", 0, options, ps), Flattened(v, options, ps);
      ProtoKey(ws);
      hide Kept;
      hide Render;
      hide WriteAll;
      assert PROTO in out;
      var i, j :| NullBefore(ws, i, j);
      assert KeptAtProto(v, options, ps[i]) && KeptAtProto(v, options, ps[j]) && ps[i] != ps[j];
      assert Kept(v, ps[i], 0, options) == Some(Null) && Kept(v, p, 0, options) == Some(out[PROTO]);
      assert out[PROTO] == Kept(v, ps[i], 0, options).value;
      var q := if ps[i] == p then ps[j] else ps[i];
      assert q != p && KeptAtProto(v, options, q);
    }
  }

  /** A leaf that cannot be looked up clashes with another one or is lost to the prototype. */
  lemma WhyLost(v: Value, options: Options, ps: seq<seq<PathStep>>, p: seq<PathStep>)
    returns (clash: bool, q: seq<PathStep>)
    requires Lists(v, 0, options, ps) && Kept(v, p, 0, options).Some?
    requires var out := Flattened(v, options, ps);
      !(Render("", p) in out && out[Render("", p)] == Kept(v, p, 0, options).value)
    ensures if clash then Clash(v, options, p, q) else LostToProto(v, options, p)
  {
    var ws, out, key := Writes(v, "", 0, options, ps), Flattened(v, options, ps), Render("", p);
    var k := WriteOf(v, options, ps, p);
    assert WritesTo(ws, k, key);
    clash, q := false, p;
    if key in out {
      EntryIsLeaf(v, options, ps, key);
      clash := true;
      q :| Kept(v, q, 0, options) == Some(out[key]) && Render("", q) == key;
    } else if key != PROTO {
      OrdinaryKey(ws, key);
      assert false;
    } else if Kept(v, p, 0, options) == Some(Null) {
      clash, q := NullAtProto(v, options, ps, p);
    }
  }

  lemma NullAtProto(v: Value, options: Options, ps: seq<seq<PathStep>>, p: seq<PathStep>)
    returns (clash: bool, q: seq<PathStep>)
    requires Lists(v, 0, options, ps) && PROTO !in Flattened(v, options, ps)
    requires KeptAtProto(v, options, p) && Kept(v, p, 0, options) == Some(Null)
    ensures if clash then Clash(v, options, p, q) else LostToProto(v, options, p)
  {
    clash, q := false, p;
    hide Kept;
    hide Render;
    if r :| r != p && KeptAtProto(v, options, r) {
      NoSecondNull(v, options, ps, p, r);
      clash, q := true, r;
    }
  }

  lemma NoSecondNull(v: Value, options: Options, ps: seq<seq<PathStep>>, p: seq<PathStep>, r: seq<PathStep>)
    requires Lists(v, 0, options, ps) && PROTO !in Flattened(v, options, ps)
    requires r != p && KeptAtProto(v, options, p) && KeptAtProto(v, options, r)
    requires Kept(v, p, 0, options) == Some(Null)
    ensures Kept(v, r, 0, options) != Some(Null)
  {
    var ws := Writes(v, "", 0, options, ps);
    var k := WriteOf(v, options, ps, p);
    var l := WriteOf(v, options, ps, r);
    assert ws[k] == (PROTO, Null) && ws[l].0 == PROTO && k != l;
    assert PROTO !in WriteAll(EMPTY, ws).out;
    assert ws[l] == (PROTO, Kept(v, r, 0, options).value);
    hide *;
    if ws[l].1 == Null { TwoNulls(ws, k, l); }
  }

  lemma TwoNulls(ws: seq<(string, Value)>, k: nat, l: nat)
    requires k < |ws| && l < |ws| && k != l && ws[k] == ws[l] == (PROTO, Null)
    ensures PROTO in WriteAll(EMPTY, ws).out
  {
    ProtoKey(ws);
    hide WriteAll;
    assert if k < l then NullBefore(ws, k, l) else NullBefore(ws, l, k);
  }

  /** For values with clean keys nothing is lost but a leaf at the key `__proto__` of the root: every other kept leaf
      can be looked up under its rendered path, every entry is such a leaf, and no two leaves share an entry. */
  lemma FlatteningIsLossless(v: Value, options: Options, ps: seq<seq<PathStep>>)
    requires CleanKeys(v) && Lists(v, 0, options, ps)
    ensures Lossless(v, options, Flattened(v, options, ps)) <==> Kept(v, [Key(PROTO)], 0, options).None?
    ensures forall p :: Kept(v, p, 0, options).Some? && p != [Key(PROTO)] ==>
      var out := Flattened(v, options, ps);
      Render("", p) in out && out[Render("", p)] == Kept(v, p, 0, options).value
    ensures forall key :: key in Flattened(v, options, ps) ==> IsLeaf(v, options, key, Flattened(v, options, ps)[key])
    ensures forall p, q :: Kept(v, p, 0, options).Some? && Kept(v, q, 0, options).Some? && p != q ==>
      Render("", p) != Render("", q)
  {
    forall p, q | Kept(v, p, 0, options).Some? && Kept(v, q, 0, options).Some? && p != q
      ensures Render("", p) != Render("", q)
    {
      KeptPathsAreClean(v, p, 0, options);
      KeptPathsAreClean(v, q, 0, options);
      if Render("", p) == Render("", q) { RenderInjective(p, q); }
    }
    forall p | Kept(v, p, 0, options).Some? ensures LostToProto(v, options, p) <==> p == [Key(PROTO)] {
      KeptPathsAreClean(v, p, 0, options);
      ProtoPath();
      if Render("", p) == PROTO { RenderInjective(p, [Key(PROTO)]); }
    }
    LosslessWithoutClash(v, options, ps);
    hide Kept;
    hide Render;
    hide CleanKeys;
    hide Flattened;
    forall p | Kept(v, p, 0, options).Some? && p != [Key(PROTO)]
      ensures var out := Flattened(v, options, ps);
        Render("", p) in out && out[Render("", p)] == Kept(v, p, 0, options).value
    {
      if !(Render("", p) in Flattened(v, options, ps)
           && Flattened(v, options, ps)[Render("", p)] == Kept(v, p, 0, options).value) {
        var clash, q := WhyLost(v, options, ps, p);
        assert false;
      }
    }
  }

  lemma ProtoPath()
    ensures Render("", [Key(PROTO)]) == PROTO && CleanPath([Key(PROTO)])
  {
    assert [Key(PROTO)][1..] == [];
    assert RenderStep("", Key(PROTO)) == PROTO;
  }

  /** The key `__proto__` makes a value lose a leaf. */
  lemma ProtoKeyLosesLeaf(options: Options, ps: seq<seq<PathStep>>)
    requires options.maxDepth >= 1 && Lists(Record(map[PROTO := Bool(true), "a" := Null]), 0, options, ps)
    ensures !Lossless(Record(map[PROTO := Bool(true), "a" := Null]), options,
                      Flattened(Record(map[PROTO := Bool(true), "a" := Null]), options, ps))
  {
    var v := Record(map[PROTO := Bool(true), "a" := Null]);
    assert PROTO in v.fields && v.fields[PROTO] == Bool(true) && v.fields["a"] == Null;
    assert [Key(PROTO)][1..] == [];
    assert Kept(v, [Key(PROTO)], 0, options) == Some(Bool(true));
    FlatteningIsLossless(v, options, ps);
  }

  // ----- which leaves are kept

  /** The leaves of a value without any limit on the depth. */
  function Leaf(v: Value, path: seq<PathStep>, includeArrays: bool): Option<Value>
    decreases |path|
  {
    match v
    case Record(fields) =>
      if |fields| == 0 then (if path == [] then Some(v) else None)
      else if path != [] && path[0].Key? && path[0].key in fields
        then Leaf(fields[path[0].key], path[1..], includeArrays)
      else None
    case List(items) =>
      if !includeArrays then
        (if path == [] then Some(Text("[array:" + Text.Decimal(|items|) + "]")) else None)
      else if path != [] && path[0].Index? && path[0].index < |items| then
        Leaf(items[path[0].index], path[1..], includeArrays)
      else None
    case _ => if path == [] then Some(v) else None
  }

  /** The kept leaves are exactly those whose paths are no longer than the depth limit. */
  lemma {:induction false} KeptLeavesFitDepth(v: Value, p: seq<PathStep>, depth: nat, options: Options)
    ensures Kept(v, p, depth, options)
         == if depth + |p| <= options.maxDepth then Leaf(v, p, options.includeArrays) else None
    decreases |p|
  {
    if p != [] && depth <= options.maxDepth {
      match v {
        case Record(fields) =>
          if p[0].Key? && p[0].key in fields { KeptLeavesFitDepth(fields[p[0].key], p[1..], depth + 1, options); }
        case List(items) =>
          if p[0].Index? && p[0].index < |items| { KeptLeavesFitDepth(items[p[0].index], p[1..], depth + 1, options); }
        case _ =>
      }
    }
  }

  const DOTTED := Record(map["a.b" := Null, "a" := Record(map["b" := Bool(true)])])

  /** Keys with dots make a value lose a leaf, whatever the options. */
  lemma DottedKeysLoseLeaf(options: Options, ps: seq<seq<PathStep>>)
    requires options.maxDepth >= 2 && Lists(DOTTED, 0, options, ps)
    ensures !Lossless(DOTTED, options, Flattened(DOTTED, options, ps))
  {
    var p, q := [Key("a.b")], [Key("a"), Key("b")];
    DottedKeysCollide();
    var inner := Record(map["b" := Bool(true)]);
    assert DOTTED.fields["a"] == inner && "a.b" in DOTTED.fields && "b" in inner.fields;
    assert p[1..] == [] && q[1..] == [Key("b")] && [Key("b")][1..] == [];
    assert Kept(inner, [Key("b")], 1, options) == Some(Bool(true));
    assert Kept(DOTTED, q, 0, options) == Some(Bool(true));
    assert Kept(DOTTED, p, 0, options) == Some(Null);
    assert Clash(DOTTED, options, p, q);
    LosslessWithoutClash(DOTTED, options, ps);
  }

  /** Keys with dots can make two leaves share an entry. */
  lemma DottedKeysCollide()
    ensures Render("", [Key("a.b")]) == Render("", [Key("a"), Key("b")])
  {
    var p := [Key("a"), Key("b")];
    assert p[1..] == [Key("b")] && [Key("b")][1..] == [];
    assert RenderStep("", Key("a")) == "a";
    assert RenderStep("a", Key("b")) == "a.b";
    assert Render("a", [Key("b")]) == "a.b";
    assert [Key("a.b")][1..] == [];
  }
}
