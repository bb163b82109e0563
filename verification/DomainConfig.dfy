/** Configuration records: the recursive merge, the fold over stored rows and the second merge in the worker. */
module DomainConfig {
  import opened Values
  import opened Sequences

  // ----- the merge

  /** Records are merged key by key; anything else in the overlay replaces what the base holds. */
  function Merge(base: Value, overlay: Value): (r: Value)
    requires base.Record? && overlay.Record?
    ensures r.Record?
    decreases overlay
  {
    Record(map k | k in base.fields.Keys + overlay.fields.Keys :: MergedAt(base, overlay, k))
  }

  function MergedAt(base: Value, overlay: Value, k: string): Value
    requires base.Record? && overlay.Record? && (k in base.fields || k in overlay.fields)
    decreases overlay, 0
  {
    if k !in overlay.fields then base.fields[k]
    else if k in base.fields && base.fields[k].Record? && overlay.fields[k].Record? then
      Merge(base.fields[k], overlay.fields[k])
    else overlay.fields[k]
  }

  /** The loop over the overlay's entries, in any order. */
  method DeepMerge(base: Fields, overlay: Fields) returns (out: Fields)
    ensures Record(out) == Merge(Record(base), Record(overlay))
    decreases Record(overlay)
  {
    out := base;
    var entries := overlay.Keys;
    while entries != {}
      invariant entries <= overlay.Keys
      invariant out.Keys == base.Keys + (overlay.Keys - entries)
      invariant forall k :: k in out ==>
        out[k] == if k in entries then base[k] else MergedAt(Record(base), Record(overlay), k)
    {
      var key :| key in entries;
      var overlayValue := overlay[key];
      if key in out && out[key].Record? && overlayValue.Record? {
        assert overlayValue == Record(overlay).fields[key];
        var merged := DeepMerge(out[key].fields, overlayValue.fields);
        out := out[key := Record(merged)];
      } else {
        out := out[key := overlayValue];
      }
      entries := entries - {key};
    }
  }

  // ----- what a merge contains

  function Lookup(v: Value, path: seq<string>): Option<Value>
    decreases |path|
  {
    if path == [] then Some(v)
    else if !v.Record? || path[0] !in v.fields then None
    else Lookup(v.fields[path[0]], path[1..])
  }

  /** On the way along `path`, `v` holds something that is not a record before the path ends. */
  predicate Blocks(v: Value, path: seq<string>)
    decreases |path|
  {
    path != [] && (!v.Record? || (path[0] in v.fields && Blocks(v.fields[path[0]], path[1..])))
  }

  /** The leaves of a merge, at every path: those of the overlay, and those of the base that the overlay neither
      replaces nor blocks. */
  lemma {:induction false} MergedLeaves(a: Value, b: Value, path: seq<string>, leaf: Value)
    requires a.Record? && b.Record? && !leaf.Record?
    ensures Lookup(Merge(a, b), path) == Some(leaf) <==>
      || Lookup(b, path) == Some(leaf)
      || (Lookup(b, path).None? && !Blocks(b, path) && Lookup(a, path) == Some(leaf))
    decreases |path|
  {
    if path != [] && path[0] in a.fields && path[0] in b.fields {
      var x, y := a.fields[path[0]], b.fields[path[0]];
      if x.Record? && y.Record? { MergedLeaves(x, y, path[1..], leaf); }
      else if y.Record? { LeafBelowLeaf(x, path[1..], leaf, y); }
    }
  }

  lemma LeafBelowLeaf(x: Value, path: seq<string>, leaf: Value, y: Value)
    requires !x.Record? && y.Record?
    ensures Lookup(x, path) == Some(leaf) ==> path == []
  {
  }

  // ----- absorption

  /** Merging `x` under `y` changes nothing. */
  ghost predicate Absorbed(x: Value, y: Value)
    requires x.Record? && y.Record?
    decreases y
  {
    forall k :: k in x.fields ==>
      k in y.fields && (x.fields[k].Record? && y.fields[k].Record? ==> Absorbed(x.fields[k], y.fields[k]))
  }

  lemma {:induction false} AbsorbedMeansUnchanged(x: Value, y: Value)
    requires x.Record? && y.Record?
    ensures Merge(x, y) == y <==> Absorbed(x, y)
    decreases y
  {
    forall k | k in x.fields && k in y.fields && x.fields[k].Record? && y.fields[k].Record?
      ensures Merge(x.fields[k], y.fields[k]) == y.fields[k] <==> Absorbed(x.fields[k], y.fields[k])
    {
      AbsorbedMeansUnchanged(x.fields[k], y.fields[k]);
    }
    if Absorbed(x, y) {
      assert Merge(x, y).fields == y.fields;
    } else if Merge(x, y) == y {
      forall k | k in x.fields
        ensures k in y.fields && (x.fields[k].Record? && y.fields[k].Record? ==> Absorbed(x.fields[k], y.fields[k]))
      {
        assert k in Merge(x, y).fields;
      }
    }
  }

  /** `a + (a + b) = a + b`, whatever the records hold. */
  lemma {:induction false} MergeAbsorbs(a: Value, b: Value)
    requires a.Record? && b.Record?
    ensures Merge(a, Merge(a, b)) == Merge(a, b)
    decreases b
  {
    forall k | k in a.fields && k in b.fields && a.fields[k].Record? && b.fields[k].Record?
      ensures Merge(a.fields[k], Merge(a.fields[k], b.fields[k])) == Merge(a.fields[k], b.fields[k])
    {
      MergeAbsorbs(a.fields[k], b.fields[k]);
    }
    forall k | k in a.fields && k !in b.fields && a.fields[k].Record?
      ensures Merge(a.fields[k], a.fields[k]) == a.fields[k]
    {
      MergeIdempotent(a.fields[k]);
    }
    assert Merge(a, Merge(a, b)).fields == Merge(a, b).fields;
  }

  lemma {:induction false} MergeIdempotent(a: Value)
    requires a.Record?
    ensures Merge(a, a) == a
    decreases a
  {
    forall k | k in a.fields && a.fields[k].Record? ensures Merge(a.fields[k], a.fields[k]) == a.fields[k] {
      MergeIdempotent(a.fields[k]);
    }
    assert Merge(a, a).fields == a.fields;
  }

  // ----- associativity

  /** Where `b` replaces a record of `a` by something else and `c` brings a record again, `c` must already contain
      what `a` held there; elsewhere nothing is asked. */
  ghost predicate Associates(a: Value, b: Value, c: Value)
    requires a.Record? && b.Record? && c.Record?
    decreases c
  {
    forall k :: k in a.fields ==> AssociatesAt(a, b, c, k)
  }

  /** Merging is associative exactly under this condition. */
  lemma {:induction false} MergeAssociative(a: Value, b: Value, c: Value)
    requires a.Record? && b.Record? && c.Record?
    ensures Merge(Merge(a, b), c) == Merge(a, Merge(b, c)) <==> Associates(a, b, c)
    decreases c
  {
    var left, right := Merge(Merge(a, b), c), Merge(a, Merge(b, c));
    forall k | k in left.fields
      ensures k in right.fields && (left.fields[k] == right.fields[k] <==> AssociatesAt(a, b, c, k)) {
      AssociativeAt(a, b, c, k);
    }
    assert left.fields.Keys == right.fields.Keys;
    if Associates(a, b, c) {
      forall k | k in left.fields ensures AssociatesAt(a, b, c, k) { }
      assert left.fields == right.fields;
    } else {
      var k :| k in a.fields && !AssociatesAt(a, b, c, k);
      assert k in left.fields;
    }
  }

  ghost predicate AssociatesAt(a: Value, b: Value, c: Value, k: string)
    requires a.Record? && b.Record? && c.Record?
    decreases c, 0
  {
    k in a.fields && k in b.fields && k in c.fields && a.fields[k].Record? && c.fields[k].Record? ==>
      if b.fields[k].Record? then Associates(a.fields[k], b.fields[k], c.fields[k])
      else Absorbed(a.fields[k], c.fields[k])
  }

  lemma {:induction false} AssociativeAt(a: Value, b: Value, c: Value, k: string)
    requires a.Record? && b.Record? && c.Record?
    requires k in a.fields || k in b.fields || k in c.fields
    ensures Merge(Merge(a, b), c).fields[k] == Merge(a, Merge(b, c)).fields[k] <==> AssociatesAt(a, b, c, k)
    decreases c, 0
  {
    if k in a.fields && k in b.fields && k in c.fields && a.fields[k].Record? && c.fields[k].Record? {
      if b.fields[k].Record? {
        MergeAssociative(a.fields[k], b.fields[k], c.fields[k]);
      } else {
        AbsorbedMeansUnchanged(a.fields[k], c.fields[k]);
      }
    }
  }

  /** The three records agree on which keys hold records. */
  ghost predicate AgreeOnRecords(a: Value, b: Value, c: Value)
    requires a.Record? && b.Record? && c.Record?
    decreases c
  {
    forall k :: k in a.fields && k in b.fields && k in c.fields ==>
      && (a.fields[k].Record? <==> b.fields[k].Record?) && (b.fields[k].Record? <==> c.fields[k].Record?)
      && (c.fields[k].Record? && b.fields[k].Record? && a.fields[k].Record? ==>
           AgreeOnRecords(a.fields[k], b.fields[k], c.fields[k]))
  }

  lemma {:induction false} AgreementAssociates(a: Value, b: Value, c: Value)
    requires a.Record? && b.Record? && c.Record? && AgreeOnRecords(a, b, c)
    ensures Merge(Merge(a, b), c) == Merge(a, Merge(b, c))
    decreases c
  {
    forall k | k in a.fields ensures AssociatesAt(a, b, c, k) {
      if k in b.fields && k in c.fields && a.fields[k].Record? && c.fields[k].Record? {
        AgreementAssociates(a.fields[k], b.fields[k], c.fields[k]);
        MergeAssociative(a.fields[k], b.fields[k], c.fields[k]);
      }
    }
    MergeAssociative(a, b, c);
  }

  /** Without agreement the order of merging can matter. */
  lemma MergeIsNotAssociative()
    ensures var a, b, c := Record(map["k" := Record(map["x" := Null])]), Record(map["k" := Null]),
                           Record(map["k" := Record(map["y" := Null])]);
      Merge(Merge(a, b), c) != Merge(a, Merge(b, c))
  {
    var inner, other := Record(map["x" := Null]), Record(map["y" := Null]);
    var a, b, c := Record(map["k" := inner]), Record(map["k" := Null]), Record(map["k" := other]);
    assert "x" in inner.fields && "x" !in other.fields;
    assert !Absorbed(inner, other);
    assert "k" in a.fields && !AssociatesAt(a, b, c, "k");
    MergeAssociative(a, b, c);
  }

  // ----- stored rows

  /** A stored configuration row; `forUser` and `forWorkflow` tell whether it names a user and a workflow. */
  datatype Row = Row(domain: string, forUser: bool, forWorkflow: bool, config: Value)

  function SpecificityScore(row: Row): nat {
    (if row.forUser then 1 else 0) + (if row.forWorkflow then 2 else 0)
  }

  function ToRecord(v: Value): (r: Value)
    ensures r.Record?
  {
    if v.Record? then v else Record(map[])
  }

  function InsertRow(sorted: seq<Row>, row: Row): seq<Row> {
    if |sorted| == 0 || SpecificityScore(sorted[|sorted| - 1]) <= SpecificityScore(row) then sorted + [row]
    else InsertRow(sorted[..|sorted| - 1], row) + [sorted[|sorted| - 1]]
  }

  /** The stable sort by specificity. */
  function SortRows(rows: seq<Row>): seq<Row> {
    if |rows| == 0 then [] else InsertRow(SortRows(rows[..|rows| - 1]), rows[|rows| - 1])
  }

  function FoldRows(rows: seq<Row>): (r: Value)
    ensures r.Record?
  {
    if |rows| == 0 then Record(map[])
    else Merge(FoldRows(rows[..|rows| - 1]), ToRecord(rows[|rows| - 1].config))
  }

  /** Active rows in scope, merged with the least specific first. */
  function Resolve(rows: seq<Row>): (r: Value)
    ensures r.Record?
  {
    FoldRows(SortRows(rows))
  }

  const DEFAULT_DOMAIN := "default"

  function DefaultRows(rows: seq<Row>): seq<Row> {
    if |rows| == 0 then []
    else
      var before, row := DefaultRows(rows[..|rows| - 1]), rows[|rows| - 1];
      if row.domain == DEFAULT_DOMAIN then before + [row] else before
  }

  /** What is queued: the rows of the default domain, with the profile of the run on top if there is one. */
  function Queued(rows: seq<Row>, profile: Option<Value>): (r: Value)
    ensures r.Record?
  {
    var resolved := Resolve(DefaultRows(rows));
    if profile.Some? then Merge(resolved, ToRecord(profile.value)) else resolved
  }

  /** The worker reads the rows once more, those of every domain, and merges the queued configuration over them. */
  function WorkerConfig(rows: seq<Row>, queued: Value): (r: Value)
    ensures r.Record?
  {
    Merge(Resolve(rows), ToRecord(queued))
  }

  /** The worker's merge leaves the queued configuration as it is exactly if it already holds, at every level, the
      keys of all the rows that the worker reads. */
  lemma SecondMergeChangesNothing(rows: seq<Row>, profile: Option<Value>, read: seq<Row>)
    ensures WorkerConfig(read, Queued(rows, profile)) == Queued(rows, profile)
       <==> Absorbed(Resolve(read), Queued(rows, profile))
  {
    AbsorbedMeansUnchanged(Resolve(read), Queued(rows, profile));
  }

  /** So it does when the rows are unchanged and all of the default domain, if the database returns them in the same
      order again or if that order does not matter. */
  lemma DefaultRowsChangeNothing(rows: seq<Row>, profile: Option<Value>, read: seq<Row>)
    requires forall i :: 0 <= i < |rows| ==> rows[i].domain == DEFAULT_DOMAIN
    requires read == rows || (multiset(read) == multiset(rows) && RulersAgree(multiset(rows)))
    ensures WorkerConfig(read, Queued(rows, profile)) == Queued(rows, profile)
  {
    AllDefault(rows);
    ResolveIgnoresRowOrder(rows);
    assert Resolve(read) == Resolve(rows);
    if profile.Some? {
      MergeAbsorbs(Resolve(rows), ToRecord(profile.value));
    } else {
      MergeIdempotent(Resolve(rows));
    }
  }

  lemma {:induction false} AllDefault(rows: seq<Row>)
    requires forall i :: 0 <= i < |rows| ==> rows[i].domain == DEFAULT_DOMAIN
    ensures DefaultRows(rows) == rows
  {
    if |rows| > 0 {
      var init, last := rows[..|rows| - 1], rows[|rows| - 1];
      assert rows == init + [last];
      AllDefault(init);
    }
  }

  /** A row of another domain that holds a key of its own gets into the worker's configuration although it was not
      queued. */
  lemma {:induction false} ForeignRowChangesConfig(rows: seq<Row>, profile: Option<Value>, i: nat, k: string)
    requires i < |rows| && k in ToRecord(rows[i].config).fields && k !in Queued(rows, profile).fields
    ensures k in WorkerConfig(rows, Queued(rows, profile)).fields
  {
    SortKeepsRows(rows);
    assert rows[i] in multiset(rows) && rows[i] in SortRows(rows);
    FoldKeepsKeys(SortRows(rows), rows[i], k);
  }

  lemma {:induction false} FoldKeepsKeys(rows: seq<Row>, row: Row, k: string)
    requires row in rows && k in ToRecord(row.config).fields
    ensures k in FoldRows(rows).fields
  {
    var init, last := rows[..|rows| - 1], rows[|rows| - 1];
    assert rows == init + [last];
    if row != last { FoldKeepsKeys(init, row, k); }
  }

  /** Two rows of one user, one of them of another domain: the rows stay as they are, the configuration does not. */
  lemma ForeignRowExample()
    ensures var rows := [Row(DEFAULT_DOMAIN, true, false, Record(map["a" := Null])),
                         Row("legal", true, false, Record(map["b" := Null]))];
      WorkerConfig(rows, Queued(rows, None)) != Queued(rows, None)
  {
    var d, o := Row(DEFAULT_DOMAIN, true, false, Record(map["a" := Null])),
                Row("legal", true, false, Record(map["b" := Null]));
    assert [d, o][..1] == [d] && DefaultRows([d]) == [d];
    assert SortRows([d]) == [d];
    FoldOfOne(d);
    assert "b" !in ToRecord(d.config).fields;
    ForeignRowChangesConfig([d, o], None, 1, "b");
  }

  lemma FoldOfOne(r: Row)
    ensures FoldRows([r]) == ToRecord(r.config)
  {
    assert [r][..0] == [];
    assert Merge(Record(map[]), ToRecord(r.config)).fields == ToRecord(r.config).fields;
  }

  // ----- the order in which the database returns the rows

  /** What stands at `path`: a leaf, a record (its fields are seen by longer paths) or nothing. */
  function At(v: Value, path: seq<string>): Option<Value> {
    var found := Lookup(v, path);
    if found.Some? && found.value.Record? then Some(Record(map[])) else found
  }

  /** Merged over others, `v` decides what stands at `path`. */
  predicate Decides(v: Value, path: seq<string>) {
    Lookup(v, path).Some? || Blocks(v, path)
  }

  lemma {:induction false} MergedAtPath(a: Value, b: Value, path: seq<string>)
    requires a.Record? && b.Record?
    ensures At(Merge(a, b), path) == if Decides(b, path) then At(b, path) else At(a, path)
    decreases |path|
  {
    if path != [] && path[0] in a.fields && path[0] in b.fields {
      var x, y, rest := a.fields[path[0]], b.fields[path[0]], path[1..];
      if x.Record? && y.Record? {
        MergedAtPath(x, y, rest);
      } else {
        assert Merge(a, b).fields[path[0]] == y;
        assert Lookup(a, path) == Lookup(x, rest) && Lookup(b, path) == Lookup(y, rest);
        assert Lookup(Merge(a, b), path) == Lookup(y, rest);
        assert !x.Record? && rest != [] ==> Lookup(x, rest) == None;
        assert !y.Record? && rest != [] ==> Blocks(y, rest);
      }
    }
  }

  /** Records with the same things at every path are the same. */
  lemma {:induction false} SameAtEveryPath(x: Value, y: Value)
    requires x.Record? && y.Record? && forall path :: At(x, path) == At(y, path)
    ensures x == y
    decreases x
  {
    forall k ensures k in x.fields <==> k in y.fields {
      AtKey(x, k, []);
      AtKey(y, k, []);
      assert At(x, [k] + []) == At(y, [k] + []);
    }
    forall k | k in x.fields ensures x.fields[k] == y.fields[k] {
      SameAtKey(x, y, k);
      if x.fields[k].Record? { SameAtEveryPath(x.fields[k], y.fields[k]); }
    }
    assert x.fields == y.fields;
  }

  lemma SameAtKey(x: Value, y: Value, k: string)
    requires x.Record? && y.Record? && k in x.fields && k in y.fields && forall path :: At(x, path) == At(y, path)
    ensures x.fields[k].Record? <==> y.fields[k].Record?
    ensures !x.fields[k].Record? ==> x.fields[k] == y.fields[k]
    ensures forall path :: At(x.fields[k], path) == At(y.fields[k], path)
  {
    forall path ensures At(x.fields[k], path) == At(y.fields[k], path) {
      AtKey(x, k, path);
      AtKey(y, k, path);
      assert At(x, [k] + path) == At(y, [k] + path);
    }
    assert At(x.fields[k], []) == At(y.fields[k], []);
  }

  lemma AtKey(v: Value, k: string, path: seq<string>)
    requires v.Record?
    ensures At(v, [k] + path) == if k in v.fields then At(v.fields[k], path) else None
  {
    assert ([k] + path)[1..] == path;
  }

  // ----- the row that rules

  /** What the row says, for the fold. */
  predicate RowDecides(row: Row, path: seq<string>) {
    Decides(ToRecord(row.config), path)
  }

  function RowAt(row: Row, path: seq<string>): Option<Value> {
    At(ToRecord(row.config), path)
  }

  lemma FoldOneMore(rows: seq<Row>, path: seq<string>)
    requires |rows| > 0
    ensures var init, last := rows[..|rows| - 1], rows[|rows| - 1];
      At(FoldRows(rows), path) == if RowDecides(last, path) then RowAt(last, path) else At(FoldRows(init), path)
  {
    MergedAtPath(FoldRows(rows[..|rows| - 1]), ToRecord(rows[|rows| - 1].config), path);
    hide Merge;
    hide At;
    hide Decides;
  }

  /** The last row that decides makes the fold; if none does, nothing stands there. */
  lemma {:induction false} FoldAtPath(rows: seq<Row>, path: seq<string>, i: int)
    requires -1 <= i < |rows| && forall j :: i < j < |rows| ==> !RowDecides(rows[j], path)
    requires i >= 0 ==> RowDecides(rows[i], path)
    ensures At(FoldRows(rows), path) == if i >= 0 then RowAt(rows[i], path) else At(Record(map[]), path)
  {
    hide At;
    hide RowDecides;
    hide RowAt;
    if |rows| > 0 {
      FoldOneMore(rows, path);
      if i < |rows| - 1 {
        assert !RowDecides(rows[|rows| - 1], path);
        FoldAtPath(rows[..|rows| - 1], path, i);
      }
    }
  }

  lemma {:induction false} LastDecider(rows: seq<Row>, path: seq<string>) returns (i: int)
    ensures -1 <= i < |rows| && forall j :: i < j < |rows| ==> !RowDecides(rows[j], path)
    ensures i >= 0 ==> RowDecides(rows[i], path)
  {
    hide RowDecides;
    if |rows| == 0 {
      i := -1;
    } else if RowDecides(rows[|rows| - 1], path) {
      i := |rows| - 1;
    } else {
      i := LastDecider(rows[..|rows| - 1], path);
    }
  }

  ghost predicate Sorted(rows: seq<Row>) {
    forall i, j :: 0 <= i < j < |rows| ==> SpecificityScore(rows[i]) <= SpecificityScore(rows[j])
  }

  /** The row decides what stands at `path`, and no more specific one does. */
  ghost predicate Rules(rows: multiset<Row>, row: Row, path: seq<string>) {
    && row in rows && RowDecides(row, path)
    && forall t :: t in rows && RowDecides(t, path) ==> SpecificityScore(t) <= SpecificityScore(row)
  }

  /** At every path the rows that rule there say the same; what less specific rows say there does not matter. */
  ghost predicate RulersAgree(rows: multiset<Row>) {
    forall r, s, path :: Rules(rows, r, path) && Rules(rows, s, path) ==> RowAt(r, path) == RowAt(s, path)
  }

  ghost predicate OneRowPerScope(rows: seq<Row>) {
    forall i, j :: 0 <= i < j < |rows| ==> SpecificityScore(rows[i]) != SpecificityScore(rows[j])
  }

  lemma OneRowRules(rows: seq<Row>)
    requires OneRowPerScope(rows)
    ensures RulersAgree(multiset(rows))
  {
    hide SpecificityScore;
    hide RowDecides;
    hide RowAt;
    forall r, s, path | Rules(multiset(rows), r, path) && Rules(multiset(rows), s, path) ensures r == s {
      var i :| 0 <= i < |rows| && rows[i] == r;
      var j :| 0 <= j < |rows| && rows[j] == s;
    }
  }

  lemma {:induction false} InsertRowSorted(sorted: seq<Row>, row: Row)
    requires Sorted(sorted)
    ensures Sorted(InsertRow(sorted, row)) && multiset(InsertRow(sorted, row)) == multiset(sorted + [row])
  {
    hide SpecificityScore;
    if |sorted| > 0 && SpecificityScore(sorted[|sorted| - 1]) > SpecificityScore(row) {
      var init, last := sorted[..|sorted| - 1], sorted[|sorted| - 1];
      assert sorted == init + [last];
      InsertRowSorted(init, row);
      SortedPlus(InsertRow(init, row), init + [row], last);
    }
  }

  lemma SortedPlus(rows: seq<Row>, others: seq<Row>, last: Row)
    requires Sorted(rows) && multiset(rows) == multiset(others)
    requires forall i :: 0 <= i < |others| ==> SpecificityScore(others[i]) <= SpecificityScore(last)
    ensures Sorted(rows + [last])
  {
    hide SpecificityScore;
    forall i | 0 <= i < |rows| ensures SpecificityScore(rows[i]) <= SpecificityScore(last) {
      assert rows[i] in multiset(others);
      var k :| 0 <= k < |others| && others[k] == rows[i];
    }
  }

  lemma {:induction false} SortKeepsRows(rows: seq<Row>)
    ensures Sorted(SortRows(rows)) && multiset(SortRows(rows)) == multiset(rows)
  {
    if |rows| > 0 {
      var init, last := rows[..|rows| - 1], rows[|rows| - 1];
      assert rows == init + [last];
      SortKeepsRows(init);
      InsertRowSorted(SortRows(init), last);
    }
  }

  lemma LastDeciderRules(sorted: seq<Row>, path: seq<string>, i: nat)
    requires Sorted(sorted) && i < |sorted| && RowDecides(sorted[i], path)
    requires forall j :: i < j < |sorted| ==> !RowDecides(sorted[j], path)
    ensures Rules(multiset(sorted), sorted[i], path)
  {
    hide SpecificityScore;
    hide RowDecides;
    forall t | t in multiset(sorted) && RowDecides(t, path)
      ensures SpecificityScore(t) <= SpecificityScore(sorted[i])
    {
      var k :| 0 <= k < |sorted| && sorted[k] == t;
    }
  }

  lemma SortedFoldsAgree(s: seq<Row>, t: seq<Row>)
    requires Sorted(s) && Sorted(t) && multiset(s) == multiset(t) && RulersAgree(multiset(s))
    ensures FoldRows(s) == FoldRows(t)
  {
    hide *;
    forall path ensures At(FoldRows(s), path) == At(FoldRows(t), path) {
      var i := LastDecider(s, path);
      var j := LastDecider(t, path);
      FoldAtPath(s, path, i);
      FoldAtPath(t, path, j);
      if i >= 0 { LastDeciderRules(s, path, i); }
      if j >= 0 { LastDeciderRules(t, path, j); }
      SameRuler(s, t, path, i, j);
    }
    SameAtEveryPath(FoldRows(s), FoldRows(t));
  }

  lemma SameRuler(s: seq<Row>, t: seq<Row>, path: seq<string>, i: int, j: int)
    requires multiset(s) == multiset(t) && RulersAgree(multiset(s)) && -1 <= i < |s| && -1 <= j < |t|
    requires if i >= 0 then Rules(multiset(s), s[i], path) else forall k :: 0 <= k < |s| ==> !RowDecides(s[k], path)
    requires if j >= 0 then Rules(multiset(t), t[j], path) else forall k :: 0 <= k < |t| ==> !RowDecides(t[k], path)
    ensures (i >= 0 <==> j >= 0) && (i >= 0 ==> RowAt(s[i], path) == RowAt(t[j], path))
  {
    hide RowDecides;
    hide RowAt;
    hide SpecificityScore;
    assert i >= 0 ==> s[i] in multiset(t);
    assert j >= 0 ==> t[j] in multiset(s);
  }

  /** An inserted row stands behind all rows of its scope. */
  lemma {:induction false} InsertedBehind(sorted: seq<Row>, row: Row) returns (k: nat)
    ensures k < |InsertRow(sorted, row)| && InsertRow(sorted, row)[k] == row
    ensures forall j :: k < j < |InsertRow(sorted, row)| ==>
      SpecificityScore(InsertRow(sorted, row)[j]) > SpecificityScore(row)
  {
    hide SpecificityScore;
    if |sorted| > 0 && SpecificityScore(sorted[|sorted| - 1]) > SpecificityScore(row) {
      k := InsertedBehind(sorted[..|sorted| - 1], row);
    } else {
      k := |sorted|;
    }
  }

  /** A row that rules at `path` says what stands there when the database returns it last. */
  lemma LastRulerDecides(rows: seq<Row>, row: Row, path: seq<string>) returns (others: seq<Row>)
    requires Rules(multiset(rows), row, path)
    ensures multiset(others) == multiset(rows) && At(Resolve(others), path) == RowAt(row, path)
  {
    var i :| 0 <= i < |rows| && rows[i] == row;
    assert RowDecides(row, path);
    hide *;
    var rest := Without(rows, i);
    others := rest + [row];
    MovedLast(rows, i);
    SortKeepsRows(others);
    ResolveFolds(others);
    SortOneMore(rest, row);
    var sorted := SortRows(others);
    var k := InsertedBehind(SortRows(rest), row);
    forall j | k < j < |sorted| ensures !RowDecides(sorted[j], path) {
      assert sorted[j] in multiset(sorted);
      HigherDoesNotDecide(multiset(rows), row, sorted[j], path);
    }
    FoldAtPath(sorted, path, k);
  }

  lemma MovedLast(rows: seq<Row>, i: nat)
    requires i < |rows|
    ensures multiset(Without(rows, i) + [rows[i]]) == multiset(rows)
  {
    WithoutElements(rows, i);
    hide Without;
  }

  lemma SortOneMore(rows: seq<Row>, row: Row)
    ensures SortRows(rows + [row]) == InsertRow(SortRows(rows), row)
  {
    assert (rows + [row])[..|rows|] == rows;
  }

  lemma HigherDoesNotDecide(rows: multiset<Row>, row: Row, t: Row, path: seq<string>)
    requires Rules(rows, row, path) && t in rows && SpecificityScore(t) > SpecificityScore(row)
    ensures !RowDecides(t, path)
  {
    hide SpecificityScore;
    hide RowDecides;
  }

  lemma ResolveFolds(rows: seq<Row>)
    ensures Resolve(rows) == FoldRows(SortRows(rows))
  {
  }

  /** The order of the rows does not matter exactly if at every path the most specific rows that decide there agree;
      disagreements that a more specific row hides do no harm. */
  lemma ResolveIgnoresRowOrder(rows: seq<Row>)
    ensures (forall others | multiset(others) == multiset(rows) :: Resolve(others) == Resolve(rows))
       <==> RulersAgree(multiset(rows))
    ensures OneRowPerScope(rows) ==> RulersAgree(multiset(rows))
  {
    if OneRowPerScope(rows) { OneRowRules(rows); }
    if RulersAgree(multiset(rows)) {
      forall others | multiset(others) == multiset(rows) ensures Resolve(others) == Resolve(rows) {
        SortKeepsRows(rows);
        SortKeepsRows(others);
        SortedFoldsAgree(SortRows(others), SortRows(rows));
      }
    } else {
      hide Rules;
      hide RowAt;
      var r, s, path :| Rules(multiset(rows), r, path) && Rules(multiset(rows), s, path)
        && RowAt(r, path) != RowAt(s, path);
      var first := LastRulerDecides(rows, r, path);
      var second := LastRulerDecides(rows, s, path);
      assert Resolve(first) != Resolve(second);
    }
  }

  // ----- which configuration wins

  /** Rows of a workflow come before others, and among equals those of a user. */
  predicate Outranks(a: Row, b: Row) {
    (a.forWorkflow && !b.forWorkflow) || (a.forWorkflow == b.forWorkflow && a.forUser && !b.forUser)
  }

  lemma OutranksMeans(a: Row, b: Row)
    ensures Outranks(a, b) <==> SpecificityScore(a) > SpecificityScore(b)
  {
  }

  /** At every path the row that outranks all others that decide there has its way. */
  lemma MostSpecificWins(rows: seq<Row>, row: Row, path: seq<string>)
    requires row in rows && RowDecides(row, path)
    requires forall t :: t in rows && RowDecides(t, path) && t != row ==> Outranks(row, t)
    ensures At(Resolve(rows), path) == RowAt(row, path)
  {
    SortKeepsRows(rows);
    var sorted := SortRows(rows);
    hide SortRows;
    hide RowDecides;
    hide RowAt;
    hide At;
    hide Outranks;
    assert row in multiset(rows) && row in sorted;
    var i := LastDecider(sorted, path);
    var j :| 0 <= j < |sorted| && sorted[j] == row;
    assert i >= j && sorted[i] in multiset(rows);
    if sorted[i] != row { OutranksMeans(row, sorted[i]); }
    hide SpecificityScore;
    FoldAtPath(sorted, path, i);
  }

  /** Where no row decides nothing stands. */
  lemma NoRowNoValue(rows: seq<Row>, path: seq<string>)
    requires forall t :: t in rows ==> !RowDecides(t, path)
    ensures At(Resolve(rows), path) == At(Record(map[]), path)
  {
    SortKeepsRows(rows);
    var sorted := SortRows(rows);
    hide SortRows;
    hide RowDecides;
    forall j | 0 <= j < |sorted| ensures !RowDecides(sorted[j], path) {
      assert sorted[j] in multiset(rows);
    }
    hide At;
    FoldAtPath(sorted, path, -1);
  }

  lemma {:induction false} DefaultRowsAre(rows: seq<Row>, row: Row)
    ensures row in DefaultRows(rows) <==> row in rows && row.domain == DEFAULT_DOMAIN
  {
    if |rows| > 0 {
      var init, last := rows[..|rows| - 1], rows[|rows| - 1];
      assert rows == init + [last];
      DefaultRowsAre(init, row);
    }
  }

  /** What a run is configured with: the profile where it decides, else the rows of the default domain, by rank; and
      what the queued configuration leaves open, by the rows of all domains that the worker reads. */
  lemma ConfigPrecedence(rows: seq<Row>, profile: Option<Value>, read: seq<Row>, path: seq<string>)
    ensures var queued := Queued(rows, profile);
      && At(queued, path)
         == (if profile.Some? && Decides(ToRecord(profile.value), path) then At(ToRecord(profile.value), path)
             else At(Resolve(DefaultRows(rows)), path))
      && At(WorkerConfig(read, queued), path)
         == (if Decides(queued, path) then At(queued, path) else At(Resolve(read), path))
  {
    var resolved := Resolve(DefaultRows(rows));
    if profile.Some? { MergedAtPath(resolved, ToRecord(profile.value), path); }
    MergedAtPath(Resolve(read), Queued(rows, profile), path);
    hide At;
    hide Decides;
    hide Resolve;
    hide Merge;
  }
}
