/** The keys of a node's retrievers: repeated ones get a number, which can collide with a key given by hand. */
module RetrieverKeys {
  import opened Values
  import opened Graph
  import opened Retrieval
  import opened Orchestration
  import Text

  function Count(keys: seq<string>, key: string): nat {
    if |keys| == 0 then 0 else Count(keys[..|keys| - 1], key) + if keys[|keys| - 1] == key then 1 else 0
  }

  /** The name of the `n`-th retriever with this key. */
  function Numbered(key: string, n: nat): string {
    if n <= 1 then key else key + "_" + Text.Decimal(n)
  }

  /** The keys of the enabled retrievers after numbering. */
  function Deduplicated(keys: seq<string>): seq<string> {
    if |keys| == 0 then []
    else
      var before, key := keys[..|keys| - 1], keys[|keys| - 1];
      Deduplicated(before) + [Numbered(key, Count(before, key) + 1)]
  }

  /** The pass over the retrievers with its map of the keys seen so far. */
  method Deduplicate(keys: seq<string>) returns (r: seq<string>)
    ensures r == Deduplicated(keys)
  {
    r := [];
    var dedup: map<string, nat> := map[];
    for i := 0 to |keys|
      invariant r == Deduplicated(keys[..i])
      invariant forall k :: (if k in dedup then dedup[k] else 0) == Count(keys[..i], k)
    {
      assert keys[..i + 1][..i] == keys[..i];
      var key := keys[i];
      var seen := if key in dedup then dedup[key] else 0;
      dedup := dedup[key := seen + 1];
      r := r + [if seen == 0 then key else key + "_" + Text.Decimal(seen + 1)];
    }
    assert keys[..|keys|] == keys;
  }

  lemma {:induction false} DeduplicatedAt(keys: seq<string>, i: nat)
    requires i < |keys|
    ensures |Deduplicated(keys)| == |keys|
    ensures Deduplicated(keys)[i] == Numbered(keys[i], Count(keys[..i], keys[i]) + 1)
  {
    var n := |keys| - 1;
    DeduplicatedSize(keys[..n]);
    if i < n {
      DeduplicatedAt(keys[..n], i);
      assert keys[..n][..i] == keys[..i];
    }
  }

  lemma {:induction false} DeduplicatedSize(keys: seq<string>)
    ensures |Deduplicated(keys)| == |keys|
  {
    if |keys| > 0 { DeduplicatedSize(keys[..|keys| - 1]); }
  }

  // ----- counting

  lemma {:induction false} CountGrows(keys: seq<string>, key: string, i: nat, j: nat)
    requires i <= j <= |keys|
    ensures Count(keys[..i], key) <= Count(keys[..j], key)
    ensures i < j && keys[i] == key ==> Count(keys[..i], key) < Count(keys[..j], key)
  {
    if i < j {
      CountGrows(keys, key, i, j - 1);
      assert keys[..j][..j - 1] == keys[..j - 1];
    }
  }

  /** The place of the `n`-th occurrence. */
  lemma {:induction false} Occurrence(keys: seq<string>, key: string, n: nat) returns (i: nat)
    requires 1 <= n <= Count(keys, key)
    ensures i < |keys| && keys[i] == key && Count(keys[..i], key) + 1 == n
  {
    var m := |keys| - 1;
    if n <= Count(keys[..m], key) {
      i := Occurrence(keys[..m], key, n);
      assert keys[..m][..i] == keys[..i];
    } else {
      i := m;
    }
  }

  lemma {:induction false} MemberIsCounted(keys: seq<string>, key: string)
    ensures key in keys <==> Count(keys, key) >= 1
  {
    if |keys| > 0 {
      assert keys == keys[..|keys| - 1] + [keys[|keys| - 1]];
      MemberIsCounted(keys[..|keys| - 1], key);
    }
  }

  // ----- names

  /** The last underscore separates the key from the number. */
  lemma SplitAtLast(k: string, d: string, l: string, e: string)
    requires k + "_" + d == l + "_" + e
    requires forall t :: 0 <= t < |d| ==> d[t] != '_'
    requires forall t :: 0 <= t < |e| ==> e[t] != '_'
    ensures k == l && d == e
  {
    var s := k + "_" + d;
    assert s[|k|] == '_' && forall t :: |k| < t < |s| ==> s[t] == d[t - |k| - 1];
    assert s[|l|] == '_' && forall t :: |l| < t < |s| ==> s[t] == e[t - |l| - 1];
    assert |k| == |l|;
    assert s[..|k|] == k && s[..|l|] == l;
    assert s[|k| + 1..] == d && s[|l| + 1..] == e;
  }

  lemma NumberedInjective(k: string, m: nat, l: string, n: nat)
    requires m >= 2 && n >= 2 && Numbered(k, m) == Numbered(l, n)
    ensures k == l && m == n
  {
    hide Text.Decimal;
    SplitAtLast(k, Text.Decimal(m), l, Text.Decimal(n));
    Text.DecimalInjective(m, n);
  }

  /** Some key is the name that a repetition of another key gets. */
  ghost predicate Collides(keys: seq<string>, key: string, n: nat) {
    2 <= n <= Count(keys, key) && Numbered(key, n) in keys
  }

  /** The names are distinct exactly if no key that was given is the name of a repetition. */
  lemma NamesDistinct(keys: seq<string>)
    ensures Distinct(Deduplicated(keys)) <==> forall key, n: nat :: !Collides(keys, key, n)
  {
    DeduplicatedSize(keys);
    if Distinct(Deduplicated(keys)) {
      forall key, n: nat ensures !Collides(keys, key, n) {
        if Collides(keys, key, n) { CollisionRepeats(keys, key, n); }
      }
    } else {
      var names := Deduplicated(keys);
      var i, j :| 0 <= i < j < |names| && names[i] == names[j];
      RepeatedNameCollides(keys, i, j);
    }
  }

  lemma CollisionRepeats(keys: seq<string>, key: string, n: nat)
    requires Collides(keys, key, n)
    ensures !Distinct(Deduplicated(keys))
  {
    var name := Numbered(key, n);
    MemberIsCounted(keys, name);
    var i := Occurrence(keys, key, n);
    var j := Occurrence(keys, name, 1);
    DeduplicatedAt(keys, i);
    DeduplicatedAt(keys, j);
    assert |name| > |key|;
    assert Deduplicated(keys)[i] == Deduplicated(keys)[j];
  }

  lemma RepeatedNameCollides(keys: seq<string>, i: nat, j: nat)
    requires i < j < |keys| && |Deduplicated(keys)| == |keys|
    requires Deduplicated(keys)[i] == Deduplicated(keys)[j]
    ensures exists key, n: nat :: Collides(keys, key, n)
  {
    DeduplicatedAt(keys, i);
    DeduplicatedAt(keys, j);
    var m, n := Count(keys[..i], keys[i]) + 1, Count(keys[..j], keys[j]) + 1;
    CountUpTo(keys, i);
    CountUpTo(keys, j);
    hide Count;
    hide Deduplicated;
    if m >= 2 && n >= 2 {
      NumberedInjective(keys[i], m, keys[j], n);
      CountGrows(keys, keys[i], i, j);
      assert false;
    } else if m >= 2 {
      assert Collides(keys, keys[i], m);
    } else if n >= 2 {
      assert Collides(keys, keys[j], n);
    } else {
      CountGrows(keys, keys[i], i, j);
      assert false;
    }
  }

  lemma CountUpTo(keys: seq<string>, i: nat)
    requires i < |keys|
    ensures Count(keys[..i], keys[i]) + 1 <= Count(keys, keys[i])
  {
    CountGrows(keys, keys[i], i, |keys|);
    assert keys[..|keys|] == keys;
  }

  // ----- what it means for the plans

  /** The plans that were resolved for the retrievers, in order; retrievers without a query have none. */
  ghost predicate PlansOf(plans: seq<Plan>, names: seq<string>) {
    exists at: seq<nat> :: ResolvedAt(plans, names, at)
  }

  ghost predicate ResolvedAt(plans: seq<Plan>, names: seq<string>, at: seq<nat>) {
    && |at| == |plans|
    && (forall i, j :: 0 <= i < j < |at| ==> at[i] < at[j])
    && (forall i :: 0 <= i < |at| ==> at[i] < |names| && plans[i].key == names[at[i]])
  }

  lemma {:induction false} DistinctKeysCountOnce(plans: seq<Plan>, key: string)
    requires forall i, j :: 0 <= i < j < |plans| ==> plans[i].key != plans[j].key
    ensures KeyCount(plans, key) <= 1
    ensures KeyCount(plans, key) == 1 ==> exists i :: 0 <= i < |plans| && plans[i].key == key
  {
    if |plans| > 0 {
      var init := plans[..|plans| - 1];
      DistinctKeysCountOnce(init, key);
      if KeyCount(init, key) == 1 {
        var i :| 0 <= i < |init| && init[i].key == key;
        assert plans[i].key == key;
      } else if plans[|plans| - 1].key == key {
        assert plans[|plans| - 1].key == key;
      }
    }
  }

  /** Without such a collision adaptive ordering loses no plan, whatever key is preferred. */
  lemma NoCollisionNoLoss(keys: seq<string>, plans: seq<Plan>, key: string)
    requires PlansOf(plans, Deduplicated(keys))
    requires forall k, n: nat :: !Collides(keys, k, n)
    ensures multiset(AdaptiveOrdering(plans, Some(key))) == multiset(plans)
  {
    NamesDistinct(keys);
    hide Deduplicated;
    DistinctKeysCountOnce(plans, key);
    AdaptiveOrderingIsPermutation(plans, key);
  }

  /** With one, and a plan for every retriever, the preferred key of the collision loses a plan. */
  lemma CollisionLosesPlan(keys: seq<string>, plans: seq<Plan>, key: string, n: nat)
    requires |plans| == |keys| == |Deduplicated(keys)|
    requires forall i :: 0 <= i < |plans| ==> plans[i].key == Deduplicated(keys)[i]
    requires Collides(keys, key, n)
    ensures multiset(AdaptiveOrdering(plans, Some(Numbered(key, n)))) != multiset(plans)
  {
    var name := Numbered(key, n);
    MemberIsCounted(keys, name);
    var i := Occurrence(keys, key, n);
    var j := Occurrence(keys, name, 1);
    DeduplicatedAt(keys, i);
    DeduplicatedAt(keys, j);
    assert |name| > |key|;
    KeyCountTwice(plans, name, i, j);
    AdaptiveOrderingIsPermutation(plans, name);
  }

  /** With a plan for every retriever, adaptive ordering keeps all plans for every preferred key exactly if no given
      key is the name of a repetition. */
  lemma OrderingKeepsAllPlans(keys: seq<string>, plans: seq<Plan>)
    requires |plans| == |keys| == |Deduplicated(keys)|
    requires forall i :: 0 <= i < |plans| ==> plans[i].key == Deduplicated(keys)[i]
    ensures (forall key :: multiset(AdaptiveOrdering(plans, Some(key))) == multiset(plans))
       <==> forall key, n: nat :: !Collides(keys, key, n)
  {
    if forall key, n: nat :: !Collides(keys, key, n) {
      var at: seq<nat> := seq(|plans|, i => i);
      assert ResolvedAt(plans, Deduplicated(keys), at);
      forall key ensures multiset(AdaptiveOrdering(plans, Some(key))) == multiset(plans) {
        NoCollisionNoLoss(keys, plans, key);
      }
    } else {
      var key, n: nat :| Collides(keys, key, n);
      CollisionLosesPlan(keys, plans, key, n);
    }
  }

  lemma {:induction false} KeyCountTwice(plans: seq<Plan>, key: string, i: nat, j: nat)
    requires i < |plans| && j < |plans| && i != j && plans[i].key == key && plans[j].key == key
    ensures KeyCount(plans, key) >= 2
  {
    var n := |plans| - 1;
    if i < n && j < n {
      KeyCountTwice(plans[..n], key, i, j);
    } else {
      KeyCountOnce(plans[..n], key, if i < n then i else j);
    }
  }

  lemma {:induction false} KeyCountOnce(plans: seq<Plan>, key: string, i: nat)
    requires i < |plans| && plans[i].key == key
    ensures KeyCount(plans, key) >= 1
  {
    if i < |plans| - 1 { KeyCountOnce(plans[..|plans| - 1], key, i); }
  }

  lemma OneMoreKey(keys: seq<string>, key: string, other: string)
    ensures Deduplicated(keys + [key]) == Deduplicated(keys) + [Numbered(key, Count(keys, key) + 1)]
    ensures Count(keys + [key], other) == Count(keys, other) + if key == other then 1 else 0
  {
    assert (keys + [key])[..|keys|] == keys;
  }

  /** Keys that the code receives and does not keep apart. */
  lemma ThreeKeysCollide()
    ensures Deduplicated(["a", "a", "a_2"]) == ["a", "a_2", "a_2"]
    ensures Collides(["a", "a", "a_2"], "a", 2)
  {
    assert Numbered("a", 2) == "a_2" by { assert Text.Decimal(2) == "2"; }
    assert Deduplicated([]) == [] && Count([], "a") == Count([], "a_2") == 0;
    hide Text.Decimal;
    hide Deduplicated;
    hide Count;
    OneMoreKey([], "a", "a");
    OneMoreKey([], "a", "a_2");
    assert [] + ["a"] == ["a"];
    OneMoreKey(["a"], "a", "a");
    OneMoreKey(["a"], "a", "a_2");
    assert ["a"] + ["a"] == ["a", "a"];
    OneMoreKey(["a", "a"], "a_2", "a");
    assert ["a", "a"] + ["a_2"] == ["a", "a", "a_2"];
  }
}
