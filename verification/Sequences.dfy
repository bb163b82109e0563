/** What remains of a sequence when an element is taken out. */
module Sequences {

  function Without<T>(s: seq<T>, i: nat): (r: seq<T>)
    requires i < |s|
    ensures |r| == |s| - 1
    ensures forall k :: 0 <= k < |r| ==> r[k] == s[if k < i then k else k + 1]
  {
    s[..i] + s[i + 1..]
  }

  lemma WithoutElements<T>(s: seq<T>, i: nat)
    requires i < |s|
    ensures multiset(Without(s, i)) == multiset(s) - multiset{s[i]}
  {
    assert s == s[..i] + [s[i]] + s[i + 1..];
    assert multiset(s) == multiset(s[..i]) + multiset{s[i]} + multiset(s[i + 1..]);
  }

  lemma WithoutLast<T>(s: seq<T>)
    requires |s| > 0
    ensures Without(s, |s| - 1) == s[..|s| - 1]
    ensures multiset(s[..|s| - 1]) == multiset(s) - multiset{s[|s| - 1]}
  {
    WithoutElements(s, |s| - 1);
    assert Without(s, |s| - 1) == s[..|s| - 1];
  }

  /** The last element of a permutation, and what the rest of it is. */
  lemma PermutedLast<T>(s: seq<T>, t: seq<T>) returns (i: nat)
    requires |s| > 0 && multiset(s) == multiset(t)
    ensures |s| == |t| && i < |t| && t[i] == s[|s| - 1]
    ensures multiset(s[..|s| - 1]) == multiset(Without(t, i))
  {
    assert |s| == |multiset(s)| == |multiset(t)| == |t|;
    var last := s[|s| - 1];
    assert last in multiset(s) && last in multiset(t);
    i :| 0 <= i < |t| && t[i] == last;
    WithoutLast(s);
    WithoutElements(t, i);
    hide Without;
  }

  // ----- the elements that meet a condition, in their order

  function Count<T>(s: seq<T>, keep: T -> bool): (n: nat)
    ensures n <= |s|
  {
    if |s| == 0 then 0 else Count(s[..|s| - 1], keep) + if keep(s[|s| - 1]) then 1 else 0
  }

  /** `kept` holds the elements of `all` that meet the condition, each behind those that come before it. */
  ghost predicate Keeps<T>(kept: seq<T>, all: seq<T>, keep: T -> bool) {
    && |kept| == Count(all, keep)
    && forall k :: 0 <= k < |all| && keep(all[k]) ==> StandsAt(kept, Count(all[..k], keep), all[k])
  }

  ghost predicate StandsAt<T>(s: seq<T>, i: nat, x: T) {
    i < |s| && s[i] == x
  }

  lemma KeepsNothing<T>(keep: T -> bool)
    ensures Keeps([], [], keep)
  {
  }

  lemma CountOneMore<T>(all: seq<T>, keep: T -> bool, x: T)
    ensures Count(all + [x], keep) == Count(all, keep) + if keep(x) then 1 else 0
  {
    assert (all + [x])[..|all|] == all;
  }

  lemma KeepsOneMore<T>(kept: seq<T>, all: seq<T>, keep: T -> bool, x: T)
    requires Keeps(kept, all, keep)
    ensures Keeps(if keep(x) then kept + [x] else kept, all + [x], keep)
  {
    var more := if keep(x) then kept + [x] else kept;
    CountOneMore(all, keep, x);
    hide Count;
    forall k | 0 <= k < |all + [x]| && keep((all + [x])[k])
      ensures StandsAt(more, Count((all + [x])[..k], keep), (all + [x])[k])
    {
      assert (all + [x])[..k] == all[..k];
      if k < |all| {
        assert StandsAt(kept, Count(all[..k], keep), all[k]);
      } else {
        assert all[..k] == all;
      }
    }
  }

  lemma {:induction false} KeepsAll<T>(all: seq<T>, keep: T -> bool)
    requires forall k :: 0 <= k < |all| ==> keep(all[k])
    ensures Keeps(all, all, keep)
  {
    if |all| > 0 {
      var init := all[..|all| - 1];
      KeepsAll(init, keep);
      KeepsOneMore(init, init, keep, all[|all| - 1]);
      assert init + [all[|all| - 1]] == all;
      hide Keeps;
    }
  }

  /** There is one such sequence. */
  lemma {:induction false} KeepsOneWay<T>(a: seq<T>, b: seq<T>, all: seq<T>, keep: T -> bool)
    requires Keeps(a, all, keep) && Keeps(b, all, keep)
    ensures a == b
  {
    if |all| > 0 {
      KeepsOneLess(a, all, keep);
      KeepsOneLess(b, all, keep);
      hide Keeps;
      var last := all[|all| - 1];
      KeepsOneWay(if keep(last) then a[..|a| - 1] else a, if keep(last) then b[..|b| - 1] else b,
                  all[..|all| - 1], keep);
      if keep(last) { assert a == a[..|a| - 1] + [last] && b == b[..|b| - 1] + [last]; }
    }
  }

  lemma KeepsOneLess<T>(kept: seq<T>, all: seq<T>, keep: T -> bool)
    requires Keeps(kept, all, keep) && |all| > 0
    ensures var last := all[|all| - 1];
      if keep(last) then
        |kept| > 0 && kept[|kept| - 1] == last && Keeps(kept[..|kept| - 1], all[..|all| - 1], keep)
      else Keeps(kept, all[..|all| - 1], keep)
  {
    var n := |all| - 1;
    var init, last := all[..n], all[n];
    if keep(last) { assert StandsAt(kept, Count(all[..n], keep), all[n]); }
    var less := if keep(last) then kept[..|kept| - 1] else kept;
    forall k | 0 <= k < |init| && keep(init[k]) ensures StandsAt(less, Count(init[..k], keep), init[k]) {
      assert init[..k] == all[..k] && init[k] == all[k];
      assert StandsAt(kept, Count(all[..k], keep), all[k]);
      CountGrows(init, k, keep);
    }
  }

  lemma {:induction false} CountGrows<T>(s: seq<T>, k: nat, keep: T -> bool)
    requires k < |s| && keep(s[k])
    ensures Count(s[..k], keep) < Count(s, keep)
  {
    var init := s[..|s| - 1];
    if k < |init| {
      CountGrows(init, k, keep);
      assert init[..k] == s[..k];
    }
  }
}
