/** The string operations of the source that the model needs. */
module Text {

  /** White space as `trim` and the `\s` of regular expressions see it. */
  predicate IsSpace(c: char) {
    || c in {' ', '\t', '\n', '\r', '\U{000B}', '\U{000C}', '\U{00A0}', '\U{1680}', '\U{2028}', '\U{2029}'}
    || '\U{2000}' <= c <= '\U{200A}'
    || c in {'\U{202F}', '\U{205F}', '\U{3000}', '\U{FEFF}'}
  }

  function TrimStart(s: string): (r: string)
    ensures r != "" ==> !IsSpace(r[0])
    ensures |r| <= |s| && r == s[|s| - |r|..]
  {
    if s != "" && IsSpace(s[0]) then TrimStart(s[1..]) else s
  }

  function TrimEnd(s: string): (r: string)
    ensures r != "" ==> !IsSpace(r[|r| - 1])
    ensures |r| <= |s| && r == s[..|r|]
  {
    if s != "" && IsSpace(s[|s| - 1]) then TrimEnd(s[..|s| - 1]) else s
  }

  function Trim(s: string): string {
    TrimEnd(TrimStart(s))
  }

  ghost predicate Blank(s: string) {
    forall i :: 0 <= i < |s| ==> IsSpace(s[i])
  }

  /** No white space at either end. */
  ghost predicate Edged(s: string) {
    s != "" ==> !IsSpace(s[0]) && !IsSpace(s[|s| - 1])
  }

  lemma {:induction false} TrimStartDropsSpaces(s: string)
    ensures Blank(s[..|s| - |TrimStart(s)|])
  {
    hide IsSpace;
    if s != "" && IsSpace(s[0]) {
      TrimStartDropsSpaces(s[1..]);
      var n := |s| - |TrimStart(s)|;
      assert s[..n] == [s[0]] + s[1..][..n - 1];
    }
  }

  lemma {:induction false} TrimEndDropsSpaces(s: string)
    ensures Blank(s[|TrimEnd(s)|..])
  {
    hide IsSpace;
    if s != "" && IsSpace(s[|s| - 1]) {
      var init := s[..|s| - 1];
      TrimEndDropsSpaces(init);
      assert s[|TrimEnd(s)|..] == init[|TrimEnd(init)|..] + [s[|s| - 1]];
    }
  }

  lemma {:induction false} TrimStartKeeps(a: string, t: string)
    requires Blank(a) && (t != "" ==> !IsSpace(t[0]))
    ensures TrimStart(a + t) == t
  {
    hide IsSpace;
    if a == "" {
      assert a + t == t;
    } else {
      assert (a + t)[1..] == a[1..] + t;
      TrimStartKeeps(a[1..], t);
    }
  }

  lemma {:induction false} TrimEndKeeps(t: string, b: string)
    requires Blank(b) && (t != "" ==> !IsSpace(t[|t| - 1]))
    ensures TrimEnd(t + b) == t
  {
    hide IsSpace;
    if b == "" {
      assert t + b == t;
    } else {
      assert (t + b)[..|t + b| - 1] == t + b[..|b| - 1];
      TrimEndKeeps(t, b[..|b| - 1]);
    }
  }

  /** `r` is `s` without the white space at its ends. */
  ghost predicate Trims(s: string, r: string) {
    Edged(r) && exists a, b :: Blank(a) && Blank(b) && s == a + r + b
  }

  lemma TrimTrims(s: string)
    ensures Trims(s, Trim(s))
  {
    var t := TrimStart(s);
    TrimStartDropsSpaces(s);
    TrimEndDropsSpaces(t);
    hide Blank;
    hide IsSpace;
    hide TrimStart;
    hide TrimEnd;
    var r := TrimEnd(t);
    var a, b := s[..|s| - |t|], t[|r|..];
    assert s == a + t && t == r + b;
    assert s == a + r + b;
    assert r != "" ==> r[0] == t[0];
  }

  lemma TrimMeans(s: string, r: string)
    ensures Trim(s) == r <==> Trims(s, r)
  {
    TrimTrims(s);
    hide Trim;
    hide Blank;
    hide Edged;
    if Trims(s, r) {
      var c, d :| Blank(c) && Blank(d) && s == c + r + d;
      TrimOfParts(c, r, d);
    }
  }

  lemma TrimOfParts(c: string, r: string, d: string)
    requires Blank(c) && Blank(d) && Edged(r)
    ensures Trim(c + r + d) == r
  {
    hide IsSpace;
    hide TrimStart;
    hide TrimEnd;
    if r == "" {
      assert Blank(c + d) && c + r + d == (c + d) + "";
      TrimStartKeeps(c + d, "");
      assert TrimEnd("") == "" by { TrimEndKeeps("", ""); assert "" + "" == ""; }
    } else {
      assert c + r + d == c + (r + d) && (r + d)[0] == r[0];
      TrimStartKeeps(c, r + d);
      TrimEndKeeps(r, d);
    }
  }

  /** Case folding of the ASCII letters. */
  function ToLower(s: string): (r: string)
    ensures |r| == |s|
  {
    if s == "" then ""
    else [if 'A' <= s[0] <= 'Z' then s[0] - 'A' + 'a' else s[0]] + ToLower(s[1..])
  }

  /** `w` is `s` with its capital letters made small. */
  ghost predicate Folds(s: string, w: string) {
    |s| == |w| && forall i :: 0 <= i < |s| ==> w[i] == if 'A' <= s[i] <= 'Z' then s[i] - 'A' + 'a' else s[i]
  }

  lemma {:induction false} ToLowerMeans(s: string, w: string)
    ensures ToLower(s) == w <==> Folds(s, w)
  {
    if s != "" && w != "" {
      ToLowerMeans(s[1..], w[1..]);
      assert w == [w[0]] + w[1..];
      if Folds(s, w) { assert Folds(s[1..], w[1..]); }
      if ToLower(s) == w {
        assert w[1..] == ToLower(s[1..]);
        assert forall i :: 1 <= i < |s| ==> s[i] == s[1..][i - 1] && w[i] == w[1..][i - 1];
      }
    }
  }

  /** Without the white space at its ends and capital letters, `s` reads `w`. */
  ghost predicate Reads(s: string, w: string) {
    exists r :: Trims(s, r) && Folds(r, w)
  }

  lemma ReadsMeans(s: string, w: string)
    ensures ToLower(Trim(s)) == w <==> Reads(s, w)
  {
    TrimMeans(s, Trim(s));
    ToLowerMeans(Trim(s), w);
    if Reads(s, w) {
      var r :| Trims(s, r) && Folds(r, w);
      TrimMeans(s, r);
    }
    hide Trims;
    hide Folds;
    hide Trim;
    hide ToLower;
  }

  // ----- decimal numbers

  function Digit(d: nat): char
    requires d < 10
  {
    '0' + d as char
  }

  function Decimal(n: nat): (s: string)
    ensures s != "" && forall i :: 0 <= i < |s| ==> '0' <= s[i] <= '9'
  {
    if n < 10 then [Digit(n)] else Decimal(n / 10) + [Digit(n % 10)]
  }

  function ValueOf(s: string): int {
    if s == "" then 0 else ValueOf(s[..|s| - 1]) * 10 + (s[|s| - 1] as int - '0' as int)
  }

  lemma {:induction false} DecimalHasValue(n: nat)
    ensures ValueOf(Decimal(n)) == n
  {
    var s := Decimal(n);
    if n < 10 {
      assert s[..0] == "";
    } else {
      DecimalHasValue(n / 10);
      assert s[..|s| - 1] == Decimal(n / 10);
    }
  }

  lemma DecimalInjective(m: nat, n: nat)
    requires Decimal(m) == Decimal(n)
    ensures m == n
  {
    DecimalHasValue(m);
    DecimalHasValue(n);
  }
}
