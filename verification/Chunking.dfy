/** Splitting text into overlapping chunks, and documents into chunks page by page. */
module Chunking {
  import opened Text

  // ----- normalisation

  /** `replace(/\s+/g, " ")` */
  function Collapse(s: string): (r: string)
    ensures |r| <= |s|
    ensures r != "" && s != "" && IsSpace(r[0]) ==> IsSpace(s[0])
    decreases |s|
  {
    if s == "" then ""
    else if IsSpace(s[0]) then " " + Collapse(TrimStart(s))
    else [s[0]] + Collapse(s[1..])
  }

  function Normalize(s: string): (r: string)
    ensures |r| <= |s|
  {
    Trim(Collapse(s))
  }

  /** No two adjacent spaces. */
  ghost predicate Sparse(s: string) {
    forall i :: 0 <= i < |s| - 1 ==> !(IsSpace(s[i]) && IsSpace(s[i + 1]))
  }

  lemma CollapseIsSparse(s: string)
    ensures Sparse(Collapse(s))
    decreases |s|
  {
    hide IsSpace;
    if s != "" {
      if IsSpace(s[0]) { CollapseIsSparse(TrimStart(s)); } else { CollapseIsSparse(s[1..]); }
    }
  }

  lemma SparseSuffix(s: string, k: nat)
    requires Sparse(s) && k <= |s|
    ensures Sparse(s[k..])
  {
    hide IsSpace;
    assert forall i :: 0 <= i < |s| - k ==> s[k..][i] == s[k + i];
  }

  lemma SparsePrefix(s: string, k: nat)
    requires Sparse(s) && k <= |s|
    ensures Sparse(s[..k])
  {
    hide IsSpace;
  }

  lemma TrimIsSparse(s: string)
    requires Sparse(s)
    ensures Sparse(Trim(s))
  {
    hide Sparse;
    hide TrimEnd;
    hide TrimStart;
    hide IsSpace;
    var t := TrimStart(s);
    SparseSuffix(s, |s| - |t|);
    SparsePrefix(t, |TrimEnd(t)|);
  }

  lemma NormalizeIsSparse(s: string)
    ensures Sparse(Normalize(s))
    ensures Normalize(s) != "" ==> !IsSpace(Normalize(s)[|Normalize(s)| - 1])
  {
    hide Sparse;
    hide Collapse;
    CollapseIsSparse(s);
    TrimIsSparse(Collapse(s));
    hide TrimStart;
    hide IsSpace;
  }

  // ----- what normalisation keeps: the words, joined by single spaces

  ghost predicate IsWord(w: string) {
    w != "" && forall i :: 0 <= i < |w| ==> !IsSpace(w[i])
  }

  /** Words with white space around them, and with some between any two. */
  ghost predicate Layout(words: seq<string>, gaps: seq<string>) {
    && |gaps| == |words| + 1
    && (forall i :: 0 <= i < |words| ==> IsWord(words[i]))
    && (forall i :: 0 <= i < |gaps| ==> Blank(gaps[i]))
    && (forall i :: 0 < i < |words| ==> gaps[i] != "")
  }

  function LaidOut(words: seq<string>, gaps: seq<string>): string
    requires |gaps| == |words| + 1
  {
    if |words| == 0 then gaps[0] else gaps[0] + (words[0] + LaidOut(words[1..], gaps[1..]))
  }

  function Joined(words: seq<string>): string {
    if |words| == 0 then ""
    else if |words| == 1 then words[0]
    else words[0] + (" " + Joined(words[1..]))
  }

  function OneSpace(gap: string): string {
    if gap == "" then "" else " "
  }

  lemma CollapseGap(gap: string, t: string)
    requires Blank(gap) && (t != "" ==> !IsSpace(t[0]))
    ensures Collapse(gap + t) == OneSpace(gap) + Collapse(t)
  {
    hide IsSpace;
    if gap == "" {
      assert gap + t == t;
    } else {
      TrimStartKeeps(gap, t);
      assert (gap + t)[0] == gap[0];
    }
  }

  lemma {:induction false} CollapseWord(w: string, t: string)
    requires forall i :: 0 <= i < |w| ==> !IsSpace(w[i])
    ensures Collapse(w + t) == w + Collapse(t)
  {
    hide IsSpace;
    if w == "" {
      assert w + t == t;
    } else {
      assert (w + t)[1..] == w[1..] + t && (w + t)[0] == w[0];
      CollapseWord(w[1..], t);
      assert w == [w[0]] + w[1..];
    }
  }

  lemma {:induction false} CollapseLaidOut(words: seq<string>, gaps: seq<string>)
    requires Layout(words, gaps)
    ensures Collapse(LaidOut(words, gaps))
         == OneSpace(gaps[0]) + (Joined(words) + if |words| > 0 then OneSpace(gaps[|words|]) else "")
  {
    hide IsSpace;
    hide Collapse;
    if |words| == 0 {
      assert gaps[0] + "" == gaps[0];
      CollapseGap(gaps[0], "");
      assert Collapse("") == "" by { CollapseWord("", ""); CollapseNothing(); }
    } else {
      var rest := LaidOut(words[1..], gaps[1..]);
      assert IsWord(words[0]);
      assert (words[0] + rest)[0] == words[0][0];
      CollapseGap(gaps[0], words[0] + rest);
      CollapseWord(words[0], rest);
      assert Layout(words[1..], gaps[1..]) by { LayoutRest(words, gaps); }
      CollapseLaidOut(words[1..], gaps[1..]);
      hide LaidOut;
      var end := OneSpace(gaps[|words|]);
      if |words| > 1 {
        assert gaps[1] != "";
        assert words[0] + (" " + (Joined(words[1..]) + end)) == Joined(words) + end;
      } else {
        assert Joined(words[1..]) == "" && Joined(words) == words[0];
      }
    }
  }

  lemma CollapseNothing()
    ensures Collapse("") == ""
  {
  }

  lemma LayoutRest(words: seq<string>, gaps: seq<string>)
    requires Layout(words, gaps) && |words| > 0
    ensures Layout(words[1..], gaps[1..])
  {
    hide IsSpace;
    hide IsWord;
    hide Blank;
  }

  lemma {:induction false} JoinedIsEdged(words: seq<string>)
    requires forall i :: 0 <= i < |words| ==> IsWord(words[i])
    ensures Edged(Joined(words)) && (|words| > 0 ==> Joined(words) != "")
  {
    hide IsSpace;
    if |words| > 0 { assert IsWord(words[0]); }
    if |words| > 1 { JoinedIsEdged(words[1..]); }
  }

  /** Normalising joins the words by single spaces and leaves everything else of them as it is. */
  lemma NormalizeJoinsWords(words: seq<string>, gaps: seq<string>)
    requires Layout(words, gaps)
    ensures Normalize(LaidOut(words, gaps)) == Joined(words)
  {
    var first, last := OneSpace(gaps[0]), if |words| > 0 then OneSpace(gaps[|words|]) else "";
    CollapseLaidOut(words, gaps);
    JoinedIsEdged(words);
    OneSpaceIsBlank(gaps[0]);
    OneSpaceIsBlank(gaps[|words|]);
    assert Normalize(LaidOut(words, gaps)) == Trim(Collapse(LaidOut(words, gaps)));
    assert Blank(last);
    hide *;
    var middle := Joined(words);
    assert first + (middle + last) == first + middle + last;
    TrimOfParts(first, middle, last);
  }

  lemma OneSpaceIsBlank(gap: string)
    ensures Blank(OneSpace(gap)) && Blank("")
  {
  }

  /** Every text is laid out from words. */
  lemma {:induction false} EveryTextHasLayout(s: string) returns (words: seq<string>, gaps: seq<string>)
    ensures Layout(words, gaps) && LaidOut(words, gaps) == s
  {
    hide IsSpace;
    if s == "" {
      words, gaps := [], [""];
    } else {
      var w, g := EveryTextHasLayout(s[1..]);
      assert s == [s[0]] + s[1..];
      if IsSpace(s[0]) {
        words, gaps := w, g[0 := [s[0]] + g[0]];
        assert |words| > 0 ==> gaps[1..] == g[1..];
      } else if |w| > 0 && g[0] == "" {
        words, gaps := w[0 := [s[0]] + w[0]], g;
        assert IsWord(words[0]) by { assert IsWord(w[0]); }
        assert words[1..] == w[1..];
      } else {
        words, gaps := [[s[0]]] + w, [""] + g;
        assert words[1..] == w && gaps[1..] == g;
        assert IsWord(words[0]);
      }
    }
  }

  lemma TrimEmptyMeansBlank(s: string)
    requires Trim(s) == ""
    ensures forall i :: 0 <= i < |s| ==> IsSpace(s[i])
  {
    hide IsSpace;
    TrimMeans(s, "");
    var a, b :| Blank(a) && Blank(b) && s == a + "" + b;
  }

  // ----- chunks of a text

  datatype TextChunk = TextChunk(index: nat, start: nat, end: nat, content: string)

  function Min(a: int, b: int): int {
    if a < b then a else b
  }

  function Max(a: int, b: int): int {
    if a > b then a else b
  }

  function WindowChunks(text: string, size: nat, start: nat, index: nat): seq<TextChunk>
    requires start < |text|
  {
    var end := Min(|text|, start + size);
    var content := Trim(text[start..end]);
    if content != "" then [TextChunk(index, start, end, content)] else []
  }

  /** The chunks of the windows from `start` on; blank windows yield none. */
  function ChunksFrom(text: string, size: nat, overlap: nat, start: nat, index: nat): seq<TextChunk>
    requires start < |text| && (overlap < size || start + size >= |text|)
    decreases |text| - start
  {
    var here := WindowChunks(text, size, start, index);
    if start + size >= |text| then here
    else here + ChunksFrom(text, size, overlap, start + size - overlap, index + |here|)
  }

  /** The chunker, wherever its loop ends; Halts below shows that it does so exactly under this condition. */
  method ChunkText(contentText: string, chunkSizeChars: nat, chunkOverlapChars: nat) returns (chunks: seq<TextChunk>)
    requires chunkOverlapChars < chunkSizeChars || |Normalize(contentText)| <= chunkSizeChars
    ensures var text := Normalize(contentText);
      chunks == if text == "" then [] else ChunksFrom(text, chunkSizeChars, chunkOverlapChars, 0, 0)
  {
    hide Normalize;
    hide Trim;
    hide ChunksFrom;
    var normalized := Normalize(contentText);
    chunks := [];
    if normalized == "" {
      return;
    }
    var start: nat := 0;
    var index: nat := 0;
    ghost var all := ChunksFrom(normalized, chunkSizeChars, chunkOverlapChars, 0, 0);
    while true
      invariant start < |normalized| && index == |chunks|
      invariant chunkOverlapChars < chunkSizeChars || start + chunkSizeChars >= |normalized|
      invariant chunks + ChunksFrom(normalized, chunkSizeChars, chunkOverlapChars, start, index) == all
      decreases |normalized| - start
    {
      NextWindow(normalized, chunkSizeChars, chunkOverlapChars, start, chunks);
      var end := Min(|normalized|, start + chunkSizeChars);
      var content := Trim(normalized[start..end]);
      if |content| > 0 {
        chunks := chunks + [TextChunk(index, start, end, content)];
        index := index + 1;
      }
      if end >= |normalized| {
        return;
      }
      start := Max(0, end - chunkOverlapChars);
    }
  }

  lemma NextWindow(text: string, size: nat, overlap: nat, start: nat, chunks: seq<TextChunk>)
    requires start < |text| && (overlap < size || start + size >= |text|)
    ensures var longer := chunks + WindowChunks(text, size, start, |chunks|);
      chunks + ChunksFrom(text, size, overlap, start, |chunks|) ==
        if start + size >= |text| then longer
        else longer + ChunksFrom(text, size, overlap, start + size - overlap, |longer|)
  {
    hide WindowChunks;
    var here := WindowChunks(text, size, start, |chunks|);
    if start + size < |text| {
      var rest := ChunksFrom(text, size, overlap, start + size - overlap, |chunks| + |here|);
      assert chunks + (here + rest) == (chunks + here) + rest;
      assert |chunks + here| == |chunks| + |here|;
    }
  }

  // ----- how many chunks, and what they cover

  function CeilDiv(a: nat, b: nat): nat
    requires b > 0
  {
    (a + b - 1) / b
  }

  /** `1 + ceil(max(0, n - size) / (size - overlap))` */
  function ChunkCount(n: nat, size: nat, overlap: nat): nat
    requires overlap < size
  {
    1 + CeilDiv(Max(0, n - size), size - overlap)
  }

  lemma WindowIsNotBlank(text: string, start: nat, end: nat)
    requires Sparse(text) && start < end <= |text| && (end - start >= 2 || end == |text|)
    requires text != "" ==> !IsSpace(text[|text| - 1])
    ensures Trim(text[start..end]) != ""
  {
    hide IsSpace;
    hide Trim;
    var w := text[start..end];
    assert w[0] == text[start] && w[|w| - 1] == text[end - 1];
    assert end - start >= 2 ==> w[1] == text[start + 1];
    if Trim(w) == "" {
      TrimEmptyMeansBlank(w);
    }
  }

  lemma Quotient(x: nat, b: nat, q: nat, r: nat)
    requires b > 0 && x == q * b + r && r < b
    ensures x / b == q
  {
    var q', r' := x / b, x % b;
    assert x == q' * b + r' && 0 <= r' < b;
    if q' > q { MulGap(q', q, b); }
    if q > q' { MulGap(q, q', b); }
  }

  lemma MulGap(p: nat, q: nat, b: nat)
    requires p > q && b > 0
    ensures p * b >= q * b + b
  {
    assert p * b == (p - 1) * b + b;
    if p > q + 1 { MulGap(p - 1, q, b); }
  }

  lemma CeilDivStep(a: nat, b: nat)
    requires a > 0 && b > 0
    ensures CeilDiv(a, b) == 1 + CeilDiv(Max(0, a - b), b)
  {
    if a >= b {
      var q, r := (a - 1) / b, (a - 1) % b;
      assert a - 1 == q * b + r;
      assert a + b - 1 == (q + 1) * b + r;
      Quotient(a + b - 1, b, q + 1, r);
    } else {
      Quotient(a + b - 1, b, 1, a - 1);
      Quotient(b - 1, b, 0, b - 1);
    }
  }

  lemma OneWindowLess(n: nat, size: nat, overlap: nat)
    requires overlap < size < n
    ensures ChunkCount(n, size, overlap) == 1 + ChunkCount(n - (size - overlap), size, overlap)
  {
    CeilDivStep(n - size, size - overlap);
  }

  lemma OneWindow(n: nat, size: nat, overlap: nat)
    requires overlap < size && n <= size
    ensures ChunkCount(n, size, overlap) == 1
  {
  }

  /** Chunk `k` is the window that starts at `k * (size - overlap)`. */
  ghost predicate ChunkAt(text: string, size: nat, overlap: nat, c: TextChunk, index: nat, start: int) {
    && c.index == index && c.start == start && start < |text|
    && c.end == Min(|text|, start + size) && c.content == Trim(text[start..c.end])
  }

  lemma WindowChunkIsOne(text: string, size: nat, start: nat, index: nat)
    requires size >= 2 && start < |text| && Sparse(text) && !IsSpace(text[|text| - 1])
    ensures var end := Min(|text|, start + size);
      WindowChunks(text, size, start, index) == [TextChunk(index, start, end, Trim(text[start..end]))]
  {
    hide IsSpace;
    hide Trim;
    WindowIsNotBlank(text, start, Min(|text|, start + size));
  }

  ghost predicate AreWindows(text: string, size: nat, overlap: nat, c: seq<TextChunk>, index: nat, start: nat) {
    forall k :: 0 <= k < |c| ==> ChunkAt(text, size, overlap, c[k], index + k, start + k * (size - overlap))
  }

  lemma PrependWindow(text: string, size: nat, overlap: nat, c: seq<TextChunk>, rest: seq<TextChunk>,
      index: nat, start: nat)
    requires overlap < size && |c| == 1 && ChunkAt(text, size, overlap, c[0], index, start)
    requires AreWindows(text, size, overlap, rest, index + 1, start + size - overlap)
    ensures AreWindows(text, size, overlap, c + rest, index, start)
  {
    hide ChunkAt;
    var step := size - overlap;
    forall k | 0 <= k < |c + rest|
      ensures ChunkAt(text, size, overlap, (c + rest)[k], index + k, start + k * step)
    {
      if k > 0 {
        Multiples(k, step);
        assert ChunkAt(text, size, overlap, rest[k - 1], index + 1 + (k - 1), start + step + (k - 1) * step);
      }
    }
  }

  /** No window of a normalised text is blank, so there is one chunk for each of them. */
  lemma {:induction false} ChunksAreWindows(text: string, size: nat, overlap: nat, start: nat, index: nat)
    requires overlap < size && size >= 2 && start < |text|
    requires Sparse(text) && !IsSpace(text[|text| - 1])
    ensures |ChunksFrom(text, size, overlap, start, index)| == ChunkCount(|text| - start, size, overlap)
    ensures AreWindows(text, size, overlap, ChunksFrom(text, size, overlap, start, index), index, start)
    decreases |text| - start
  {
    hide IsSpace;
    hide Sparse;
    hide Trim;
    WindowChunkIsOne(text, size, start, index);
    var here := WindowChunks(text, size, start, index);
    assert ChunkAt(text, size, overlap, here[0], index, start);
    hide WindowChunks;
    hide ChunkCount;
    if start + size >= |text| {
      OneWindow(|text| - start, size, overlap);
    } else {
      ChunksAreWindows(text, size, overlap, start + size - overlap, index + 1);
      OneWindowLess(|text| - start, size, overlap);
      PrependWindow(text, size, overlap, here, ChunksFrom(text, size, overlap, start + size - overlap, index + 1),
                    index, start);
      hide AreWindows;
    }
  }

  lemma Multiples(k: nat, step: nat)
    requires k > 0
    ensures (k - 1) * step + step == k * step
  {
  }

  // ----- reassembly

  /** The chunks follow each other: each starts `overlap` before the end of the one before it. */
  ghost predicate Chained(text: string, overlap: nat, c: seq<TextChunk>) {
    && (forall k :: 0 <= k < |c| ==> c[k].start < c[k].end <= |text|)
    && (forall k :: 0 < k < |c| ==> c[k].start == c[k - 1].end - overlap && c[k - 1].end < c[k].end)
  }

  /** The first chunk's slice, then what every further slice adds to the overlap. */
  function Reassemble(text: string, overlap: nat, c: seq<TextChunk>): string
    requires Chained(text, overlap, c)
  {
    if |c| == 0 then ""
    else
      var m := |c| - 1;
      if m == 0 then text[c[0].start..c[0].end]
      else
        assert c[m - 1].end == c[m].start + overlap < c[m].end;
        Reassemble(text, overlap, c[..m]) + text[c[m].start..c[m].end][overlap..]
  }

  lemma {:induction false} ReassembleIsPrefix(text: string, overlap: nat, c: seq<TextChunk>)
    requires Chained(text, overlap, c) && |c| > 0 && c[0].start == 0
    ensures Reassemble(text, overlap, c) == text[..c[|c| - 1].end]
  {
    var m := |c| - 1;
    if m > 0 {
      ReassembleIsPrefix(text, overlap, c[..m]);
      var before, after := c[m - 1].end, c[m].end;
      assert text[c[m].start..after][overlap..] == text[before..after];
      assert text[..after] == text[..before] + text[before..after];
    }
  }

  lemma WindowsAreChained(text: string, size: nat, overlap: nat, c: seq<TextChunk>)
    requires overlap < size && |c| > 0
    requires AreWindows(text, size, overlap, c, 0, 0)
    requires |c| == ChunkCount(|text|, size, overlap)
    ensures Chained(text, overlap, c) && c[0].start == 0 && c[|c| - 1].end == |text|
  {
    hide Trim;
    var step := size - overlap;
    LastWindow(|text|, size, overlap);
    hide ChunkCount;
    forall k | 0 < k < |c|
      ensures c[k].start == c[k - 1].end - overlap && c[k - 1].end < c[k].end
    {
      Multiples(k, step);
      NotLastWindow(|text|, size, overlap, |c|, k - 1);
      assert ChunkAt(text, size, overlap, c[k - 1], 0 + (k - 1), 0 + (k - 1) * step);
      assert ChunkAt(text, size, overlap, c[k], 0 + k, 0 + k * step);
    }
    assert ChunkAt(text, size, overlap, c[0], 0 + 0, 0 + 0 * step);
    assert ChunkAt(text, size, overlap, c[|c| - 1], 0 + (|c| - 1), 0 + (|c| - 1) * step);
  }

  /** The last window reaches the end of the text, the one before it does not. */
  lemma LastWindow(n: nat, size: nat, overlap: nat)
    requires overlap < size
    ensures (ChunkCount(n, size, overlap) - 1) * (size - overlap) + size >= n
    ensures ChunkCount(n, size, overlap) > 1 ==> (ChunkCount(n, size, overlap) - 2) * (size - overlap) + size < n
  {
    var a, b := Max(0, n - size), size - overlap;
    var q := (a + b - 1) / b;
    assert q * b <= a + b - 1 < q * b + b;
    assert (q - 1) * b == q * b - b;
  }

  lemma NotLastWindow(n: nat, size: nat, overlap: nat, count: nat, k: nat)
    requires overlap < size && k < count - 1
    requires (count - 2) * (size - overlap) + size < n
    ensures k * (size - overlap) + size < n
  {
    var step, rest := size - overlap, count - 2 - k;
    assert rest >= 0 && step > 0;
    MulAtLeast(rest, step);
    assert (k + rest) * step == k * step + rest * step;
  }

  lemma MulAtLeast(a: nat, b: nat)
    ensures a * b >= 0
  {
  }

  ghost predicate Covered(c: seq<TextChunk>, p: int) {
    exists k :: 0 <= k < |c| && c[k].start <= p < c[k].end
  }

  /** Chunking a text with `overlap < size` and `size >= 2`: the number of chunks, the place of each, no position of
      the normalised text left out, and the text itself back from the slices. */
  lemma ChunksCoverText(contentText: string, size: nat, overlap: nat)
    requires overlap < size && size >= 2 && Normalize(contentText) != ""
    ensures var text := Normalize(contentText);
      var c := ChunksFrom(text, size, overlap, 0, 0);
      && |c| == ChunkCount(|text|, size, overlap)
      && AreWindows(text, size, overlap, c, 0, 0)
      && Chained(text, overlap, c) && Reassemble(text, overlap, c) == text
      && (forall p :: 0 <= p < |text| ==> Covered(c, p))
  {
    NormalizeIsSparse(contentText);
    var text := Normalize(contentText);
    hide Normalize;
    hide Trim;
    hide IsSpace;
    hide Sparse;
    ChunksAreWindows(text, size, overlap, 0, 0);
    var c := ChunksFrom(text, size, overlap, 0, 0);
    hide ChunksFrom;
    WindowsAreChained(text, size, overlap, c);
    hide AreWindows;
    hide ChunkCount;
    ReassembleIsPrefix(text, overlap, c);
    assert text[..|text|] == text;
    forall p | 0 <= p < |text| ensures Covered(c, p) {
      ChainCovers(text, overlap, c, p, |c| - 1);
    }
  }

  lemma {:induction false} ChainCovers(text: string, overlap: nat, c: seq<TextChunk>, p: nat, m: nat)
    requires Chained(text, overlap, c) && m < |c| && c[0].start == 0 && p < c[m].end
    ensures Covered(c, p)
  {
    if p < c[m].start {
      assert m > 0;
      ChainCovers(text, overlap, c, p, m - 1);
    }
  }

  // ----- termination

  /** The start of the window after `k` turns of the loop; `Done` once the loop has ended. */
  datatype Turn = At(start: nat) | Done

  function After(n: nat, size: nat, overlap: nat, k: nat): Turn {
    if k == 0 then (if n == 0 then Done else At(0))
    else
      match After(n, size, overlap, k - 1)
      case Done => Done
      case At(start) =>
        var end := Min(n, start + size);
        if end >= n then Done
        else
          var next := Max(0, end - overlap);
          if next < n then At(next) else Done
  }

  lemma {:induction false} LoopAdvances(n: nat, size: nat, overlap: nat, k: nat)
    requires overlap < size
    ensures After(n, size, overlap, k).At? ==> k <= After(n, size, overlap, k).start < n
  {
    if k > 0 { LoopAdvances(n, size, overlap, k - 1); }
  }

  lemma {:induction false} LoopIsStuck(n: nat, size: nat, overlap: nat, k: nat)
    requires size <= overlap && size < n
    ensures After(n, size, overlap, k) == At(0)
  {
    if k > 0 { LoopIsStuck(n, size, overlap, k - 1); }
  }

  /** The loop ends exactly for texts that fit into one chunk and for overlaps below the chunk size. */
  lemma Halts(n: nat, size: nat, overlap: nat)
    ensures (exists k :: After(n, size, overlap, k).Done?) <==> n == 0 || n <= size || overlap < size
  {
    if n == 0 {
      assert After(n, size, overlap, 0).Done?;
    } else if n <= size {
      assert After(n, size, overlap, 0) == At(0);
      assert After(n, size, overlap, 1).Done?;
    } else if overlap < size {
      LoopAdvances(n, size, overlap, n);
      assert After(n, size, overlap, n).Done?;
    } else {
      forall k: nat ensures After(n, size, overlap, k) == At(0) { LoopIsStuck(n, size, overlap, k); }
    }
  }
}
