/** Chunking a document page by page: offsets, page numbers and running indices. */
module Pages {
  import opened Text
  import opened Chunking

  const PAGE_CHUNK_SIZE: nat := 1200
  const PAGE_CHUNK_OVERLAP: nat := 200

  datatype PageChunk = PageChunk(index: nat, content: string, startOffset: nat, endOffset: nat, pageNumber: nat)

  /** The pages of a text with one more character. */
  function WithChar(pages: seq<string>, c: char): (r: seq<string>)
    requires |pages| > 0
    ensures |r| > 0
  {
    var last := |pages| - 1;
    if c == '\U{000C}' then pages + [""] else pages[last := pages[last] + [c]]
  }

  /** `split("\f")` */
  function Split(s: string): (pages: seq<string>)
    ensures |pages| > 0
  {
    if s == "" then [""] else WithChar(Split(s[..|s| - 1]), s[|s| - 1])
  }

  /** The offset at which page `p` begins. */
  function Base(pages: seq<string>, p: nat): nat
    requires p <= |pages|
  {
    if p == 0 then 0 else Base(pages, p - 1) + |pages[p - 1]| + 1
  }

  lemma BaseOfPrefix(pages: seq<string>, others: seq<string>, p: nat)
    requires p <= |pages| && p <= |others| && pages[..p] == others[..p]
    ensures Base(pages, p) == Base(others, p)
  {
    if p > 0 {
      assert pages[p - 1] == pages[..p][p - 1] == others[p - 1];
      assert pages[..p - 1] == pages[..p][..p - 1] && others[..p - 1] == others[..p][..p - 1];
      BaseOfPrefix(pages, others, p - 1);
    }
  }

  lemma OneMoreChar(rest: seq<string>, c: char)
    requires |rest| > 0
    ensures var pages, last := WithChar(rest, c), |rest| - 1;
      && |pages| >= |rest| && pages[..last] == rest[..last]
      && (if c == '\U{000C}' then pages == rest + [""]
          else |pages| == |rest| && pages[last] == rest[last] + [c])
  {
  }

  lemma BaseOneMoreChar(rest: seq<string>, c: char)
    requires |rest| > 0
    ensures var pages := WithChar(rest, c); Base(pages, |pages|) == Base(rest, |rest|) + 1
  {
    var pages, last := WithChar(rest, c), |rest| - 1;
    OneMoreChar(rest, c);
    BaseOfPrefix(pages, rest, last);
    if c == '\U{000C}' {
      assert pages[..|rest|] == rest[..|rest|];
      BaseOfPrefix(pages, rest, |rest|);
    }
  }

  /** The pages with their separators make up the document. */
  lemma {:induction false} PagesFillDocument(s: string)
    ensures Base(Split(s), |Split(s)|) == |s| + 1
  {
    if s != "" {
      PagesFillDocument(s[..|s| - 1]);
      BaseOneMoreChar(Split(s[..|s| - 1]), s[|s| - 1]);
      hide Base;
      hide WithChar;
    }
  }

  ghost predicate StandsAt(s: string, page: string, base: nat) {
    base + |page| <= |s| && s[base..base + |page|] == page
  }

  lemma StandsInLonger(s: string, page: string, base: nat)
    requires s != "" && StandsAt(s[..|s| - 1], page, base)
    ensures StandsAt(s, page, base)
    ensures base + |page| == |s| - 1 ==> StandsAt(s, page + [s[|s| - 1]], base)
  {
    assert s[base..base + |page|] == s[..|s| - 1][base..base + |page|];
  }

  /** A page stands in the document at its base. */
  lemma {:induction false} PageStandsAtBase(s: string, p: nat)
    requires p < |Split(s)|
    ensures StandsAt(s, Split(s)[p], Base(Split(s), p))
  {
    if s == "" {
      assert Split(s) == [""];
    } else {
      var init := s[..|s| - 1];
      var pages, rest := Split(s), Split(init);
      var last := |rest| - 1;
      OneMoreChar(rest, s[|s| - 1]);
      PagesFillDocument(init);
      PagesFillDocument(s);
      if p <= last { PageStandsAtBase(init, p); }
      hide Split;
      if p <= last {
        assert pages[..p] == pages[..last][..p] == rest[..last][..p] == rest[..p];
        BaseOfPrefix(pages, rest, p);
        StandsInLonger(s, rest[p], Base(rest, p));
        assert p < last ==> pages[p] == pages[..last][p] == rest[..last][p] == rest[p];
      }
    }
  }

  /** No page holds a form feed, and one stands before every page but the first. */
  lemma {:induction false} PagesAreSeparated(s: string, p: nat)
    requires p < |Split(s)|
    ensures '\U{000C}' !in Split(s)[p]
    ensures p > 0 ==> Base(Split(s), p) <= |s| && s[Base(Split(s), p) - 1] == '\U{000C}'
  {
    if s == "" {
      assert Split(s) == [""];
    } else {
      var init, c := s[..|s| - 1], s[|s| - 1];
      var pages, rest := Split(s), Split(init);
      var last := |rest| - 1;
      OneMoreChar(rest, c);
      PagesFillDocument(init);
      hide StandsAt;
      PagesAreSeparated(init, if p <= last then p else last);
      hide Split;
      SeparatedOneMore(init, c, rest, pages, p);
      assert s == init + [c];
    }
  }

  lemma SeparatedOneMore(init: string, c: char, rest: seq<string>, pages: seq<string>, p: nat)
    requires |rest| > 0 && pages == WithChar(rest, c) && p < |pages|
    requires Base(rest, |rest|) == |init| + 1
    requires '\U{000C}' !in rest[if p < |rest| then p else |rest| - 1]
    requires 0 < p < |rest| ==> Base(rest, p) <= |init| && init[Base(rest, p) - 1] == '\U{000C}'
    ensures '\U{000C}' !in pages[p]
    ensures p > 0 ==> Base(pages, p) <= |init + [c]| && (init + [c])[Base(pages, p) - 1] == '\U{000C}'
  {
    var last := |rest| - 1;
    OneMoreChar(rest, c);
    if p <= last {
      assert pages[..p] == pages[..last][..p] == rest[..last][..p] == rest[..p];
      assert p < last ==> pages[p] == pages[..last][p] == rest[..last][p] == rest[p];
      BaseOfPrefix(pages, rest, p);
      assert p > 0 ==> Base(rest, p) > 0;
      hide Base;
    } else {
      assert pages == rest + [""] && pages[..|rest|] == rest[..|rest|];
      BaseOfPrefix(pages, rest, |rest|);
      hide Base;
    }
  }

  /** The chunks of one page, moved to its base. */
  function Moved(chunks: seq<TextChunk>, index: nat, base: nat, pageNumber: nat): seq<PageChunk> {
    seq(|chunks|, i requires 0 <= i < |chunks| =>
      PageChunk(index + i, chunks[i].content, base + chunks[i].start, base + chunks[i].end, pageNumber))
  }

  function PageText(page: string): seq<TextChunk> {
    var text := Normalize(page);
    if text == "" then [] else ChunksFrom(text, PAGE_CHUNK_SIZE, PAGE_CHUNK_OVERLAP, 0, 0)
  }

  /** The chunks of the first `n` pages. */
  function PageChunks(pages: seq<string>, n: nat): seq<PageChunk>
    requires n <= |pages|
  {
    if n == 0 then []
    else
      var before := PageChunks(pages, n - 1);
      before + Moved(PageText(pages[n - 1]), |before|, Base(pages, n - 1), n)
  }

  lemma NoPages(pages: seq<string>)
    ensures PageChunks(pages, 0) == [] && Base(pages, 0) == 0 && WellPlaced(pages, 0, [])
  {
  }

  lemma NextPage(pages: seq<string>, n: nat)
    requires n < |pages|
    ensures var before := PageChunks(pages, n);
      PageChunks(pages, n + 1) == before + Moved(PageText(pages[n]), |before|, Base(pages, n), n + 1)
    ensures Base(pages, n + 1) == Base(pages, n) + |pages[n]| + 1
  {
  }

  method ChunkDocumentByPage(contentText: string) returns (chunksWithPage: seq<PageChunk>)
    ensures chunksWithPage == PageChunks(Split(contentText), |Split(contentText)|)
  {
    hide PageChunks;
    hide Base;
    hide ChunksFrom;
    hide Normalize;
    var pageTexts := Split(contentText);
    chunksWithPage := [];
    NoPages(pageTexts);
    var chunkIndex: nat := 0;
    var cumulativeOffset: nat := 0;
    for pageIndex := 0 to |pageTexts|
      invariant chunksWithPage == PageChunks(pageTexts, pageIndex)
      invariant chunkIndex == |chunksWithPage| && cumulativeOffset == Base(pageTexts, pageIndex)
    {
      var pageText := pageTexts[pageIndex];
      var pageChunks := ChunkText(pageText, PAGE_CHUNK_SIZE, PAGE_CHUNK_OVERLAP);
      assert pageChunks == PageText(pageText);
      NextPage(pageTexts, pageIndex);
      hide PageText;
      ghost var before := chunksWithPage;
      ghost var moved := Moved(pageChunks, |before|, cumulativeOffset, pageIndex + 1);
      for i := 0 to |pageChunks|
        invariant chunksWithPage == before + moved[..i] && chunkIndex == |before| + i
      {
        var chunk := pageChunks[i];
        chunksWithPage := chunksWithPage + [PageChunk(chunkIndex, chunk.content, cumulativeOffset + chunk.start,
                                                      cumulativeOffset + chunk.end, pageIndex + 1)];
        chunkIndex := chunkIndex + 1;
      }
      assert moved[..|pageChunks|] == moved;
      cumulativeOffset := cumulativeOffset + |pageText| + 1;
    }
  }

  // ----- what the chunks of a document look like

  /** The chunk lies inside its page. */
  ghost predicate InsidePage(pages: seq<string>, c: PageChunk) {
    && 1 <= c.pageNumber <= |pages|
    && Base(pages, c.pageNumber - 1) <= c.startOffset < c.endOffset
    && c.endOffset <= Base(pages, c.pageNumber - 1) + |pages[c.pageNumber - 1]|
  }

  ghost predicate WellPlaced(pages: seq<string>, n: nat, chunks: seq<PageChunk>)
    requires n <= |pages|
  {
    && (forall i :: 0 <= i < |chunks| ==> chunks[i].index == i && chunks[i].pageNumber <= n)
    && (forall i :: 0 <= i < |chunks| ==> InsidePage(pages, chunks[i]))
    && (forall i :: 0 < i < |chunks| ==>
         chunks[i - 1].startOffset < chunks[i].startOffset && chunks[i - 1].pageNumber <= chunks[i].pageNumber)
    && (forall i :: 0 <= i < |chunks| ==> chunks[i].startOffset < Base(pages, n))
  }

  lemma PageTextPlaced(page: string)
    ensures var c := PageText(page);
      && (forall i :: 0 <= i < |c| ==> c[i].start < c[i].end <= |page|)
      && (forall i :: 0 < i < |c| ==> c[i - 1].start < c[i].start)
  {
    hide ChunksFrom;
    hide Normalize;
    hide ChunkCount;
    hide Reassemble;
    hide AreWindows;
    if Normalize(page) != "" {
      ChunksCoverText(page, PAGE_CHUNK_SIZE, PAGE_CHUNK_OVERLAP);
      WindowsAscend(Normalize(page), ChunksFrom(Normalize(page), PAGE_CHUNK_SIZE, PAGE_CHUNK_OVERLAP, 0, 0));
    }
  }

  lemma WindowsAscend(text: string, c: seq<TextChunk>)
    requires AreWindows(text, PAGE_CHUNK_SIZE, PAGE_CHUNK_OVERLAP, c, 0, 0)
    ensures forall i :: 0 < i < |c| ==> c[i - 1].start < c[i].start
  {
    hide Trim;
    forall i | 0 < i < |c| ensures c[i - 1].start < c[i].start {
      var step := PAGE_CHUNK_SIZE - PAGE_CHUNK_OVERLAP;
      assert ChunkAt(text, PAGE_CHUNK_SIZE, PAGE_CHUNK_OVERLAP, c[i], 0 + i, 0 + i * step);
      assert ChunkAt(text, PAGE_CHUNK_SIZE, PAGE_CHUNK_OVERLAP, c[i - 1], 0 + (i - 1), 0 + (i - 1) * step);
    }
  }

  lemma {:induction false} PrefixWellPlaced(pages: seq<string>, n: nat)
    requires n <= |pages|
    ensures WellPlaced(pages, n, PageChunks(pages, n))
  {
    hide PageChunks;
    hide PageText;
    hide WellPlaced;
    hide Moved;
    hide Base;
    if n == 0 {
      NoPages(pages);
    } else {
      PrefixWellPlaced(pages, n - 1);
      PageTextPlaced(pages[n - 1]);
      AppendPage(pages, n, PageChunks(pages, n - 1), PageText(pages[n - 1]));
      NextPage(pages, n - 1);
    }
  }

  lemma AppendPage(pages: seq<string>, n: nat, before: seq<PageChunk>, c: seq<TextChunk>)
    requires 0 < n <= |pages| && WellPlaced(pages, n - 1, before)
    requires forall i :: 0 <= i < |c| ==> c[i].start < c[i].end <= |pages[n - 1]|
    requires forall i :: 0 < i < |c| ==> c[i - 1].start < c[i].start
    ensures WellPlaced(pages, n, before + Moved(c, |before|, Base(pages, n - 1), n))
  {
    var moved := Moved(c, |before|, Base(pages, n - 1), n);
    assert Base(pages, n) == Base(pages, n - 1) + |pages[n - 1]| + 1;
    hide Base;
    forall i | 0 <= i < |moved| ensures InsidePage(pages, moved[i]) { }
    hide InsidePage;
    var all := before + moved;
    forall i | 0 < i < |all|
      ensures all[i - 1].startOffset < all[i].startOffset && all[i - 1].pageNumber <= all[i].pageNumber
    {
      if i > |before| { assert all[i] == moved[i - |before|] && all[i - 1] == moved[i - 1 - |before|]; }
    }
  }

  /** Across all pages: running indices, strictly increasing starts, page numbers that never go back, and every chunk
      inside the page it names. */
  lemma DocumentChunksWellPlaced(contentText: string)
    ensures var pages := Split(contentText);
      WellPlaced(pages, |pages|, PageChunks(pages, |pages|))
  {
    PrefixWellPlaced(Split(contentText), |Split(contentText)|);
  }

  // ----- what the chunks of a document say

  /** The chunk shows the part of its page's normalised text that its offsets name, seen from the page's base. */
  ghost predicate ShowsText(pages: seq<string>, c: PageChunk) {
    && 1 <= c.pageNumber <= |pages|
    && var base, text := Base(pages, c.pageNumber - 1), Normalize(pages[c.pageNumber - 1]);
    && base <= c.startOffset <= c.endOffset <= base + |text|
    && c.content == Trim(text[c.startOffset - base..c.endOffset - base])
  }

  lemma PageTextShows(page: string)
    ensures var c, text := PageText(page), Normalize(page);
      forall i :: 0 <= i < |c| ==> c[i].start <= c[i].end <= |text| && c[i].content == Trim(text[c[i].start..c[i].end])
  {
    hide ChunksFrom;
    hide Normalize;
    hide ChunkCount;
    hide Reassemble;
    hide AreWindows;
    if Normalize(page) != "" {
      ChunksCoverText(page, PAGE_CHUNK_SIZE, PAGE_CHUNK_OVERLAP);
      WindowsShow(Normalize(page), ChunksFrom(Normalize(page), PAGE_CHUNK_SIZE, PAGE_CHUNK_OVERLAP, 0, 0));
    }
  }

  lemma WindowsShow(text: string, c: seq<TextChunk>)
    requires AreWindows(text, PAGE_CHUNK_SIZE, PAGE_CHUNK_OVERLAP, c, 0, 0)
    ensures forall i :: 0 <= i < |c| ==>
      c[i].start <= c[i].end <= |text| && c[i].content == Trim(text[c[i].start..c[i].end])
  {
    hide Trim;
    forall i | 0 <= i < |c|
      ensures c[i].start <= c[i].end <= |text| && c[i].content == Trim(text[c[i].start..c[i].end])
    {
      var step := PAGE_CHUNK_SIZE - PAGE_CHUNK_OVERLAP;
      assert ChunkAt(text, PAGE_CHUNK_SIZE, PAGE_CHUNK_OVERLAP, c[i], 0 + i, 0 + i * step);
    }
  }

  lemma {:induction false} ChunksShowTheirPage(pages: seq<string>, n: nat)
    requires n <= |pages|
    ensures forall i :: 0 <= i < |PageChunks(pages, n)| ==> ShowsText(pages, PageChunks(pages, n)[i])
  {
    hide PageChunks;
    hide PageText;
    hide Base;
    hide Normalize;
    hide Trim;
    if n == 0 {
      NoPages(pages);
    } else {
      ChunksShowTheirPage(pages, n - 1);
      PageTextShows(pages[n - 1]);
      NextPage(pages, n - 1);
      var before, c := PageChunks(pages, n - 1), PageText(pages[n - 1]);
      var moved := Moved(c, |before|, Base(pages, n - 1), n);
      forall i | 0 <= i < |moved| ensures ShowsText(pages, moved[i]) { }
    }
  }

  ghost predicate CoversAt(pages: seq<string>, c: PageChunk, p: nat, pos: nat)
    requires p <= |pages|
  {
    c.pageNumber == p + 1 && c.startOffset <= Base(pages, p) + pos < c.endOffset
  }

  lemma PageTextCovers(page: string, pos: nat) returns (k: nat)
    requires pos < |Normalize(page)|
    ensures k < |PageText(page)| && PageText(page)[k].start <= pos < PageText(page)[k].end
  {
    hide ChunksFrom;
    hide Normalize;
    hide ChunkCount;
    hide Reassemble;
    hide AreWindows;
    ChunksCoverText(page, PAGE_CHUNK_SIZE, PAGE_CHUNK_OVERLAP);
    assert Covered(PageText(page), pos);
    k :| 0 <= k < |PageText(page)| && PageText(page)[k].start <= pos < PageText(page)[k].end;
  }

  /** No position of any page's normalised text is left out. */
  lemma {:induction false} ChunksCoverEveryPage(pages: seq<string>, n: nat, p: nat, pos: nat) returns (i: nat)
    requires p < n <= |pages| && pos < |Normalize(pages[p])|
    ensures i < |PageChunks(pages, n)| && CoversAt(pages, PageChunks(pages, n)[i], p, pos)
  {
    hide *;
    var before, c := PageChunks(pages, n - 1), PageText(pages[n - 1]);
    var moved := Moved(c, |before|, Base(pages, n - 1), n);
    NextPage(pages, n - 1);
    if p < n - 1 {
      i := ChunksCoverEveryPage(pages, n - 1, p, pos);
      assert (before + moved)[i] == before[i];
    } else {
      var k := PageTextCovers(pages[p], pos);
      MovedCovers(pages, c, |before|, p, pos, k);
      i := |before| + k;
      assert (before + moved)[i] == moved[k];
    }
  }

  lemma MovedCovers(pages: seq<string>, c: seq<TextChunk>, index: nat, p: nat, pos: nat, k: nat)
    requires p < |pages| && k < |c| && c[k].start <= pos < c[k].end
    ensures |Moved(c, index, Base(pages, p), p + 1)| == |c|
    ensures CoversAt(pages, Moved(c, index, Base(pages, p), p + 1)[k], p, pos)
  {
  }
}
