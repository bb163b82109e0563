/** Merging the matches of several retrievers into one ranked list. */
module Matches {
  import opened Sequences

  datatype Match = Match(chunkId: string, score: real, content: string)

  // ----- merging by chunk

  function ChunkIndex(merged: seq<Match>, chunkId: string): (i: int)
    ensures -1 <= i < |merged|
    ensures i >= 0 ==> merged[i].chunkId == chunkId
    ensures i < 0 ==> forall k :: 0 <= k < |merged| ==> merged[k].chunkId != chunkId
  {
    if |merged| == 0 then -1
    else if merged[|merged| - 1].chunkId == chunkId then |merged| - 1
    else ChunkIndex(merged[..|merged| - 1], chunkId)
  }

  /** A JavaScript `Map` keyed by chunk id: a new chunk goes last, a better match takes the place of its chunk. */
  function Upsert(merged: seq<Match>, m: Match): seq<Match> {
    var i := ChunkIndex(merged, m.chunkId);
    if i < 0 then merged + [m]
    else if merged[i].score < m.score then merged[i := m]
    else merged
  }

  function MergeAll(matches: seq<Match>): seq<Match> {
    if |matches| == 0 then []
    else Upsert(MergeAll(matches[..|matches| - 1]), matches[|matches| - 1])
  }

  function Flatten(results: seq<seq<Match>>): seq<Match> {
    if |results| == 0 then [] else Flatten(results[..|results| - 1]) + results[|results| - 1]
  }

  // ----- ranking

  /** Stable insertion into a descending list: behind all matches that score at least as much. */
  function InsertByScore(ranked: seq<Match>, m: Match): (r: seq<Match>)
    ensures |r| == |ranked| + 1
  {
    if |ranked| == 0 || ranked[|ranked| - 1].score >= m.score then ranked + [m]
    else InsertByScore(ranked[..|ranked| - 1], m) + [ranked[|ranked| - 1]]
  }

  /** The stable `sort((a, b) => b.score - a.score)`. */
  function SortByScore(matches: seq<Match>): (r: seq<Match>)
    ensures |r| == |matches|
  {
    if |matches| == 0 then []
    else InsertByScore(SortByScore(matches[..|matches| - 1]), matches[|matches| - 1])
  }

  function Limit(topK: int): (n: nat)
    ensures 1 <= n <= 50
  {
    var capped := if topK < 50 then topK else 50;
    if capped < 1 then 1 else capped
  }

  function Take(matches: seq<Match>, n: nat): seq<Match> {
    if |matches| <= n then matches else matches[..n]
  }

  lemma MergeNothing()
    ensures MergeAll([]) == [] && MergeAll(Flatten([])) == []
  {
  }

  lemma MergeOneMore(matches: seq<Match>, m: Match)
    ensures MergeAll(matches + [m]) == Upsert(MergeAll(matches), m)
  {
    assert (matches + [m])[..|matches|] == matches;
  }

  method MergeRetrieverMatches(results: seq<seq<Match>>, topK: int) returns (merged: seq<Match>)
    ensures merged == Take(Ranked(Flatten(results)), Limit(topK))
  {
    hide MergeAll;
    hide ChunkIndex;
    var mergedByChunk: seq<Match> := [];
    MergeNothing();
    for r := 0 to |results|
      invariant mergedByChunk == MergeAll(Flatten(results[..r]))
    {
      assert results[..r + 1][..r] == results[..r];
      var matches := results[r];
      ghost var before := Flatten(results[..r]);
      assert before + matches[..0] == before;
      assert Flatten(results[..r + 1]) == before + matches;
      for k := 0 to |matches|
        invariant mergedByChunk == MergeAll(before + matches[..k])
      {
        assert before + matches[..k + 1] == before + matches[..k] + [matches[k]];
        MergeOneMore(before + matches[..k], matches[k]);
        var existing := ChunkIndex(mergedByChunk, matches[k].chunkId);
        if existing < 0 {
          mergedByChunk := mergedByChunk + [matches[k]];
        } else if mergedByChunk[existing].score < matches[k].score {
          mergedByChunk := mergedByChunk[existing := matches[k]];
        }
      }
      assert matches[..|matches|] == matches;
    }
    assert results[..|results|] == results;
    merged := Take(SortByScore(mergedByChunk), Limit(topK));
  }

  // ----- what merging means

  ghost predicate DistinctChunks(s: seq<Match>) {
    forall i, j :: 0 <= i < j < |s| ==> s[i].chunkId != s[j].chunkId
  }

  ghost predicate Descending(s: seq<Match>) {
    forall i, j :: 0 <= i < j < |s| ==> s[i].score >= s[j].score
  }

  /** `m` scores at least as much as every match of its chunk. */
  ghost predicate BestOfChunk(matches: seq<Match>, m: Match) {
    forall k :: 0 <= k < |matches| && matches[k].chunkId == m.chunkId ==> matches[k].score <= m.score
  }

  ghost predicate HasChunk(s: seq<Match>, chunkId: string) {
    exists k :: 0 <= k < |s| && s[k].chunkId == chunkId
  }

  /** One best match for each chunk that occurs, and nothing else. */
  ghost predicate BestPerChunk(matches: seq<Match>, merged: seq<Match>) {
    && DistinctChunks(merged)
    && (forall i :: 0 <= i < |merged| ==> merged[i] in matches && BestOfChunk(matches, merged[i]))
    && (forall k :: 0 <= k < |matches| ==> HasChunk(merged, matches[k].chunkId))
  }

  lemma {:induction false} MergeAllIsBestPerChunk(matches: seq<Match>)
    ensures BestPerChunk(matches, MergeAll(matches))
  {
    if |matches| > 0 {
      var init, m := matches[..|matches| - 1], matches[|matches| - 1];
      MergeAllIsBestPerChunk(init);
      assert matches == init + [m];
      hide MergeAll;
      UpsertKeepsBest(init, MergeAll(init), m);
      assert MergeAll(matches) == Upsert(MergeAll(init), m);
    }
  }

  lemma UpsertKeepsBest(matches: seq<Match>, merged: seq<Match>, m: Match)
    requires BestPerChunk(matches, merged)
    ensures BestPerChunk(matches + [m], Upsert(merged, m))
  {
    hide HasChunk;
    hide BestOfChunk;
    var i := ChunkIndex(merged, m.chunkId);
    var r := Upsert(merged, m);
    var all := matches + [m];
    assert forall k :: 0 <= k < |matches| ==> all[k] == matches[k];
    assert all[|matches|] == m;
    forall a, b | 0 <= a < b < |r| ensures r[a].chunkId != r[b].chunkId {
      if b < |merged| { assert merged[a].chunkId != merged[b].chunkId; }
    }
    forall a | 0 <= a < |r| ensures r[a] in all && BestOfChunk(all, r[a]) {
      UpsertedIsBest(matches, merged, m, a);
    }
    forall k | 0 <= k < |all| ensures HasChunk(r, all[k].chunkId) {
      UpsertHasChunk(matches, merged, m, k);
    }
  }

  lemma UpsertedIsBest(matches: seq<Match>, merged: seq<Match>, m: Match, a: nat)
    requires BestPerChunk(matches, merged) && a < |Upsert(merged, m)|
    ensures Upsert(merged, m)[a] in matches + [m] && BestOfChunk(matches + [m], Upsert(merged, m)[a])
  {
    hide HasChunk;
    var i, r, all := ChunkIndex(merged, m.chunkId), Upsert(merged, m), matches + [m];
    hide ChunkIndex;
    if r[a] != m {
      assert r[a] == merged[a] && merged[a] in matches && BestOfChunk(matches, merged[a]);
      if r[a].chunkId == m.chunkId { assert a == i; }
    } else if i >= 0 {
      assert BestOfChunk(matches, merged[i]);
    } else {
      NoChunk(matches, merged, m.chunkId);
    }
  }

  lemma NoChunk(matches: seq<Match>, merged: seq<Match>, chunkId: string)
    requires BestPerChunk(matches, merged) && ChunkIndex(merged, chunkId) < 0
    ensures forall k :: 0 <= k < |matches| ==> matches[k].chunkId != chunkId
  {
    forall k | 0 <= k < |matches| ensures matches[k].chunkId != chunkId {
      assert HasChunk(merged, matches[k].chunkId);
    }
  }

  lemma UpsertHasChunk(matches: seq<Match>, merged: seq<Match>, m: Match, k: nat)
    requires BestPerChunk(matches, merged) && k <= |matches|
    ensures HasChunk(Upsert(merged, m), (matches + [m])[k].chunkId)
  {
    var i, r := ChunkIndex(merged, m.chunkId), Upsert(merged, m);
    if k < |matches| {
      assert HasChunk(merged, matches[k].chunkId);
      var a :| 0 <= a < |merged| && merged[a].chunkId == matches[k].chunkId;
      assert r[a].chunkId == matches[k].chunkId;
    } else {
      assert r[if i < 0 then |merged| else i].chunkId == m.chunkId;
    }
  }

  // ----- what ranking means

  lemma {:induction false} InsertPermutes(ranked: seq<Match>, m: Match)
    ensures multiset(InsertByScore(ranked, m)) == multiset(ranked) + multiset{m}
  {
    if |ranked| > 0 && ranked[|ranked| - 1].score < m.score {
      InsertPermutes(ranked[..|ranked| - 1], m);
      assert ranked == ranked[..|ranked| - 1] + [ranked[|ranked| - 1]];
    }
  }

  ghost predicate AllAtLeast(s: seq<Match>, x: real) {
    forall i :: 0 <= i < |s| ==> s[i].score >= x
  }

  lemma {:induction false} InsertRanks(ranked: seq<Match>, m: Match)
    requires Descending(ranked)
    ensures Descending(InsertByScore(ranked, m))
    ensures forall x :: AllAtLeast(ranked, x) && m.score >= x ==> AllAtLeast(InsertByScore(ranked, m), x)
  {
    if |ranked| > 0 && ranked[|ranked| - 1].score < m.score {
      var init, last := ranked[..|ranked| - 1], ranked[|ranked| - 1];
      InsertRanks(init, m);
      assert AllAtLeast(init, last.score);
      assert forall x :: AllAtLeast(ranked, x) ==> AllAtLeast(init, x) && last.score >= x;
    }
  }

  lemma {:induction false} SortRanks(matches: seq<Match>)
    ensures Descending(SortByScore(matches)) && multiset(SortByScore(matches)) == multiset(matches)
  {
    if |matches| > 0 {
      var init, last := matches[..|matches| - 1], matches[|matches| - 1];
      SortRanks(init);
      InsertRanks(SortByScore(init), last);
      InsertPermutes(SortByScore(init), last);
      assert matches == init + [last];
    }
  }

  lemma {:induction false} InsertKeepsDistinct(ranked: seq<Match>, m: Match)
    requires DistinctChunks(ranked) && !HasChunk(ranked, m.chunkId)
    ensures DistinctChunks(InsertByScore(ranked, m))
    ensures forall c :: HasChunk(InsertByScore(ranked, m), c) ==> c == m.chunkId || HasChunk(ranked, c)
  {
    if |ranked| > 0 && ranked[|ranked| - 1].score < m.score {
      var init, last := ranked[..|ranked| - 1], ranked[|ranked| - 1];
      forall c | HasChunk(init, c) ensures HasChunk(ranked, c) {
        var k :| 0 <= k < |init| && init[k].chunkId == c;
        assert ranked[k].chunkId == c;
      }
      InsertKeepsDistinct(init, m);
      var r := InsertByScore(init, m);
      forall i | 0 <= i < |r| ensures r[i].chunkId != last.chunkId {
        assert HasChunk(r, r[i].chunkId);
        assert ranked[|ranked| - 1].chunkId == last.chunkId;
      }
      forall c | HasChunk(r + [last], c) ensures c == m.chunkId || HasChunk(ranked, c) {
        var k :| 0 <= k < |r + [last]| && (r + [last])[k].chunkId == c;
        if k < |r| { assert HasChunk(r, c); } else { assert ranked[|ranked| - 1].chunkId == c; }
      }
    } else {
      var r := ranked + [m];
      forall c | HasChunk(r, c) ensures c == m.chunkId || HasChunk(ranked, c) {
        var k :| 0 <= k < |r| && r[k].chunkId == c;
        if k < |ranked| { assert ranked[k].chunkId == c; }
      }
    }
  }

  lemma {:induction false} SortKeepsDistinct(matches: seq<Match>)
    requires DistinctChunks(matches)
    ensures DistinctChunks(SortByScore(matches))
    ensures forall c :: HasChunk(SortByScore(matches), c) ==> HasChunk(matches, c)
  {
    if |matches| > 0 {
      var init, last := matches[..|matches| - 1], matches[|matches| - 1];
      SortKeepsDistinct(init);
      assert !HasChunk(init, last.chunkId);
      InsertKeepsDistinct(SortByScore(init), last);
      forall c | HasChunk(init, c) ensures HasChunk(matches, c) {
        var k :| 0 <= k < |init| && init[k].chunkId == c;
        assert matches[k].chunkId == c;
      }
      assert HasChunk(matches, last.chunkId);
    }
  }

  function Chunks(s: seq<Match>): set<string> {
    set m | m in s :: m.chunkId
  }

  lemma {:induction false} DistinctChunksCount(s: seq<Match>)
    requires DistinctChunks(s)
    ensures |Chunks(s)| == |s|
  {
    if |s| > 0 {
      var init, last := s[..|s| - 1], s[|s| - 1];
      DistinctChunksCount(init);
      assert s == init + [last];
      assert Chunks(s) == Chunks(init) + {last.chunkId};
    }
  }

  function Ranked(matches: seq<Match>): seq<Match> {
    SortByScore(MergeAll(matches))
  }

  lemma RankedIsBestPerChunk(matches: seq<Match>)
    ensures Descending(Ranked(matches)) && BestPerChunk(matches, Ranked(matches))
  {
    var merged := MergeAll(matches);
    MergeAllIsBestPerChunk(matches);
    SortRanks(merged);
    SortKeepsDistinct(merged);
    hide SortByScore;
    hide MergeAll;
    hide BestPerChunk;
    PermutedBestPerChunk(matches, merged, SortByScore(merged));
  }

  lemma PermutedBestPerChunk(matches: seq<Match>, merged: seq<Match>, ranked: seq<Match>)
    requires BestPerChunk(matches, merged) && multiset(ranked) == multiset(merged) && DistinctChunks(ranked)
    ensures BestPerChunk(matches, ranked)
  {
    hide BestOfChunk;
    SamePermutation(ranked, merged);
    hide DistinctChunks;
    forall k | 0 <= k < |matches| ensures HasChunk(ranked, matches[k].chunkId) {
      assert HasChunk(merged, matches[k].chunkId);
      var a :| 0 <= a < |merged| && merged[a].chunkId == matches[k].chunkId;
      var b :| 0 <= b < |ranked| && ranked[b] == merged[a];
    }
  }

  lemma SamePermutation(s: seq<Match>, t: seq<Match>)
    requires multiset(s) == multiset(t)
    ensures forall i :: 0 <= i < |s| ==> s[i] in t
    ensures forall i :: 0 <= i < |t| ==> t[i] in s
  {
    forall i | 0 <= i < |s| ensures s[i] in t { assert s[i] in multiset(s); }
    forall i | 0 <= i < |t| ensures t[i] in s { assert t[i] in multiset(t); }
  }

  /** The merged list: distinct chunks, each with its best match over all retrievers, best first, as many as there
      are chunks or as the limit allows, and nothing left out beats what was kept. */
  lemma MergeMeetsSpecification(results: seq<seq<Match>>, topK: int)
    ensures var all := Flatten(results);
      var r := Take(Ranked(all), Limit(topK));
      && DistinctChunks(r) && Descending(r)
      && (forall i :: 0 <= i < |r| ==> r[i] in all && BestOfChunk(all, r[i]))
      && |r| == (if |Chunks(all)| < Limit(topK) then |Chunks(all)| else Limit(topK))
      && (forall k, i :: 0 <= k < |all| && !HasChunk(r, all[k].chunkId) && 0 <= i < |r| ==> r[i].score >= all[k].score)
  {
    var all := Flatten(results);
    var ranked := Ranked(all);
    var r := Take(ranked, Limit(topK));
    RankedIsBestPerChunk(all);
    hide Ranked;
    hide Flatten;
    hide Limit;
    SameChunks(all, ranked);
    DistinctChunksCount(ranked);
    hide Chunks;
    assert forall i :: 0 <= i < |r| ==> r[i] == ranked[i];
    forall k, i | 0 <= k < |all| && !HasChunk(r, all[k].chunkId) && 0 <= i < |r|
      ensures r[i].score >= all[k].score
    {
      assert HasChunk(ranked, all[k].chunkId);
      var a :| 0 <= a < |ranked| && ranked[a].chunkId == all[k].chunkId;
      assert BestOfChunk(all, ranked[a]);
      assert forall b :: 0 <= b < |r| ==> r[b].chunkId != all[k].chunkId;
    }
  }

  lemma SameChunks(matches: seq<Match>, merged: seq<Match>)
    requires BestPerChunk(matches, merged)
    ensures Chunks(merged) == Chunks(matches)
  {
    forall c | c in Chunks(matches) ensures c in Chunks(merged) {
      var k :| 0 <= k < |matches| && matches[k].chunkId == c;
      assert HasChunk(merged, matches[k].chunkId);
    }
  }

  // ----- the order of the retrievers

  ghost function Scored(s: seq<Match>): set<(string, real)> {
    set m | m in s :: (m.chunkId, m.score)
  }

  lemma {:induction false} ScoredPrefixSize(s: seq<Match>, n: nat)
    requires DistinctChunks(s) && n <= |s|
    ensures |Scored(s[..n])| == n
  {
    if n > 0 {
      ScoredPrefixSize(s, n - 1);
      assert s[..n] == s[..n - 1] + [s[n - 1]];
      assert Scored(s[..n]) == Scored(s[..n - 1]) + {(s[n - 1].chunkId, s[n - 1].score)};
      assert (s[n - 1].chunkId, s[n - 1].score) !in Scored(s[..n - 1]);
    }
  }

  lemma FrontStandsBefore(s: seq<Match>, t: seq<Match>, i: nat, k: nat)
    requires Descending(s) && Descending(t) && Scored(s) == Scored(t)
    requires i < |s| && k == (if i < |t| then i else |t|)
    requires i >= |t| || s[i].score > t[i].score
    ensures Scored(s[..i + 1]) <= Scored(t[..k])
  {
    forall p | p in Scored(s[..i + 1]) ensures p in Scored(t[..k]) {
      var a :| 0 <= a < i + 1 && p == (s[a].chunkId, s[a].score);
      assert s[a] in s && p in Scored(t);
      var b :| 0 <= b < |t| && p == (t[b].chunkId, t[b].score);
      assert b < k && t[..k][b] == t[b];
    }
  }

  /** Of two rankings of the same scored chunks, neither has a better score at any rank. */
  lemma NoBetterAtRank(s: seq<Match>, t: seq<Match>, i: nat)
    requires DistinctChunks(s) && Descending(s) && DistinctChunks(t) && Descending(t) && Scored(s) == Scored(t)
    requires i < |s|
    ensures i < |t| && s[i].score <= t[i].score
  {
    hide *;
    var k := if i < |t| then i else |t|;
    ScoredPrefixSize(s, i + 1);
    ScoredPrefixSize(t, k);
    if i >= |t| || s[i].score > t[i].score {
      FrontStandsBefore(s, t, i, k);
      SubsetCount(Scored(s[..i + 1]), Scored(t[..k]));
      assert false;
    }
  }

  lemma SubsetCount<T>(a: set<T>, b: set<T>)
    requires a <= b
    ensures |a| <= |b|
  {
    assert b == a + (b - a);
  }

  lemma BestPerChunkFixesScores(m1: seq<Match>, m2: seq<Match>, r1: seq<Match>, r2: seq<Match>)
    requires BestPerChunk(m1, r1) && BestPerChunk(m2, r2) && multiset(m1) == multiset(m2)
    ensures Scored(r1) <= Scored(r2)
  {
    SamePermutation(m1, m2);
    forall p | p in Scored(r1) ensures p in Scored(r2) {
      var i :| 0 <= i < |r1| && p == (r1[i].chunkId, r1[i].score);
      assert r1[i] in m1 && BestOfChunk(m1, r1[i]);
      var k :| 0 <= k < |m1| && m1[k] == r1[i];
      assert m1[k] in m2;
      var k2 :| 0 <= k2 < |m2| && m2[k2] == r1[i];
      assert HasChunk(r2, m2[k2].chunkId);
      var j :| 0 <= j < |r2| && r2[j].chunkId == r1[i].chunkId;
      assert r2[j] in m2 && BestOfChunk(m2, r2[j]);
      var k3 :| 0 <= k3 < |m2| && m2[k3] == r2[j];
      assert m2[k3] in m1;
      assert r2[j].score == r1[i].score;
      assert r2[j] in r2;
    }
  }

  lemma SameScoresAtRanks(r1: seq<Match>, r2: seq<Match>)
    requires DistinctChunks(r1) && Descending(r1) && DistinctChunks(r2) && Descending(r2) && Scored(r1) == Scored(r2)
    ensures |r1| == |r2| && forall i :: 0 <= i < |r1| ==> r1[i].score == r2[i].score
  {
    forall i | 0 <= i < |r1| ensures i < |r2| && r1[i].score <= r2[i].score { NoBetterAtRank(r1, r2, i); }
    forall i | 0 <= i < |r2| ensures i < |r1| && r2[i].score <= r1[i].score { NoBetterAtRank(r2, r1, i); }
    if |r1| > 0 { NoBetterAtRank(r1, r2, |r1| - 1); }
    if |r2| > 0 { NoBetterAtRank(r2, r1, |r2| - 1); }
  }

  /** The scores of the merged list, rank by rank, depend only on which matches there are. */
  lemma ScoresIgnoreMatchOrder(results: seq<seq<Match>>, others: seq<seq<Match>>, topK: int)
    requires multiset(Flatten(results)) == multiset(Flatten(others))
    ensures var r, o := Take(Ranked(Flatten(results)), Limit(topK)), Take(Ranked(Flatten(others)), Limit(topK));
      |r| == |o| && forall i :: 0 <= i < |r| ==> r[i].score == o[i].score
  {
    var m1, m2 := Flatten(results), Flatten(others);
    RankedIsBestPerChunk(m1);
    RankedIsBestPerChunk(m2);
    hide Ranked;
    hide Flatten;
    hide Scored;
    hide Limit;
    BestPerChunkFixesScores(m1, m2, Ranked(m1), Ranked(m2));
    BestPerChunkFixesScores(m2, m1, Ranked(m2), Ranked(m1));
    SameScoresAtRanks(Ranked(m1), Ranked(m2));
  }

  /** Taking one retriever's matches out. */
  lemma {:induction false} FlattenWithout(results: seq<seq<Match>>, i: nat)
    requires i < |results|
    ensures multiset(Flatten(results)) == multiset(Flatten(Without(results, i))) + multiset(results[i])
  {
    var n := |results| - 1;
    var rest := Without(results, i);
    if i == n {
      assert rest == results[..n];
    } else {
      FlattenWithout(results[..n], i);
      assert rest[..|rest| - 1] == Without(results[..n], i) && rest[|rest| - 1] == results[n];
      assert Flatten(results) == Flatten(results[..n]) + results[n];
      assert Flatten(rest) == Flatten(rest[..|rest| - 1]) + results[n];
      hide *;
    }
  }

  lemma {:induction false} FlattenPermuted(results: seq<seq<Match>>, others: seq<seq<Match>>)
    requires multiset(results) == multiset(others)
    ensures multiset(Flatten(results)) == multiset(Flatten(others))
  {
    if |results| > 0 {
      var i := PermutedLast(results, others);
      FlattenPermuted(results[..|results| - 1], Without(others, i));
      FlattenWithout(others, i);
      hide Without;
    } else {
      assert |others| == |multiset(others)| == 0;
    }
  }

  /** So they do not depend on the order of the retrievers. */
  lemma ScoresIgnoreRetrieverOrder(results: seq<seq<Match>>, others: seq<seq<Match>>, topK: int)
    requires multiset(results) == multiset(others)
    ensures var r, o := Take(Ranked(Flatten(results)), Limit(topK)), Take(Ranked(Flatten(others)), Limit(topK));
      |r| == |o| && forall i :: 0 <= i < |r| ==> r[i].score == o[i].score
  {
    FlattenPermuted(results, others);
    ScoresIgnoreMatchOrder(results, others, topK);
  }

  // ----- the second merger, in the knowledge-retrieve node

  method MergeMatches(matches: seq<Match>) returns (merged: seq<Match>)
    ensures merged == Ranked(matches)
  {
    hide MergeAll;
    hide ChunkIndex;
    var byChunk: seq<Match> := [];
    MergeNothing();
    for k := 0 to |matches|
      invariant byChunk == MergeAll(matches[..k])
    {
      assert matches[..k + 1] == matches[..k] + [matches[k]];
      MergeOneMore(matches[..k], matches[k]);
      var existing := ChunkIndex(byChunk, matches[k].chunkId);
      if existing < 0 {
        byChunk := byChunk + [matches[k]];
      } else if matches[k].score > byChunk[existing].score {
        byChunk := byChunk[existing := matches[k]];
      }
    }
    assert matches[..|matches|] == matches;
    merged := SortByScore(byChunk);
  }

  /** JavaScript's `slice(0, n)`: a negative bound counts from the end. */
  function Slice(s: seq<Match>, n: int): seq<Match> {
    if n >= 0 then Take(s, n)
    else if |s| + n >= 0 then s[..|s| + n]
    else []
  }

  /** The node merges like the engine exactly when cutting at its first branch's `topK` and cutting at the engine's
      clamped limit keep equally many matches; every `topK` from 1 to 50 does. */
  lemma {:induction false} MergersAgree(matches: seq<Match>, topK: int)
    ensures 1 <= topK <= 50 ==> Slice(Ranked(matches), topK) == Take(Ranked(matches), Limit(topK))
    ensures topK > 50 ==>
      (Slice(Ranked(matches), topK) == Take(Ranked(matches), Limit(topK)) <==> |Chunks(matches)| <= 50)
    ensures topK <= 0 ==>
      (Slice(Ranked(matches), topK) == Take(Ranked(matches), Limit(topK)) <==>
        matches == [] || (topK < 0 && |Chunks(matches)| == 1 - topK))
  {
    RankedIsBestPerChunk(matches);
    SameChunks(matches, Ranked(matches));
    DistinctChunksCount(Ranked(matches));
    var ranked := Ranked(matches);
    hide Ranked;
    if matches != [] { assert HasChunk(ranked, matches[0].chunkId); }
    if ranked != [] { assert ranked[0] in matches; }
  }
}
