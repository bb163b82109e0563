/** The merged ranking down to its ties: which of several equal matches is kept, and how equal scores are ordered. */
module Ranking {
  import opened Matches

  /** The first position of a chunk, or -1. */
  function FirstSeen(matches: seq<Match>, chunkId: string): (i: int)
    ensures -1 <= i < |matches|
    ensures i >= 0 ==> matches[i].chunkId == chunkId && forall k :: 0 <= k < i ==> matches[k].chunkId != chunkId
    ensures i < 0 ==> forall k :: 0 <= k < |matches| ==> matches[k].chunkId != chunkId
  {
    if |matches| == 0 then -1
    else
      var i := FirstSeen(matches[..|matches| - 1], chunkId);
      if i >= 0 then i else if matches[|matches| - 1].chunkId == chunkId then |matches| - 1 else -1
  }

  /** `m` is the first of the best matches of its chunk. */
  ghost predicate FirstBest(matches: seq<Match>, m: Match, k: nat) {
    && k < |matches| && matches[k] == m
    && (forall j :: 0 <= j < k && matches[j].chunkId == m.chunkId ==> matches[j].score < m.score)
    && (forall j :: k < j < |matches| && matches[j].chunkId == m.chunkId ==> matches[j].score <= m.score)
  }

  ghost predicate IsFirstBest(matches: seq<Match>, m: Match) {
    exists k: nat :: FirstBest(matches, m, k)
  }

  /** Better scores first; of equal scores the chunk that was seen first. */
  ghost predicate InOrder(matches: seq<Match>, ranked: seq<Match>) {
    forall i, j :: 0 <= i < j < |ranked| ==> Before(matches, ranked[i], ranked[j])
  }

  ghost predicate Before(matches: seq<Match>, a: Match, b: Match) {
    a.score > b.score
    || (a.score == b.score && FirstSeen(matches, a.chunkId) < FirstSeen(matches, b.chunkId))
  }

  // ----- merging

  /** The chunks of the merged list, in the order in which they were first seen. */
  ghost predicate AsSeen(matches: seq<Match>, merged: seq<Match>) {
    forall a, b :: 0 <= a < b < |merged| ==>
      FirstSeen(matches, merged[a].chunkId) < FirstSeen(matches, merged[b].chunkId)
  }

  lemma SeenStays(matches: seq<Match>, m: Match, chunkId: string)
    ensures FirstSeen(matches + [m], chunkId)
         == if FirstSeen(matches, chunkId) >= 0 then FirstSeen(matches, chunkId)
            else if m.chunkId == chunkId then |matches| else -1
  {
    assert (matches + [m])[..|matches|] == matches;
  }

  lemma UpsertAsSeen(init: seq<Match>, before: seq<Match>, m: Match)
    requires AsSeen(init, before) && BestPerChunk(init, before)
    ensures AsSeen(init + [m], Upsert(before, m))
  {
    var all, r := init + [m], Upsert(before, m);
    forall a | 0 <= a < |before|
      ensures r[a].chunkId == before[a].chunkId
      ensures FirstSeen(all, r[a].chunkId) == FirstSeen(init, before[a].chunkId) < |init|
    {
      OldChunkSeen(init, before, m, a);
    }
    if |r| > |before| { NewChunkSeen(init, before, m); }
    hide FirstSeen;
    hide Upsert;
    hide BestPerChunk;
    forall a, b | 0 <= a < b < |r| ensures FirstSeen(all, r[a].chunkId) < FirstSeen(all, r[b].chunkId) {
      if b < |before| {
        assert FirstSeen(init, before[a].chunkId) < FirstSeen(init, before[b].chunkId);
      }
    }
  }

  lemma OldChunkSeen(init: seq<Match>, before: seq<Match>, m: Match, a: nat)
    requires BestPerChunk(init, before) && a < |before|
    ensures |Upsert(before, m)| >= |before| && Upsert(before, m)[a].chunkId == before[a].chunkId
    ensures FirstSeen(init + [m], before[a].chunkId) == FirstSeen(init, before[a].chunkId) < |init|
  {
    assert before[a] in init;
    SeenStays(init, m, before[a].chunkId);
    hide HasChunk;
    hide BestOfChunk;
    assert FirstSeen(init, before[a].chunkId) >= 0;
  }

  lemma NewChunkSeen(init: seq<Match>, before: seq<Match>, m: Match)
    requires BestPerChunk(init, before) && |Upsert(before, m)| > |before|
    ensures Upsert(before, m) == before + [m] && FirstSeen(init + [m], m.chunkId) == |init|
  {
    NoChunk(init, before, m.chunkId);
    hide HasChunk;
    hide BestOfChunk;
    assert FirstSeen(init, m.chunkId) < 0;
    SeenStays(init, m, m.chunkId);
  }

  lemma {:induction false} MergedAsSeen(matches: seq<Match>)
    ensures AsSeen(matches, MergeAll(matches))
  {
    if |matches| > 0 {
      var init, m := matches[..|matches| - 1], matches[|matches| - 1];
      MergedAsSeen(init);
      MergeAllIsBestPerChunk(init);
      assert matches == init + [m];
      assert MergeAll(matches) == Upsert(MergeAll(init), m);
      hide *;
      UpsertAsSeen(init, MergeAll(init), m);
    }
  }

  lemma FirstBestStays(matches: seq<Match>, x: Match, m: Match)
    requires IsFirstBest(matches, x) && (x.chunkId == m.chunkId ==> m.score <= x.score)
    ensures IsFirstBest(matches + [m], x)
  {
    var k: nat :| FirstBest(matches, x, k);
    assert FirstBest(matches + [m], x, k);
  }

  lemma {:induction false} MergedAreFirstBest(matches: seq<Match>)
    ensures forall a :: 0 <= a < |MergeAll(matches)| ==> IsFirstBest(matches, MergeAll(matches)[a])
  {
    if |matches| > 0 {
      var init, m := matches[..|matches| - 1], matches[|matches| - 1];
      var before := MergeAll(init);
      MergedAreFirstBest(init);
      MergeAllIsBestPerChunk(init);
      assert matches == init + [m];
      var r := MergeAll(matches);
      assert r == Upsert(before, m);
      hide MergeAll;
      forall a | 0 <= a < |r| ensures IsFirstBest(matches, r[a]) {
        UpsertedIsFirstBest(init, before, m, a);
      }
    }
  }

  lemma UpsertedIsFirstBest(init: seq<Match>, before: seq<Match>, m: Match, a: nat)
    requires BestPerChunk(init, before) && a < |Upsert(before, m)|
    requires forall b :: 0 <= b < |before| ==> IsFirstBest(init, before[b])
    ensures IsFirstBest(init + [m], Upsert(before, m)[a])
  {
    var i, r := ChunkIndex(before, m.chunkId), Upsert(before, m);
    hide ChunkIndex;
    hide IsFirstBest;
    if a < |before| && r[a] == before[a] {
      if before[a].chunkId == m.chunkId {
        assert a == i;
        assert before[i].score >= m.score;
      }
      FirstBestStays(init, before[a], m);
    } else {
      assert r[a] == m;
      if i < 0 { NoChunk(init, before, m.chunkId); } else { assert BestOfChunk(init, before[i]); }
      NewIsFirstBest(init, m);
    }
  }

  lemma NewIsFirstBest(init: seq<Match>, m: Match)
    requires forall j :: 0 <= j < |init| && init[j].chunkId == m.chunkId ==> init[j].score < m.score
    ensures IsFirstBest(init + [m], m)
  {
    assert FirstBest(init + [m], m, |init|);
  }

  // ----- ranking

  lemma {:induction false} InsertInOrder(matches: seq<Match>, ranked: seq<Match>, m: Match)
    requires InOrder(matches, ranked)
    requires forall i :: 0 <= i < |ranked| ==>
      FirstSeen(matches, ranked[i].chunkId) < FirstSeen(matches, m.chunkId)
    ensures InOrder(matches, InsertByScore(ranked, m))
  {
    hide FirstSeen;
    if |ranked| > 0 && ranked[|ranked| - 1].score < m.score {
      var init, last := ranked[..|ranked| - 1], ranked[|ranked| - 1];
      assert ranked == init + [last];
      InsertInOrder(matches, init, m);
      InsertPermutes(init, m);
      var r := InsertByScore(init, m);
      forall i | 0 <= i < |r| ensures Before(matches, r[i], last) {
        assert r[i] in multiset(init) + multiset{m};
        if r[i] != m {
          var k :| 0 <= k < |init| && init[k] == r[i];
          assert Before(matches, ranked[k], ranked[|ranked| - 1]);
        }
      }
      hide Before;
    } else {
      forall i | 0 <= i < |ranked| ensures Before(matches, ranked[i], m) {
        if i < |ranked| - 1 { assert Before(matches, ranked[i], ranked[|ranked| - 1]); }
      }
      hide Before;
    }
  }

  lemma {:induction false} SortInOrder(matches: seq<Match>, merged: seq<Match>)
    requires AsSeen(matches, merged)
    ensures InOrder(matches, SortByScore(merged))
  {
    if |merged| > 0 {
      var init, last := merged[..|merged| - 1], merged[|merged| - 1];
      SortInOrder(matches, init);
      SortRanks(init);
      var sorted := SortByScore(init);
      hide SortByScore;
      hide FirstSeen;
      forall i | 0 <= i < |sorted|
        ensures FirstSeen(matches, sorted[i].chunkId) < FirstSeen(matches, last.chunkId)
      {
        assert sorted[i] in multiset(init);
        var k :| 0 <= k < |init| && init[k] == sorted[i];
        assert merged[k] == sorted[i];
      }
      InsertInOrder(matches, sorted, last);
    }
  }

  /** The ranking is determined: of every chunk the first of its best matches, better scores first, and of equal scores
      the chunk that was seen first. */
  lemma RankingIsDetermined(matches: seq<Match>)
    ensures InOrder(matches, Ranked(matches))
    ensures forall i :: 0 <= i < |Ranked(matches)| ==> IsFirstBest(matches, Ranked(matches)[i])
  {
    var merged := MergeAll(matches);
    MergedAsSeen(matches);
    MergedAreFirstBest(matches);
    SortInOrder(matches, merged);
    SortRanks(merged);
    var sorted := SortByScore(merged);
    assert Ranked(matches) == sorted;
    hide MergeAll;
    hide SortByScore;
    hide InOrder;
    hide IsFirstBest;
    forall i | 0 <= i < |sorted| ensures IsFirstBest(matches, sorted[i]) {
      assert sorted[i] in multiset(merged);
      var k :| 0 <= k < |merged| && merged[k] == sorted[i];
    }
  }
}
