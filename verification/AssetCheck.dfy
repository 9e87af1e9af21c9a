/**
 * The independent checker of the generated assets: the body of the per-target
 * loop of `verifyGeneratedAssets` (scripts/check-hot-and-cold-quality.ts), which
 * reads the packs back and rebuilds the trail from the ranks.
 */
module AssetCheck {
  import opened Basics
  import opened RankTable
  import opened RankPacks
  import opened HintSearch

  const TRAIL_LENGTH := 30

  datatype Problem = PointsOutside | NotAPermutation | TargetNotZero | TrailMismatch | HintsNotCloser

  /** The map from each word to a place where the dictionary has it. */
  ghost predicate IsWordIndex(words: seq<string>, wordIndex: map<string, nat>) {
    && (forall w <- words :: w in wordIndex)
    && (forall w <- wordIndex :: wordIndex[w] < |words| && words[wordIndex[w]] == w)
  }

  predicate InBounds(pack: seq<byte>, offset: int, n: nat) {
    0 <= offset && offset % 2 == 0 && offset + 2 * n <= |pack|
  }

  /** The table that a location points at. */
  function TableAt(pack: seq<byte>, offset: int, n: nat): (table: seq<nat>)
    requires InBounds(pack, offset, n)
    ensures |table| == n
  {
    seq(n, i requires 0 <= i < n => ReadU16(pack, offset + 2 * i))
  }

  function RankOf(wordIndex: map<string, nat>, table: seq<nat>, word: string): int
    requires forall w <- wordIndex :: wordIndex[w] < |table|
  {
    if word in wordIndex then table[wordIndex[word]] else -1
  }

  ghost predicate HasRank(words: seq<string>, table: seq<nat>, k: nat, word: string)
    requires |table| == |words|
  {
    exists i :: 0 <= i < |words| && table[i] == k && words[i] == word
  }

  /** The stored trail is the thirty words of lowest rank, in order. */
  ghost predicate TrailMatches(words: seq<string>, table: seq<nat>, trail: seq<string>)
    requires |table| == |words|
  {
    && |trail| == TRAIL_LENGTH
    && forall k :: 0 <= k < TRAIL_LENGTH ==> HasRank(words, table, k, trail[k])
  }

  /** The hints are three words of the dictionary, each closer than the one before. */
  predicate HintsPass(words: seq<string>, wordIndex: map<string, nat>, table: seq<nat>, hints: seq<string>)
    requires forall w <- wordIndex :: wordIndex[w] < |table|
  {
    && |hints| == 3
    && hints[0] in wordIndex && hints[1] in wordIndex && hints[2] in wordIndex
    && RankOf(wordIndex, table, hints[0]) > RankOf(wordIndex, table, hints[1]) > RankOf(wordIndex, table, hints[2])
  }

  ghost predicate Accepts(words: seq<string>, wordIndex: map<string, nat>, pack: seq<byte>, offset: int,
                          target: string, trail: seq<string>, hints: seq<string>)
    requires IsWordIndex(words, wordIndex)
  {
    && InBounds(pack, offset, |words|)
    && var table := TableAt(pack, offset, |words|);
      && IsPermutation(table)
      && RankOf(wordIndex, table, target) == 0
      && TrailMatches(words, table, trail)
      && HintsPass(words, wordIndex, table, hints)
  }

  lemma TableOfBytes(pack: seq<byte>, offset: nat, ranks: seq<nat>)
    requires offset % 2 == 0 && ReadsBack(pack, offset, ranks)
    ensures InBounds(pack, offset, |ranks|) && TableAt(pack, offset, |ranks|) == ranks
  {
    assert forall w :: 0 <= w < |ranks| ==> TableAt(pack, offset, |ranks|)[w] == ranks[w];
  }

  /** The ranks are different numbers below their count. */
  ghost predicate AreRanks(ranks: seq<nat>) {
    && (forall w :: 0 <= w < |ranks| ==> ranks[w] < |ranks|)
    && (forall v, w :: 0 <= v < w < |ranks| ==> ranks[v] != ranks[w])
  }

  /** There are thirty words in the trail, and each word of one of the thirty lowest ranks stands there at its rank. */
  ghost predicate HoldsLowest(words: seq<string>, ranks: seq<nat>, trail: seq<string>)
    requires |ranks| == |words|
  {
    && |words| >= 30 && |trail| == 30
    && forall w :: 0 <= w < |words| && ranks[w] < 30 ==> words[w] == trail[ranks[w]]
  }

  /** Three words of the dictionary of falling ranks. */
  ghost predicate Fall(wordIndex: map<string, nat>, ranks: seq<nat>, hints: seq<string>)
    requires forall w <- wordIndex :: wordIndex[w] < |ranks|
  {
    && |hints| == 3 && (forall h <- hints :: h in wordIndex)
    && ranks[wordIndex[hints[0]]] > ranks[wordIndex[hints[1]]] > ranks[wordIndex[hints[2]]]
  }

  lemma PermutationMeans(ranks: seq<nat>)
    ensures IsPermutation(ranks) <==> AreRanks(ranks)
  {
    if forall w :: 0 <= w < |ranks| ==> ranks[w] < |ranks| {
      Pigeonhole(ranks);
    } else {
      var w :| 0 <= w < |ranks| && ranks[w] >= |ranks|;
      assert ranks[w] in ranks;
    }
  }

  lemma TrailMeans(words: seq<string>, ranks: seq<nat>, trail: seq<string>)
    requires |ranks| == |words| && AreRanks(ranks)
    ensures TrailMatches(words, ranks, trail) <==> HoldsLowest(words, ranks, trail)
  {
    PermutationMeans(ranks);
    if |words| < 30 == |trail| {
      assert !HasRank(words, ranks, |words|, trail[|words|]);
    }
    if TrailMatches(words, ranks, trail) {
      forall w | 0 <= w < |words| && ranks[w] < 30
        ensures words[w] == trail[ranks[w]]
      {
        assert HasRank(words, ranks, ranks[w], trail[ranks[w]]);
      }
    } else if |words| >= 30 && |trail| == 30 {
      var k :| 0 <= k < TRAIL_LENGTH && !HasRank(words, ranks, k, trail[k]);
      assert k in ranks;
      var w :| 0 <= w < |words| && ranks[w] == k;
    }
  }

  lemma HintsMean(words: seq<string>, wordIndex: map<string, nat>, ranks: seq<nat>, hints: seq<string>)
    requires forall w <- wordIndex :: wordIndex[w] < |ranks|
    ensures HintsPass(words, wordIndex, ranks, hints) <==> Fall(wordIndex, ranks, hints)
  {}

  /**
   * Acceptance in terms of the bytes: at an even offset, the ranks are distinct
   * and below the number of words, the target has rank zero, the thirty words of
   * the trail have ranks 0 to 29 and the three hints have falling ranks.
   */
  lemma AcceptedBytes(words: seq<string>, wordIndex: map<string, nat>, pack: seq<byte>, offset: nat,
                      target: string, trail: seq<string>, hints: seq<string>, ranks: seq<nat>)
    requires IsWordIndex(words, wordIndex)
    requires |ranks| == |words| && ReadsBack(pack, offset, ranks)
    ensures Accepts(words, wordIndex, pack, offset, target, trail, hints) <==>
      && offset % 2 == 0
      && AreRanks(ranks)
      && target in wordIndex && ranks[wordIndex[target]] == 0
      && HoldsLowest(words, ranks, trail)
      && Fall(wordIndex, ranks, hints)
  {
    if offset % 2 == 0 {
      TableOfBytes(pack, offset, ranks);
      PermutationMeans(ranks);
      HintsMean(words, wordIndex, ranks, hints);
      if AreRanks(ranks) {
        TrailMeans(words, ranks, trail);
      }
    }
  }

  /** What the scan knows of the first `count` ranks of a table. */
  ghost predicate Scanned(table: seq<nat>, words: seq<string>, count: nat, seen: seq<bool>, byRank: seq<Option<string>>)
    requires count <= |table| == |words| == |seen| && |byRank| == TRAIL_LENGTH
  {
    && (forall k :: 0 <= k < count ==> table[k] < |table|)
    && (forall v :: 0 <= v < |table| ==> (seen[v] <==> v in table[..count]))
    && Distinct(table[..count])
    && (forall k :: 0 <= k < count && table[k] < TRAIL_LENGTH ==> byRank[table[k]] == Some(words[k]))
    && (forall v :: 0 <= v < TRAIL_LENGTH && byRank[v].Some? ==>
          exists k :: 0 <= k < count && table[k] == v && byRank[v] == Some(words[k]))
  }

  lemma ScannedNext(table: seq<nat>, words: seq<string>, count: nat, seen: seq<bool>, byRank: seq<Option<string>>)
    requires count < |table| == |words| == |seen| && |byRank| == TRAIL_LENGTH
    requires Scanned(table, words, count, seen, byRank)
    requires table[count] < |table| && !seen[table[count]]
    ensures Scanned(table, words, count + 1, seen[table[count] := true],
                    if table[count] < TRAIL_LENGTH then byRank[table[count] := Some(words[count])] else byRank)
  {
    var rank := table[count];
    assert table[..count + 1] == table[..count] + [rank];
    var next := if rank < TRAIL_LENGTH then byRank[rank := Some(words[count])] else byRank;
    forall v | 0 <= v < TRAIL_LENGTH && next[v].Some?
      ensures exists k :: 0 <= k < count + 1 && table[k] == v && next[v] == Some(words[k])
    {
      if v == rank {
        assert table[count] == v;
      } else {
        var k :| 0 <= k < count && table[k] == v && byRank[v] == Some(words[k]);
      }
    }
  }

  lemma RepeatedRank(table: seq<nat>, index: nat)
    requires index < |table| && table[index] in table[..index]
    ensures !IsPermutation(table)
  {
    var k :| 0 <= k < index && table[..index][k] == table[index];
    assert table[k] == table[index];
  }

  /** One turn of the scan: false if the rank is out of range or was seen. */
  method ScanRank(words: seq<string>, ghost table: seq<nat>, index: nat, rank: nat, seen: array<bool>,
                  byRank: array<Option<string>>)
    returns (ok: bool)
    requires index < |table| == |words| == seen.Length && byRank.Length == TRAIL_LENGTH && rank == table[index]
    requires Scanned(table, words, index, seen[..], byRank[..])
    modifies seen, byRank
    ensures ok ==> Scanned(table, words, index + 1, seen[..], byRank[..])
    ensures !ok ==> !IsPermutation(table)
  {
    if rank >= seen.Length {
      assert table[index] in table;
      return false;
    }
    if seen[rank] {
      RepeatedRank(table, index);
      return false;
    }
    ScannedNext(table, words, index, seen[..], byRank[..]);
    ghost var seenBefore, byRankBefore := seen[..], byRank[..];
    seen[rank] := true;
    assert seen[..] == seenBefore[rank := true];
    if rank < TRAIL_LENGTH {
      byRank[rank] := Some(words[index]);
      assert byRank[..] == byRankBefore[rank := Some(words[index])];
    }
    ok := true;
  }

  /** The scan of the ranks, which stops at the first bad one and collects the words of the lowest ranks. */
  method ScanTable(words: seq<string>, pack: seq<byte>, offset: int)
    returns (complete: bool, byRank: array<Option<string>>)
    requires InBounds(pack, offset, |words|)
    ensures complete <==> IsPermutation(TableAt(pack, offset, |words|))
    ensures fresh(byRank) && byRank.Length == TRAIL_LENGTH
    ensures complete ==> exists seen: seq<bool> ::
      |seen| == |words| && Scanned(TableAt(pack, offset, |words|), words, |words|, seen, byRank[..])
  {
    var n := |words|;
    ghost var table := TableAt(pack, offset, n);
    var seen := new bool[n](_ => false);
    byRank := new Option<string>[TRAIL_LENGTH](_ => None);
    for index := 0 to n
      invariant Scanned(table, words, index, seen[..], byRank[..])
    {
      var rank := ReadU16(pack, offset + 2 * index);
      var ok := ScanRank(words, table, index, rank, seen, byRank);
      if !ok {
        return false, byRank;
      }
    }
    assert table[..n] == table;
    Pigeonhole(table);
    complete := true;
  }

  /** Comparing with the collected words is comparing with the words of the lowest ranks. */
  lemma CollectedTrail(words: seq<string>, table: seq<nat>, seen: seq<bool>, byRank: seq<Option<string>>,
                       trail: seq<string>)
    requires |table| == |words| == |seen| && |byRank| == TRAIL_LENGTH
    requires Scanned(table, words, |words|, seen, byRank)
    ensures TrailMatches(words, table, trail) <==>
            |trail| == TRAIL_LENGTH && forall k :: 0 <= k < TRAIL_LENGTH ==> byRank[k] == Some(trail[k])
  {
    if |trail| == TRAIL_LENGTH {
      forall k | 0 <= k < TRAIL_LENGTH
        ensures byRank[k] == Some(trail[k]) <==> HasRank(words, table, k, trail[k])
      {
        if byRank[k] == Some(trail[k]) {
          var i :| 0 <= i < |words| && table[i] == k && byRank[k] == Some(words[i]);
          assert words[i] == trail[k];
        }
      }
    }
  }

  /** `rankOf`: the rank the pack stores for a word of the dictionary, or -1. */
  method ReadRank(words: seq<string>, wordIndex: map<string, nat>, pack: seq<byte>, offset: int, word: string)
    returns (rank: int)
    requires IsWordIndex(words, wordIndex) && InBounds(pack, offset, |words|)
    ensures rank == RankOf(wordIndex, TableAt(pack, offset, |words|), word)
    ensures rank >= 0 <==> word in wordIndex
  {
    if word !in wordIndex {
      return -1;
    }
    return ReadU16(pack, offset + 2 * wordIndex[word]);
  }

  method HintsAreCloser(words: seq<string>, wordIndex: map<string, nat>, pack: seq<byte>, offset: int,
                        hints: seq<string>)
    returns (closer: bool)
    requires IsWordIndex(words, wordIndex) && InBounds(pack, offset, |words|)
    ensures closer <==> HintsPass(words, wordIndex, TableAt(pack, offset, |words|), hints)
  {
    if |hints| != 3 {
      return false;
    }
    var previous := ReadRank(words, wordIndex, pack, offset, hints[0]);
    if previous < 0 {
      return false;
    }
    for i := 1 to 3
      invariant previous == RankOf(wordIndex, TableAt(pack, offset, |words|), hints[i - 1])
      invariant forall k :: 0 <= k < i ==> hints[k] in wordIndex
      invariant forall k :: 0 < k < i ==>
        RankOf(wordIndex, TableAt(pack, offset, |words|), hints[k - 1])
        > RankOf(wordIndex, TableAt(pack, offset, |words|), hints[k])
    {
      var rank := ReadRank(words, wordIndex, pack, offset, hints[i]);
      if rank < 0 || rank >= previous {
        return false;
      }
      previous := rank;
    }
    return true;
  }

  /** The checks of one target against its words, pack and stored evidence. */
  method VerifyTarget(words: seq<string>, wordIndex: map<string, nat>, pack: seq<byte>, offset: int,
                      target: string, trail: seq<string>, hints: seq<string>)
    returns (problems: seq<Problem>)
    requires IsWordIndex(words, wordIndex)
    ensures problems == [] <==> Accepts(words, wordIndex, pack, offset, target, trail, hints)
    ensures PointsOutside in problems <==> offset < 0 || offset % 2 == 1 || offset + 2 * |words| > |pack|
    ensures PointsOutside !in problems ==>
      var table := TableAt(pack, offset, |words|);
      && (NotAPermutation in problems <==> !IsPermutation(table))
      && (TargetNotZero in problems <==> RankOf(wordIndex, table, target) != 0)
      && (NotAPermutation !in problems ==> (TrailMismatch in problems <==> !TrailMatches(words, table, trail)))
      && (HintsNotCloser in problems <==> !HintsPass(words, wordIndex, table, hints))
  {
    if !InBounds(pack, offset, |words|) {
      return [PointsOutside];
    }
    var complete, byRank := ScanTable(words, pack, offset);
    var targetRank := ReadRank(words, wordIndex, pack, offset, target);
    var closer := HintsAreCloser(words, wordIndex, pack, offset, hints);
    var trailAgrees := |trail| == TRAIL_LENGTH && forall k :: 0 <= k < TRAIL_LENGTH ==> byRank[k] == Some(trail[k]);
    if complete {
      ghost var seen :| |seen| == |words| && Scanned(TableAt(pack, offset, |words|), words, |words|, seen, byRank[..]);
      CollectedTrail(words, TableAt(pack, offset, |words|), seen, byRank[..], trail);
    }
    problems :=
      (if complete then [] else [NotAPermutation]) +
      (if targetRank == 0 then [] else [TargetNotZero]) +
      (if trailAgrees then [] else [TrailMismatch]) +
      (if closer then [] else [HintsNotCloser]);
  }
}
