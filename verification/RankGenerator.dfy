/**
 * The generator side of one target, from scores to a packed table, and the
 * theorem that the independent checker accepts what it wrote:
 * `rankAndHints` and `validateGeneratedTarget` of
 * scripts/generate-hot-and-cold-data.ts against
 * scripts/check-hot-and-cold-quality.ts.
 */
module RankGenerator {
  import opened Basics
  import opened RankTable
  import opened RankPacks
  import opened HintSearch
  import opened AssetCheck

  /** The words of the first thirty places of the order, fewer if there are not as many. */
  function Trail(words: seq<string>, order: seq<nat>): seq<string>
    requires forall w <- order :: w < |words|
  {
    seq(if |order| < TRAIL_LENGTH then |order| else TRAIL_LENGTH,
        i requires 0 <= i < |order| => assert order[i] in order; words[order[i]])
  }

  lemma TrailFollowsRanks(words: seq<string>, order: seq<nat>, ranks: seq<nat>)
    requires IsPermutation(order) && |order| == |words| <= U16 && Inverts(ranks, order)
    ensures |Trail(words, order)| == if |words| < 30 then |words| else 30
    ensures forall w :: 0 <= w < |words| && ranks[w] < |Trail(words, order)| ==>
      Trail(words, order)[ranks[w]] == words[w]
  {
    forall w | 0 <= w < |words|
      ensures ranks[w] < |order| && order[ranks[w]] == w
    {
      RankOfOrder(ranks, order, w);
    }
  }

  method RankAndHints(words: seq<string>, score: seq<real>, less: (string, string) -> bool, target: string,
                      curated: Option<seq<string>>, safe: string -> bool, provisional: string -> bool,
                      penaltyOfRank: (int, int) -> real)
    returns (ranks: seq<nat>, outcome: Outcome, trail: seq<string>)
    requires |score| == |words|
    ensures var order := Order(words, score, less, target);
      && IsPermutation(order) && |order| == |words| && Inverts(ranks, order)
      && trail == Trail(words, order)
      && Chosen(outcome, words, order, ranks, target, curated, safe, provisional, penaltyOfRank)
    ensures |words| <= U16 && Distinct(words) && curated.None? && outcome.Hints? ==>
      Progressive(outcome.hints, w => RankIn(words, ranks, w))
    ensures curated.Some? ==>
      && (outcome.Rejected? <==> exists w <- curated.value :: w !in words || w == target)
      && (outcome.Hints? ==> !outcome.needsCuration && multiset(outcome.hints) == multiset(curated.value))
    ensures |words| <= U16 && Distinct(words) && curated.None? ==>
      HintsOfTable(outcome, words, ranks, safe, provisional, penaltyOfRank)
    ensures |words| <= U16 && Distinct(words) && TotalOrder(words, less) ==>
      LowerIsNearer(words, score, less, target, ranks)
    ensures |words| <= U16 ==>
      |trail| == (if |words| < 30 then |words| else 30) &&
      forall w :: 0 <= w < |words| && ranks[w] < |trail| ==> trail[ranks[w]] == words[w]
  {
    var order := Order(words, score, less, target);
    OrderIsPermutation(words, score, less, target);
    var table := InvertOrder(order);
    ranks := table[..];
    trail := Trail(words, order);
    outcome := ChooseHints(words, order, ranks, target, curated, safe, provisional, penaltyOfRank);
    if |words| <= U16 && Distinct(words) && curated.None? && outcome.Hints? {
      SearchedHintsAreProgressive(words, order, ranks, target, outcome, safe, provisional, penaltyOfRank);
    }
    if |words| <= U16 && Distinct(words) && curated.None? {
      HintsComeFromTable(words, order, ranks, target, outcome, safe, provisional, penaltyOfRank);
    }
    if |words| <= U16 && Distinct(words) && TotalOrder(words, less) {
      RanksFollowScores(words, score, less, target, ranks);
    }
    if |words| <= U16 {
      TrailFollowsRanks(words, order, ranks);
    }
  }

  datatype Rejection = TargetNotFirst | IncompleteTable | NotProgressive

  /** No known hint is as far as a known one before it; a comparison with a word outside the dictionary never fails. */
  predicate FallsWhereKnown(words: seq<string>, ranks: seq<nat>, hints: seq<string>)
    requires |ranks| == |words|
  {
    forall i :: 0 < i < |hints| && hints[i] in words && hints[i - 1] in words ==>
      RankIn(words, ranks, hints[i]) < RankIn(words, ranks, hints[i - 1])
  }

  /** On three words of the dictionary that is being progressive. */
  lemma KnownHintsProgress(words: seq<string>, ranks: seq<nat>, hints: seq<string>)
    requires |ranks| == |words| && forall h <- hints :: h in words
    ensures |hints| == 3 && FallsWhereKnown(words, ranks, hints) <==> Progressive(hints, w => RankIn(words, ranks, w))
  {
    if |hints| == 3 {
      assert hints[0] in hints && hints[1] in hints && hints[2] in hints;
    }
  }

  /** The tests that abort the generator on a bad table or bad hints. */
  method ValidateGeneratedTarget(target: string, words: seq<string>, ranks: seq<nat>, hints: seq<string>)
    returns (rejection: Option<Rejection>)
    requires |ranks| == |words|
    ensures rejection.None? <==>
      && target in words && ranks[IndexOf(words, target)] == 0
      && IsPermutation(ranks)
      && |hints| == 3 && FallsWhereKnown(words, ranks, hints)
    ensures (target in words && ranks[IndexOf(words, target)] == 0 && IsPermutation(ranks)
             && |hints| == 3 && hints[1] !in words) ==> rejection.None?
    ensures (forall h <- hints :: h in words) && rejection.None? ==> Progressive(hints, w => RankIn(words, ranks, w))
  {
    var targetIndex := IndexOf(words, target);
    if targetIndex < 0 || ranks[targetIndex] != 0 {
      return Some(TargetNotFirst);
    }
    var complete := ScanRanks(ranks);
    if !complete {
      return Some(IncompleteTable);
    }
    if |hints| != 3 {
      return Some(NotProgressive);
    }
    for i := 1 to 3
      invariant forall k :: 0 < k < i && hints[k] in words && hints[k - 1] in words ==>
        RankIn(words, ranks, hints[k]) < RankIn(words, ranks, hints[k - 1])
    {
      var previous, index := IndexOf(words, hints[i - 1]), IndexOf(words, hints[i]);
      if previous >= 0 && index >= 0 && ranks[index] >= ranks[previous] {
        return Some(NotProgressive);
      }
    }
    return None;
  }

  /** The sorted table puts the target at rank zero and is complete exactly while ranks fit sixteen bits. */
  lemma GeneratedTableIsValid(words: seq<string>, score: seq<real>, less: (string, string) -> bool, target: string,
                              ranks: seq<nat>)
    requires |score| == |words| && Distinct(words) && TotalOrder(words, less) && target in words
    requires Inverts(ranks, Order(words, score, less, target))
    ensures |ranks| == |words|
    ensures ranks[IndexOf(words, target)] == 0
    ensures IsPermutation(ranks) <==> |words| <= U16
  {
    var order := Order(words, score, less, target);
    OrderIsPermutation(words, score, less, target);
    OrderIsSorted(words, score, less, target);
    IndexOfDistinct(words, order[0]);
    InverseIsPermutation(ranks, order);
  }

  /** The trail rebuilt from a sorted table is the generator's own trail, when there are words enough to fill it. */
  lemma TrailIsRebuilt(words: seq<string>, order: seq<nat>, ranks: seq<nat>)
    requires IsPermutation(order) && |order| == |words| <= U16 && Inverts(ranks, order)
    ensures TrailMatches(words, ranks, Trail(words, order)) <==> |words| >= TRAIL_LENGTH
  {
    if |words| >= TRAIL_LENGTH {
      forall k | 0 <= k < TRAIL_LENGTH
        ensures HasRank(words, ranks, k, Trail(words, order)[k])
      {
        assert order[k] in order && ranks[order[k]] == k;
      }
    }
  }

  /** What the checker reads back from the packs is the generator's table. */
  lemma TableIsReadBack(tables: seq<seq<nat>>, packs: seq<seq<byte>>, n: nat, i: nat)
    requires AllTables(tables, n) && i < |tables| && Start(i, n) < U32
    requires PackSizes(packs, |tables|, n) && PackBlocks(packs, tables, |tables|, n)
    requires forall r <- tables[i] :: r < U16
    ensures InBounds(packs[i % PACK_COUNT], Wrap(Start(i, n)), n)
    ensures TableAt(packs[i % PACK_COUNT], Wrap(Start(i, n)), n) == tables[i]
  {
    PacksRoundTrip(packs, tables, n, i);
    TableOfBytes(packs[i % PACK_COUNT], Wrap(Start(i, n)), tables[i]);
  }

  /** The checker's map of words agrees with the generator's search for them. */
  lemma RanksAgree(words: seq<string>, wordIndex: map<string, nat>, table: seq<nat>, word: string)
    requires IsWordIndex(words, wordIndex) && Distinct(words) && |table| == |words| && word in words
    ensures RankOf(wordIndex, table, word) == RankIn(words, table, word)
  {
    IndexOfDistinct(words, wordIndex[word]);
  }

  lemma ProgressiveHintsPass(words: seq<string>, wordIndex: map<string, nat>, table: seq<nat>, hints: seq<string>)
    requires IsWordIndex(words, wordIndex) && Distinct(words) && |table| == |words|
    requires (forall h <- hints :: h in words) && Progressive(hints, w => RankIn(words, table, w))
    ensures HintsPass(words, wordIndex, table, hints)
  {
    forall k | 0 <= k < 3
      ensures hints[k] in wordIndex && RankOf(wordIndex, table, hints[k]) == RankIn(words, table, hints[k])
    {
      assert hints[k] in hints;
      RanksAgree(words, wordIndex, table, hints[k]);
    }
  }

  /**
   * The checker accepts what the generator packed for a target exactly when the
   * dictionary has the thirty words that a trail needs.
   */
  lemma CheckerAcceptsGenerated(words: seq<string>, score: seq<real>, less: (string, string) -> bool, target: string,
                                tables: seq<seq<nat>>, packs: seq<seq<byte>>, i: nat,
                                wordIndex: map<string, nat>, hints: seq<string>)
    requires |score| == |words| <= U16 && Distinct(words) && TotalOrder(words, less) && target in words
    requires IsWordIndex(words, wordIndex)
    requires AllTables(tables, |words|) && i < |tables| && Inverts(tables[i], Order(words, score, less, target))
    requires PackSizes(packs, |tables|, |words|) && PackBlocks(packs, tables, |tables|, |words|)
    requires Start(i, |words|) < U32
    requires (forall h <- hints :: h in words) && Progressive(hints, w => RankIn(words, tables[i], w))
    ensures (forall w <- Order(words, score, less, target) :: w < |words|) &&
      (Accepts(words, wordIndex, packs[i % PACK_COUNT], Wrap(Start(i, |words|)), target,
               Trail(words, Order(words, score, less, target)), hints)
       <==> |words| >= TRAIL_LENGTH)
  {
    OrderIsPermutation(words, score, less, target);
    GeneratedTableIsValid(words, score, less, target, tables[i]);
    TableIsReadBack(tables, packs, |words|, i);
    TrailIsRebuilt(words, Order(words, score, less, target), tables[i]);
    RanksAgree(words, wordIndex, tables[i], target);
    ProgressiveHintsPass(words, wordIndex, tables[i], hints);
  }
}
