/**
 * The three official hints of a Hot and Cold target: the linear prefix/suffix
 * search of `rankAndHints` and the progressive-hint test of
 * `validateGeneratedTarget` (scripts/generate-hot-and-cold-data.ts).
 */
module HintSearch {
  import opened Basics
  import opened StableSort
  import opened RankTable

  const COLD_RANK := 100
  const MIDDLE_RANK := 40
  const HOT_RANK := 10
  const CANDIDATE_LIMIT := 2_000
  const AUTOMATIC_HINT_MAX_RANKS := [250, 100, 30]

  // ---- The search over a list of candidates ----

  function Total(penalty: (nat, int) -> real, hot: nat, middle: nat, cold: nat): real {
    penalty(cold, COLD_RANK) + penalty(middle, MIDDLE_RANK) + penalty(hot, HOT_RANK)
  }

  /** `best` has the least penalty of the positions in [lo, hi). */
  ghost predicate Least(penalty: (nat, int) -> real, desired: int, lo: nat, hi: nat, best: int) {
    && lo <= best < hi
    && forall k :: lo <= k < hi ==> penalty(best, desired) <= penalty(k, desired)
  }

  /** Of equals the first. */
  ghost predicate FirstLeast(penalty: (nat, int) -> real, desired: int, lo: nat, hi: nat, best: int) {
    && Least(penalty, desired, lo, hi, best)
    && forall k :: lo <= k < best ==> penalty(best, desired) < penalty(k, desired)
  }

  /** Of equals the last. */
  ghost predicate LastLeast(penalty: (nat, int) -> real, desired: int, lo: nat, hi: nat, best: int) {
    && Least(penalty, desired, lo, hi, best)
    && forall k :: best < k < hi ==> penalty(best, desired) < penalty(k, desired)
  }

  /** The best hot hint before each candidate. */
  method BestHotBefore(n: nat, penalty: (nat, int) -> real) returns (best: array<int>)
    ensures fresh(best) && best.Length == n
    ensures forall i :: 1 <= i < n ==> FirstLeast(penalty, HOT_RANK, 0, i, best[i])
  {
    best := new int[n](_ => -1);
    var index := 1;
    while index < n
      invariant 1 <= index
      invariant n > 0 ==> best[0] == -1
      invariant forall i :: 1 <= i < index && i < n ==> FirstLeast(penalty, HOT_RANK, 0, i, best[i])
    {
      var previous := best[index - 1];
      best[index] :=
        if previous < 0 || penalty(index - 1, HOT_RANK) < penalty(previous, HOT_RANK) then index - 1 else previous;
      index := index + 1;
    }
  }

  /** The best cold hint after each candidate. */
  method BestColdAfter(n: nat, penalty: (nat, int) -> real) returns (best: array<int>)
    ensures fresh(best) && best.Length == n
    ensures forall i :: 0 <= i < n - 1 ==> LastLeast(penalty, COLD_RANK, i + 1, n, best[i])
  {
    best := new int[n](_ => -1);
    var index := n - 2;
    while index >= 0
      invariant -2 <= index <= n - 2
      invariant n > 0 ==> best[n - 1] == -1
      invariant forall i :: index < i < n - 1 && 0 <= i ==> LastLeast(penalty, COLD_RANK, i + 1, n, best[i])
    {
      var previous := best[index + 1];
      best[index] :=
        if previous < 0 || penalty(index + 1, COLD_RANK) < penalty(previous, COLD_RANK) then index + 1 else previous;
      index := index - 1;
    }
  }

  /** One pass over the middles finds a triple that no other triple beats. */
  method BestTriple(n: nat, penalty: (nat, int) -> real) returns (hot: nat, middle: nat, cold: nat)
    requires n >= 3
    ensures hot < middle < cold < n
    ensures forall h: nat, m: nat, c: nat :: h < m < c < n ==>
      && Total(penalty, hot, middle, cold) <= Total(penalty, h, m, c)
      && (m < middle ==> Total(penalty, hot, middle, cold) < Total(penalty, h, m, c))
    ensures FirstLeast(penalty, 10, 0, middle, hot) && LastLeast(penalty, 100, middle + 1, n, cold)
  {
    var hotBefore := BestHotBefore(n, penalty);
    var coldAfter := BestColdAfter(n, penalty);
    hot, middle, cold := 0, 1, 2;
    var best: Option<real> := None;
    for m := 1 to n - 1
      invariant hot < middle < cold < n
      invariant best.Some? <==> m > 1
      invariant best.Some? ==> best.value == Total(penalty, hot, middle, cold)
      invariant forall k: nat :: 1 <= k < m ==> best.value <= Total(penalty, hotBefore[k], k, coldAfter[k])
      invariant forall k: nat :: 1 <= k < middle && k < m ==> best.value < Total(penalty, hotBefore[k], k, coldAfter[k])
      invariant best.Some? ==> middle < m && hot == hotBefore[middle] && cold == coldAfter[middle]
    {
      assert FirstLeast(penalty, HOT_RANK, 0, m, hotBefore[m]) && LastLeast(penalty, COLD_RANK, m + 1, n, coldAfter[m]);
      var total := Total(penalty, hotBefore[m], m, coldAfter[m]);
      if best.None? || total < best.value {
        hot, middle, cold, best := hotBefore[m], m, coldAfter[m], Some(total);
      }
    }
    forall h: nat, m: nat, c: nat | h < m < c < n
      ensures best.value <= Total(penalty, h, m, c) && (m < middle ==> best.value < Total(penalty, h, m, c))
    {
      assert FirstLeast(penalty, HOT_RANK, 0, m, hotBefore[m]) && LastLeast(penalty, COLD_RANK, m + 1, n, coldAfter[m]);
      assert penalty(hotBefore[m], HOT_RANK) <= penalty(h, HOT_RANK);
      assert penalty(coldAfter[m], COLD_RANK) <= penalty(c, COLD_RANK);
    }
  }

  // ---- Which words are candidates ----

  function Filter<T>(xs: seq<T>, keep: T -> bool): (r: seq<T>)
    ensures forall x <- r :: x in xs && keep(x)
    ensures forall x <- xs :: keep(x) ==> x in r
  {
    if xs == [] then []
    else (if keep(xs[0]) then [xs[0]] else []) + Filter(xs[1..], keep)
  }

  ghost predicate Rising<T>(xs: seq<T>, rank: T -> int) {
    forall i, j :: 0 <= i < j < |xs| ==> rank(xs[i]) < rank(xs[j])
  }

  lemma {:induction false} FilterRising<T>(xs: seq<T>, keep: T -> bool, rank: T -> int)
    requires Rising(xs, rank)
    ensures Rising(Filter(xs, keep), rank)
  {
    if xs != [] {
      FilterRising(xs[1..], keep, rank);
      forall x | x in Filter(xs[1..], keep)
        ensures rank(xs[0]) < rank(x)
      {
        var i :| 0 <= i < |xs[1..]| && xs[1..][i] == x;
      }
    }
  }

  /** The first place of the word in the dictionary, or -1. */
  function IndexOf(words: seq<string>, word: string): (i: int)
    ensures -1 <= i < |words|
    ensures i >= 0 ==> words[i] == word
    ensures i < 0 <==> word !in words
  {
    if words == [] then -1
    else if words[0] == word then 0
    else
      var i := IndexOf(words[1..], word);
      if i < 0 then -1 else i + 1
  }

  lemma IndexOfDistinct(words: seq<string>, i: nat)
    requires Distinct(words) && i < |words|
    ensures IndexOf(words, words[i]) == i
  {
    assert words[i] in words;
  }

  /** The rank the table stores for a word, as far above the rest as can be for a word outside the dictionary. */
  function RankIn(words: seq<string>, ranks: seq<nat>, word: string): int
    requires |ranks| == |words|
  {
    var i := IndexOf(words, word);
    if i < 0 then |words| + U16 else ranks[i]
  }

  /** The words of ranks 1 up to the candidate limit, nearest first. */
  function Nearest(words: seq<string>, order: seq<nat>): seq<string>
    requires forall w <- order :: w < |words|
  {
    var end := if |order| < CANDIDATE_LIMIT then |order| else CANDIDATE_LIMIT;
    if end < 1 then []
    else seq(end - 1, i requires 0 <= i < end - 1 => assert order[i + 1] in order; words[order[i + 1]])
  }

  lemma NearestRising(words: seq<string>, order: seq<nat>, ranks: seq<nat>)
    requires Distinct(words) && IsPermutation(order) && |order| == |words| <= U16 && Inverts(ranks, order)
    ensures Rising(Nearest(words, order), w => RankIn(words, ranks, w))
  {
    forall i | 0 <= i < |order|
      ensures order[i] < |words| && RankIn(words, ranks, words[order[i]]) == i
    {
      assert order[i] in order;
      IndexOfDistinct(words, order[i]);
    }
  }

  // ---- The hints ----

  datatype Outcome = Hints(hints: seq<string>, needsCuration: bool) | Rejected

  /** Three hints, each closer to the target than the one before: what `validateGeneratedTarget` demands. */
  predicate Progressive(hints: seq<string>, rank: string -> int) {
    |hints| == 3 && rank(hints[0]) > rank(hints[1]) > rank(hints[2])
  }

  /** Reviewed hints are only sorted, from the highest rank down. */
  ghost predicate SortedCurated(outcome: Outcome, curated: seq<string>, words: seq<string>, ranks: seq<nat>)
    requires outcome.Hints? && |ranks| == |words|
  {
    && !outcome.needsCuration
    && multiset(outcome.hints) == multiset(curated)
    && forall i, j :: 0 <= i < j < |outcome.hints| ==>
         RankIn(words, ranks, outcome.hints[i]) >= RankIn(words, ranks, outcome.hints[j])
  }

  /** Which hints each branch yields. */
  ghost predicate Chosen(outcome: Outcome, words: seq<string>, order: seq<nat>, ranks: seq<nat>, target: string,
                         curated: Option<seq<string>>, safe: string -> bool, provisional: string -> bool,
                         penaltyOfRank: (int, int) -> real)
    requires |order| == |words| == |ranks| && forall w <- order :: w < |words|
  {
    if curated.Some? then
      var bad := exists w <- curated.value :: w !in words || w == target;
      && (outcome.Rejected? <==> bad)
      && (!bad ==> SortedCurated(outcome, curated.value, words, ranks))
    else
      var candidates := Filter(Nearest(words, order), safe);
      var fallback := Filter(Nearest(words, order), provisional);
      if |candidates| >= 3 then
        outcome.Hints? && BestOf(outcome, candidates, words, ranks, penaltyOfRank)
      else if |fallback| >= 3 then
        outcome == Hints([fallback[2], fallback[1], fallback[0]], true)
      else outcome.Rejected?
  }

  /** The hint branch of `rankAndHints`; `safe` and `provisional` are its two word filters. */
  method ChooseHints(words: seq<string>, order: seq<nat>, ranks: seq<nat>, target: string,
                     curated: Option<seq<string>>, safe: string -> bool, provisional: string -> bool,
                     penaltyOfRank: (int, int) -> real)
    returns (outcome: Outcome)
    requires |order| == |words| == |ranks| && forall w <- order :: w < |words|
    ensures Chosen(outcome, words, order, ranks, target, curated, safe, provisional, penaltyOfRank)
    ensures curated.Some? ==>
      && (outcome.Rejected? <==> exists w <- curated.value :: w !in words || w == target)
      && (outcome.Hints? ==> !outcome.needsCuration && multiset(outcome.hints) == multiset(curated.value))
  {
    if curated.Some? {
      if exists w <- curated.value :: w !in words || w == target {
        return Rejected;
      }
      var falling := (a: string, b: string) => RankIn(words, ranks, a) > RankIn(words, ranks, b);
      SortSorted(curated.value, falling);
      return Hints(Sort(curated.value, falling), false);
    }
    var candidates := Filter(Nearest(words, order), safe);
    if |candidates| < 3 {
      var fallback := Filter(Nearest(words, order), provisional);
      if |fallback| < 3 {
        return Rejected;
      }
      return Hints([fallback[2], fallback[1], fallback[0]], true);
    }
    var penalty := CandidatePenalty(candidates, words, ranks, penaltyOfRank);
    var hot, middle, cold := BestTriple(|candidates|, penalty);
    var hints := [candidates[cold], candidates[middle], candidates[hot]];
    outcome := Hints(hints, exists i :: 0 <= i < 3 && RankIn(words, ranks, hints[i]) > AUTOMATIC_HINT_MAX_RANKS[i]);
    assert IsBest(outcome, candidates, words, ranks, penaltyOfRank, hot, middle, cold);
  }

  function CandidatePenalty(candidates: seq<string>, words: seq<string>, ranks: seq<nat>,
                            penaltyOfRank: (int, int) -> real)
    : (nat, int) -> real
    requires |ranks| == |words|
  {
    (i: nat, desired: int) =>
      if i < |candidates| then penaltyOfRank(RankIn(words, ranks, candidates[i]), desired) else 0.0
  }

  ghost predicate IsBest(outcome: Outcome, candidates: seq<string>, words: seq<string>, ranks: seq<nat>,
                         penaltyOfRank: (int, int) -> real, hot: nat, middle: nat, cold: nat)
    requires outcome.Hints? && |ranks| == |words|
  {
    && hot < middle < cold < |candidates|
    && outcome.hints == [candidates[cold], candidates[middle], candidates[hot]]
    && (outcome.needsCuration <==>
          exists i :: 0 <= i < 3 && RankIn(words, ranks, outcome.hints[i]) > AUTOMATIC_HINT_MAX_RANKS[i])
    && forall h: nat, m: nat, c: nat :: h < m < c < |candidates| ==>
         Total(CandidatePenalty(candidates, words, ranks, penaltyOfRank), hot, middle, cold)
         <= Total(CandidatePenalty(candidates, words, ranks, penaltyOfRank), h, m, c)
  }

  /** The hints are candidates hot < middle < cold, farthest first, of least total penalty. */
  ghost predicate BestOf(outcome: Outcome, candidates: seq<string>, words: seq<string>, ranks: seq<nat>,
                         penaltyOfRank: (int, int) -> real)
    requires outcome.Hints? && |ranks| == |words|
  {
    exists hot: nat, middle: nat, cold: nat ::
      IsBest(outcome, candidates, words, ranks, penaltyOfRank, hot, middle, cold)
  }

  // ---- The later test cannot fail on searched hints ----

  /** The table of a sorted order: what `rankAndHints` hands to the hint search. */
  ghost predicate TableOf(words: seq<string>, order: seq<nat>, ranks: seq<nat>) {
    && Distinct(words) && IsPermutation(order) && Inverts(ranks, order)
    && |order| == |words| <= U16
  }

  lemma CandidatesRise(words: seq<string>, order: seq<nat>, ranks: seq<nat>, keep: string -> bool)
    requires TableOf(words, order, ranks)
    ensures Rising(Filter(Nearest(words, order), keep), w => RankIn(words, ranks, w))
  {
    NearestRising(words, order, ranks);
    FilterRising(Nearest(words, order), keep, w => RankIn(words, ranks, w));
  }

  /** Searched and provisional hints are progressive for every dictionary, score, filter and penalty. */
  lemma SearchedHintsAreProgressive(words: seq<string>, order: seq<nat>, ranks: seq<nat>, target: string,
                                    outcome: Outcome, safe: string -> bool, provisional: string -> bool,
                                    penaltyOfRank: (int, int) -> real)
    requires TableOf(words, order, ranks) && outcome.Hints?
    requires Chosen(outcome, words, order, ranks, target, None, safe, provisional, penaltyOfRank)
    ensures Progressive(outcome.hints, w => RankIn(words, ranks, w))
    ensures forall h <- outcome.hints :: h in words
  {
    var near := Nearest(words, order);
    CandidatesRise(words, order, ranks, safe);
    CandidatesRise(words, order, ranks, provisional);
    assert forall w <- near :: w in words;
  }

  // ---- The searched hints in terms of the table alone ----

  /** The word at this place passes the filter and has a rank from 1 to 1999. */
  ghost predicate IsNear(words: seq<string>, ranks: seq<nat>, keep: string -> bool, w: nat)
    requires |ranks| == |words|
  {
    w < |words| && 1 <= ranks[w] < 2000 && keep(words[w])
  }

  /** Three such words, nearest first. */
  ghost predicate NearTriple(words: seq<string>, ranks: seq<nat>, keep: string -> bool, hot: nat, middle: nat,
                             cold: nat)
    requires |ranks| == |words|
  {
    && IsNear(words, ranks, keep, hot) && IsNear(words, ranks, keep, middle) && IsNear(words, ranks, keep, cold)
    && ranks[hot] < ranks[middle] < ranks[cold]
  }

  ghost predicate HasNearTriple(words: seq<string>, ranks: seq<nat>, keep: string -> bool)
    requires |ranks| == |words|
  {
    exists hot: nat, middle: nat, cold: nat :: NearTriple(words, ranks, keep, hot, middle, cold)
  }

  /** No other triple is nearer to the ranks 100, 40 and 10. */
  ghost predicate LeastPenalty(words: seq<string>, ranks: seq<nat>, safe: string -> bool,
                               penaltyOfRank: (int, int) -> real, hot: nat, middle: nat, cold: nat)
    requires |ranks| == |words| && NearTriple(words, ranks, safe, hot, middle, cold)
  {
    forall h: nat, m: nat, c: nat :: NearTriple(words, ranks, safe, h, m, c) ==>
      penaltyOfRank(ranks[cold], 100) + penaltyOfRank(ranks[middle], 40) + penaltyOfRank(ranks[hot], 10)
      <= penaltyOfRank(ranks[c], 100) + penaltyOfRank(ranks[m], 40) + penaltyOfRank(ranks[h], 10)
  }

  /** The three nearest words that pass the filter. */
  ghost predicate NearestTriple(words: seq<string>, ranks: seq<nat>, keep: string -> bool, hot: nat, middle: nat,
                                cold: nat)
    requires |ranks| == |words|
  {
    && NearTriple(words, ranks, keep, hot, middle, cold)
    && forall w: nat :: IsNear(words, ranks, keep, w) && ranks[w] <= ranks[cold] ==> w in [hot, middle, cold]
  }

  /** Where `order` has a word of the table. */
  lemma PlaceOf(words: seq<string>, order: seq<nat>, ranks: seq<nat>, w: nat)
    requires TableOf(words, order, ranks) && w < |words|
    ensures ranks[w] < |order| && order[ranks[w]] == w
    ensures RankIn(words, ranks, words[w]) == ranks[w]
    ensures 1 <= ranks[w] < 2000 <==> words[w] in Nearest(words, order)
  {
    RankOfOrder(ranks, order, w);
    IndexOfDistinct(words, w);
    var near := Nearest(words, order);
    if 1 <= ranks[w] < 2000 {
      assert near[ranks[w] - 1] == words[w];
    }
    if words[w] in near {
      var k :| 0 <= k < |near| && near[k] == words[w];
      assert order[k + 1] in order && words[order[k + 1]] == words[w];
      assert order[k + 1] == w;
    }
  }

  /** A place of the dictionary for each word the filter keeps, and the other way round. */
  lemma CandidateIsNear(words: seq<string>, order: seq<nat>, ranks: seq<nat>, keep: string -> bool, i: nat)
    returns (w: nat)
    requires TableOf(words, order, ranks) && i < |Filter(Nearest(words, order), keep)|
    ensures IsNear(words, ranks, keep, w) && words[w] == Filter(Nearest(words, order), keep)[i]
    ensures RankIn(words, ranks, Filter(Nearest(words, order), keep)[i]) == ranks[w]
  {
    var word := Filter(Nearest(words, order), keep)[i];
    assert word in Nearest(words, order) && word in words;
    w := IndexOf(words, word);
    PlaceOf(words, order, ranks, w);
  }

  lemma NearIsCandidate(words: seq<string>, order: seq<nat>, ranks: seq<nat>, keep: string -> bool, w: nat)
    returns (i: nat)
    requires TableOf(words, order, ranks) && IsNear(words, ranks, keep, w)
    ensures i < |Filter(Nearest(words, order), keep)| && Filter(Nearest(words, order), keep)[i] == words[w]
    ensures RankIn(words, ranks, Filter(Nearest(words, order), keep)[i]) == ranks[w]
  {
    PlaceOf(words, order, ranks, w);
    assert words[w] in Filter(Nearest(words, order), keep);
    i :| 0 <= i < |Filter(Nearest(words, order), keep)| && Filter(Nearest(words, order), keep)[i] == words[w];
  }

  lemma RisingOrders<T>(xs: seq<T>, rank: T -> int, i: nat, j: nat)
    requires Rising(xs, rank) && i < |xs| && j < |xs| && rank(xs[i]) < rank(xs[j])
    ensures i < j
  {
  }

  lemma RisingBounds<T>(xs: seq<T>, rank: T -> int, i: nat, j: nat)
    requires Rising(xs, rank) && i < |xs| && j < |xs| && rank(xs[i]) <= rank(xs[j])
    ensures i <= j
  {
  }

  lemma OneOfThree(words: seq<string>, near: seq<string>, i: nat, w: nat, h: nat, m: nat, c: nat)
    requires Distinct(words) && w < |words| && h < |words| && m < |words| && c < |words|
    requires i < 3 <= |near| && near[i] == words[w]
    requires near[0] == words[h] && near[1] == words[m] && near[2] == words[c]
    ensures w in [h, m, c]
  {
  }

  /** A triple of the table is a rising triple of candidates. */
  lemma TripleIsCandidates(words: seq<string>, order: seq<nat>, ranks: seq<nat>, keep: string -> bool,
                           h: nat, m: nat, c: nat)
    returns (i: nat, j: nat, k: nat)
    requires TableOf(words, order, ranks) && NearTriple(words, ranks, keep, h, m, c)
    ensures var candidates := Filter(Nearest(words, order), keep);
      && i < j < k < |candidates|
      && candidates[i] == words[h] && candidates[j] == words[m] && candidates[k] == words[c]
      && RankIn(words, ranks, words[h]) == ranks[h] && RankIn(words, ranks, words[m]) == ranks[m]
      && RankIn(words, ranks, words[c]) == ranks[c]
  {
    CandidatesRise(words, order, ranks, keep);
    i := NearIsCandidate(words, order, ranks, keep, h);
    j := NearIsCandidate(words, order, ranks, keep, m);
    k := NearIsCandidate(words, order, ranks, keep, c);
    RisingOrders(Filter(Nearest(words, order), keep), w => RankIn(words, ranks, w), i, j);
    RisingOrders(Filter(Nearest(words, order), keep), w => RankIn(words, ranks, w), j, k);
  }

  lemma CandidatesAreTriple(words: seq<string>, order: seq<nat>, ranks: seq<nat>, keep: string -> bool,
                            i: nat, j: nat, k: nat)
    returns (h: nat, m: nat, c: nat)
    requires TableOf(words, order, ranks) && i < j < k < |Filter(Nearest(words, order), keep)|
    ensures var candidates := Filter(Nearest(words, order), keep);
      && NearTriple(words, ranks, keep, h, m, c)
      && candidates[i] == words[h] && candidates[j] == words[m] && candidates[k] == words[c]
      && RankIn(words, ranks, words[h]) == ranks[h] && RankIn(words, ranks, words[m]) == ranks[m]
      && RankIn(words, ranks, words[c]) == ranks[c]
  {
    CandidatesRise(words, order, ranks, keep);
    h := CandidateIsNear(words, order, ranks, keep, i);
    m := CandidateIsNear(words, order, ranks, keep, j);
    c := CandidateIsNear(words, order, ranks, keep, k);
  }

  lemma TriplesNeedThree(words: seq<string>, order: seq<nat>, ranks: seq<nat>, keep: string -> bool)
    requires TableOf(words, order, ranks)
    ensures HasNearTriple(words, ranks, keep) <==> |Filter(Nearest(words, order), keep)| >= 3
  {
    if |Filter(Nearest(words, order), keep)| >= 3 {
      var h, m, c := CandidatesAreTriple(words, order, ranks, keep, 0, 1, 2);
    }
    if HasNearTriple(words, ranks, keep) {
      var h: nat, m: nat, c: nat :| NearTriple(words, ranks, keep, h, m, c);
      var i, j, k := TripleIsCandidates(words, order, ranks, keep, h, m, c);
    }
  }

  /** The hints chosen for a target without curated ones, without the order or the candidates. */
  ghost predicate BestHints(outcome: Outcome, words: seq<string>, ranks: seq<nat>, safe: string -> bool,
                            penaltyOfRank: (int, int) -> real, hot: nat, middle: nat, cold: nat)
    requires |ranks| == |words|
  {
    && NearTriple(words, ranks, safe, hot, middle, cold)
    && LeastPenalty(words, ranks, safe, penaltyOfRank, hot, middle, cold)
    && outcome == Hints([words[cold], words[middle], words[hot]],
                        ranks[cold] > 250 || ranks[middle] > 100 || ranks[hot] > 30)
  }

  ghost predicate ProvisionalHints(outcome: Outcome, words: seq<string>, ranks: seq<nat>, provisional: string -> bool,
                                   hot: nat, middle: nat, cold: nat)
    requires |ranks| == |words|
  {
    && NearestTriple(words, ranks, provisional, hot, middle, cold)
    && outcome == Hints([words[cold], words[middle], words[hot]], true)
  }

  ghost predicate HintsOfTable(outcome: Outcome, words: seq<string>, ranks: seq<nat>, safe: string -> bool,
                               provisional: string -> bool, penaltyOfRank: (int, int) -> real)
    requires |ranks| == |words|
  {
    if HasNearTriple(words, ranks, safe) then
      exists hot: nat, middle: nat, cold: nat ::
        BestHints(outcome, words, ranks, safe, penaltyOfRank, hot, middle, cold)
    else if HasNearTriple(words, ranks, provisional) then
      exists hot: nat, middle: nat, cold: nat ::
        ProvisionalHints(outcome, words, ranks, provisional, hot, middle, cold)
    else outcome.Rejected?
  }

  /** The penalty of three candidates by their ranks. */
  lemma PenaltyOfRanks(candidates: seq<string>, words: seq<string>, ranks: seq<nat>, penaltyOfRank: (int, int) -> real,
                       i: nat, j: nat, k: nat, h: nat, m: nat, c: nat)
    requires |ranks| == |words| && i < j < k < |candidates| && h < |words| && m < |words| && c < |words|
    requires RankIn(words, ranks, candidates[i]) == ranks[h] && RankIn(words, ranks, candidates[j]) == ranks[m]
    requires RankIn(words, ranks, candidates[k]) == ranks[c]
    ensures Total(CandidatePenalty(candidates, words, ranks, penaltyOfRank), i, j, k)
            == penaltyOfRank(ranks[c], 100) + penaltyOfRank(ranks[m], 40) + penaltyOfRank(ranks[h], 10)
  {}

  lemma LeastOfCandidates(words: seq<string>, order: seq<nat>, ranks: seq<nat>, outcome: Outcome,
                          safe: string -> bool, penaltyOfRank: (int, int) -> real, hot: nat, middle: nat, cold: nat,
                          h: nat, m: nat, c: nat)
    requires TableOf(words, order, ranks) && outcome.Hints?
    requires IsBest(outcome, Filter(Nearest(words, order), safe), words, ranks, penaltyOfRank, hot, middle, cold)
    requires NearTriple(words, ranks, safe, h, m, c)
    ensures Total(CandidatePenalty(Filter(Nearest(words, order), safe), words, ranks, penaltyOfRank), hot, middle, cold)
            <= penaltyOfRank(ranks[c], 100) + penaltyOfRank(ranks[m], 40) + penaltyOfRank(ranks[h], 10)
  {
    var candidates := Filter(Nearest(words, order), safe);
    var i, j, k := TripleIsCandidates(words, order, ranks, safe, h, m, c);
    PenaltyOfRanks(candidates, words, ranks, penaltyOfRank, i, j, k, h, m, c);
  }

  lemma BestOfIsBestHints(words: seq<string>, order: seq<nat>, ranks: seq<nat>, outcome: Outcome,
                          safe: string -> bool, penaltyOfRank: (int, int) -> real, hot: nat, middle: nat, cold: nat)
    returns (h: nat, m: nat, c: nat)
    requires TableOf(words, order, ranks) && outcome.Hints?
    requires IsBest(outcome, Filter(Nearest(words, order), safe), words, ranks, penaltyOfRank, hot, middle, cold)
    ensures BestHints(outcome, words, ranks, safe, penaltyOfRank, h, m, c)
  {
    var candidates := Filter(Nearest(words, order), safe);
    h, m, c := CandidatesAreTriple(words, order, ranks, safe, hot, middle, cold);
    PenaltyOfRanks(candidates, words, ranks, penaltyOfRank, hot, middle, cold, h, m, c);
    forall h': nat, m': nat, c': nat | NearTriple(words, ranks, safe, h', m', c')
      ensures penaltyOfRank(ranks[c], 100) + penaltyOfRank(ranks[m], 40) + penaltyOfRank(ranks[h], 10)
              <= penaltyOfRank(ranks[c'], 100) + penaltyOfRank(ranks[m'], 40) + penaltyOfRank(ranks[h'], 10)
    {
      LeastOfCandidates(words, order, ranks, outcome, safe, penaltyOfRank, hot, middle, cold, h', m', c');
    }
    FlagOfRanks(outcome, words, ranks, h, m, c);
  }

  lemma FlagOfRanks(outcome: Outcome, words: seq<string>, ranks: seq<nat>, h: nat, m: nat, c: nat)
    requires |ranks| == |words| && h < |words| && m < |words| && c < |words|
    requires outcome.Hints? && outcome.hints == [words[c], words[m], words[h]]
    requires RankIn(words, ranks, words[h]) == ranks[h] && RankIn(words, ranks, words[m]) == ranks[m]
    requires RankIn(words, ranks, words[c]) == ranks[c]
    requires outcome.needsCuration <==>
      exists i :: 0 <= i < 3 && RankIn(words, ranks, outcome.hints[i]) > AUTOMATIC_HINT_MAX_RANKS[i]
    ensures outcome.needsCuration <==> ranks[c] > 250 || ranks[m] > 100 || ranks[h] > 30
  {
    assert AUTOMATIC_HINT_MAX_RANKS[0] == 250 && AUTOMATIC_HINT_MAX_RANKS[1] == 100;
    assert AUTOMATIC_HINT_MAX_RANKS[2] == 30;
    assert outcome.hints[0] == words[c] && outcome.hints[1] == words[m] && outcome.hints[2] == words[h];
  }

  lemma FirstThreeAreNearest(words: seq<string>, order: seq<nat>, ranks: seq<nat>, outcome: Outcome,
                             provisional: string -> bool)
    returns (h: nat, m: nat, c: nat)
    requires TableOf(words, order, ranks) && |Filter(Nearest(words, order), provisional)| >= 3
    requires var fallback := Filter(Nearest(words, order), provisional);
      outcome == Hints([fallback[2], fallback[1], fallback[0]], true)
    ensures ProvisionalHints(outcome, words, ranks, provisional, h, m, c)
  {
    h, m, c := CandidatesAreTriple(words, order, ranks, provisional, 0, 1, 2);
    CandidatesRise(words, order, ranks, provisional);
    forall w: nat | IsNear(words, ranks, provisional, w) && ranks[w] <= ranks[c]
      ensures w in [h, m, c]
    {
      var i := NearIsCandidate(words, order, ranks, provisional, w);
      RisingBounds(Filter(Nearest(words, order), provisional), w => RankIn(words, ranks, w), i, 2);
      OneOfThree(words, Filter(Nearest(words, order), provisional), i, w, h, m, c);
    }
  }

  /**
   * Without curated hints: the triple of safe words of ranks 1 to 1999 whose ranks
   * are nearest to 100, 40 and 10, flagged when one is beyond 250, 100 or 30; if
   * there is none, the three nearest provisional words, always flagged; else none.
   */
  lemma HintsComeFromTable(words: seq<string>, order: seq<nat>, ranks: seq<nat>, target: string, outcome: Outcome,
                           safe: string -> bool, provisional: string -> bool, penaltyOfRank: (int, int) -> real)
    requires TableOf(words, order, ranks)
    requires Chosen(outcome, words, order, ranks, target, None, safe, provisional, penaltyOfRank)
    ensures HintsOfTable(outcome, words, ranks, safe, provisional, penaltyOfRank)
  {
    var candidates := Filter(Nearest(words, order), safe);
    TriplesNeedThree(words, order, ranks, safe);
    TriplesNeedThree(words, order, ranks, provisional);
    if |candidates| >= 3 {
      var hot: nat, middle: nat, cold: nat :|
        IsBest(outcome, candidates, words, ranks, penaltyOfRank, hot, middle, cold);
      var h, m, c := BestOfIsBestHints(words, order, ranks, outcome, safe, penaltyOfRank, hot, middle, cold);
    } else if |Filter(Nearest(words, order), provisional)| >= 3 {
      var h, m, c := FirstThreeAreNearest(words, order, ranks, outcome, provisional);
    }
  }

  /** Curated hints pass exactly when they are three different words. */
  lemma CuratedHintsAreProgressive(words: seq<string>, order: seq<nat>, ranks: seq<nat>, outcome: Outcome,
                                   curated: seq<string>)
    requires TableOf(words, order, ranks) && outcome.Hints?
    requires (forall w <- curated :: w in words) && SortedCurated(outcome, curated, words, ranks)
    ensures Progressive(outcome.hints, w => RankIn(words, ranks, w)) <==> |curated| == 3 && Distinct(curated)
  {
    var hints := outcome.hints;
    SameElements(hints, curated);
    if Distinct(curated) {
      MultisetDistinct(hints, curated);
      forall i, j | 0 <= i < j < |hints|
        ensures RankIn(words, ranks, hints[i]) != RankIn(words, ranks, hints[j])
      {
        assert hints[i] in hints && hints[j] in hints;
        RankOfOrder(ranks, order, IndexOf(words, hints[i]));
        RankOfOrder(ranks, order, IndexOf(words, hints[j]));
      }
    } else if |hints| == 3 {
      if Distinct(hints) {
        MultisetDistinct(curated, hints);
      }
    }
  }
}
