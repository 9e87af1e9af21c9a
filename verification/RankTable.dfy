/**
 * The rank table of one Hot and Cold target: `rankAndHints` sorts the word
 * indices and inverts the order (scripts/generate-hot-and-cold-data.ts), and the
 * `seen` scan shared by the generator and the checker recognises permutations.
 */
module RankTable {
  import opened StableSort

  /** A Uint16Array stores every rank modulo this. */
  const U16 := 0x1_0000

  /** The comparator of the sort: the target first, then score, then spelling. */
  predicate Before(words: seq<string>, score: seq<real>, less: (string, string) -> bool, target: string, l: nat, r: nat)
    requires |score| == |words|
  {
    && l < |words| && r < |words| && l != r
    && (words[l] == target
        || (words[r] != target
            && (score[l] > score[r] || (score[l] == score[r] && less(words[l], words[r])))))
  }

  ghost predicate Distinct<T>(xs: seq<T>) {
    forall i, j :: 0 <= i < j < |xs| ==> xs[i] != xs[j]
  }

  /** localeCompare on the dictionary's words, as any strict total order. */
  ghost predicate TotalOrder(words: seq<string>, less: (string, string) -> bool) {
    && (forall a <- words, b <- words :: less(a, b) ==> !less(b, a))
    && (forall a <- words, b <- words, c <- words :: less(a, b) && less(b, c) ==> less(a, c))
    && (forall a <- words, b <- words :: a != b ==> less(a, b) || less(b, a))
  }

  function Indices(n: nat): seq<nat> {
    seq(n, i => i)
  }

  /** Array.prototype.sort applied to the word indices. */
  function Order(words: seq<string>, score: seq<real>, less: (string, string) -> bool, target: string): seq<nat>
    requires |score| == |words|
  {
    Sort(Indices(|words|), (l: nat, r: nat) => Before(words, score, less, target, l, r))
  }

  /** Every value below the length occurs exactly once. */
  ghost predicate IsPermutation(xs: seq<nat>) {
    && (forall x <- xs :: x < |xs|)
    && Distinct(xs)
    && (forall v: nat :: v < |xs| ==> v in xs)
  }

  // ---- Pigeonhole ----

  function Below(n: nat): (s: set<nat>)
    ensures forall v: nat :: v in s <==> v < n
    ensures |s| == n
  {
    if n == 0 then {} else Below(n - 1) + {n - 1}
  }

  /** A list has as many members as places exactly when they are distinct. */
  lemma {:induction false} DistinctSize<T>(xs: seq<T>)
    ensures |(set x | x in xs)| <= |xs|
    ensures |(set x | x in xs)| == |xs| <==> Distinct(xs)
  {
    if xs != [] {
      var rest := xs[1..];
      DistinctSize(rest);
      assert (set x | x in xs) == (set x | x in rest) + {xs[0]};
      DistinctCons(xs);
    }
  }

  lemma DistinctCons<T>(xs: seq<T>)
    requires xs != []
    ensures Distinct(xs) <==> Distinct(xs[1..]) && xs[0] !in xs[1..]
  {
    var rest := xs[1..];
    assert forall i :: 0 <= i < |rest| ==> rest[i] == xs[i + 1];
    assert forall i :: 0 < i < |xs| ==> xs[i] == rest[i - 1];
  }

  lemma SubsetOfSameSize<T>(a: set<T>, b: set<T>)
    requires a <= b && |a| == |b|
    ensures a == b
  {
    assert b == a + (b - a);
    assert |b| == |a| + |b - a|;
  }

  lemma FullIsDistinct(xs: seq<nat>)
    requires (forall x <- xs :: x < |xs|) && forall v: nat :: v < |xs| ==> v in xs
    ensures Distinct(xs)
  {
    var members := set x | x in xs;
    DistinctSize(xs);
    assert Below(|xs|) <= members;
    assert members == Below(|xs|) + (members - Below(|xs|));
    assert |members| == |xs|;
  }

  /** Values in range are distinct if and only if they fill the whole range. */
  lemma Pigeonhole(xs: seq<nat>)
    requires forall x <- xs :: x < |xs|
    ensures Distinct(xs) <==> forall v: nat :: v < |xs| ==> v in xs
    ensures Distinct(xs) ==> IsPermutation(xs)
  {
    if Distinct(xs) {
      var members := set x | x in xs;
      DistinctSize(xs);
      assert members <= Below(|xs|);
      SubsetOfSameSize(members, Below(|xs|));
      forall v: nat | v < |xs|
        ensures v in xs
      {
        assert v in Below(|xs|);
      }
    }
    if forall v: nat :: v < |xs| ==> v in xs {
      FullIsDistinct(xs);
    }
  }

  // ---- The sorted order ----

  lemma MultisetDistinct<T>(xs: seq<T>, ys: seq<T>)
    requires multiset(xs) == multiset(ys) && Distinct(ys)
    ensures Distinct(xs)
  {
    forall i, j | 0 <= i < j < |xs|
      ensures xs[i] != xs[j]
    {
      if xs[i] == xs[j] {
        assert xs == xs[..j] + [xs[j]] + xs[j + 1..];
        assert xs[i] in xs[..j];
        assert multiset(xs)[xs[j]] >= 2;
        OccursOnce(ys, xs[j]);
      }
    }
  }

  lemma {:induction false} OccursOnce<T>(ys: seq<T>, y: T)
    requires Distinct(ys)
    ensures multiset(ys)[y] <= 1
  {
    if ys != [] {
      OccursOnce(ys[1..], y);
      assert ys == [ys[0]] + ys[1..];
      if ys[0] == y {
        assert y !in multiset(ys[1..]);
      }
    }
  }

  lemma OrderIsPermutation(words: seq<string>, score: seq<real>, less: (string, string) -> bool, target: string)
    requires |score| == |words|
    ensures |Order(words, score, less, target)| == |words|
    ensures IsPermutation(Order(words, score, less, target))
  {
    var order := Order(words, score, less, target);
    SameElements(order, Indices(|words|));
    MultisetDistinct(order, Indices(|words|));
    Pigeonhole(order);
  }

  lemma BeforeIsConsistent(words: seq<string>, score: seq<real>, less: (string, string) -> bool, target: string)
    requires |score| == |words| && Distinct(words) && TotalOrder(words, less)
    ensures Consistent(Indices(|words|), (l: nat, r: nat) => Before(words, score, less, target, l, r))
  {
  }

  /** The target, if the dictionary has it, comes first; then the highest scores, and equal scores by spelling. */
  ghost predicate NearestFirst(words: seq<string>, score: seq<real>, less: (string, string) -> bool, target: string,
                               order: seq<nat>)
    requires |score| == |words|
  {
    && (forall i :: 0 <= i < |order| ==> order[i] < |words|)
    && (forall i, j :: 0 <= i < j < |order| ==>
          && words[order[j]] != target
          && (|| words[order[i]] == target
              || score[order[i]] > score[order[j]]
              || (score[order[i]] == score[order[j]] && less(words[order[i]], words[order[j]]))))
  }

  lemma OrderIsSorted(words: seq<string>, score: seq<real>, less: (string, string) -> bool, target: string)
    requires |score| == |words| && Distinct(words) && TotalOrder(words, less)
    ensures NearestFirst(words, score, less, target, Order(words, score, less, target))
    ensures var order := Order(words, score, less, target);
      target in words ==> order != [] && order[0] < |words| && words[order[0]] == target
  {
    var order := Order(words, score, less, target);
    OrderIsPermutation(words, score, less, target);
    BeforeIsConsistent(words, score, less, target);
    SortSorted(Indices(|words|), (l: nat, r: nat) => Before(words, score, less, target, l, r));
    forall i, j | 0 <= i < j < |order|
      ensures Before(words, score, less, target, order[i], order[j]) && words[order[j]] != target
    {
      var l, r := order[i], order[j];
      assert l in order && r in order;
      assert !Before(words, score, less, target, r, l);
      assert l != r && words[l] != words[r];
      assert words[l] in words && words[r] in words;
    }
    if target in words {
      var v :| 0 <= v < |words| && words[v] == target;
      assert v in order;
      var t :| 0 <= t < |order| && order[t] == v;
      assert order[0] in order;
      assert t == 0;
    }
  }

  // ---- The inverse ----

  /** `ranks` inverts `order`, up to the wrap-around of its sixteen-bit cells. */
  ghost predicate Inverts(ranks: seq<nat>, order: seq<nat>) {
    && |ranks| == |order|
    && forall i :: 0 <= i < |order| ==> order[i] < |ranks| && ranks[order[i]] == i % U16
  }

  method InvertOrder(order: seq<nat>) returns (ranks: array<nat>)
    requires IsPermutation(order)
    ensures fresh(ranks) && Inverts(ranks[..], order)
  {
    ranks := new nat[|order|](_ => 0);
    assert forall i :: 0 <= i < |order| ==> order[i] in order;
    for index := 0 to |order|
      invariant forall i :: 0 <= i < |order| ==> order[i] < ranks.Length
      invariant forall i :: 0 <= i < index ==> ranks[order[i]] == i % U16
    {
      assert order[index] in order;
      ranks[order[index]] := index % U16;
    }
  }

  /** The scan with a `seen` table, which stops at the first bad rank. */
  method ScanRanks(ranks: seq<nat>) returns (complete: bool)
    ensures complete <==> IsPermutation(ranks)
  {
    var n := |ranks|;
    var seen := new bool[n](_ => false);
    for i := 0 to n
      invariant forall k :: 0 <= k < i ==> ranks[k] < n
      invariant forall v :: 0 <= v < n ==> (seen[v] <==> v in ranks[..i])
      invariant Distinct(ranks[..i])
    {
      var rank := ranks[i];
      if rank >= n || seen[rank] {
        if rank < n {
          var k :| 0 <= k < i && ranks[k] == rank;
        } else {
          assert ranks[i] in ranks;
        }
        return false;
      }
      seen[rank] := true;
      assert ranks[..i + 1] == ranks[..i] + [rank];
    }
    assert ranks[..n] == ranks;
    Pigeonhole(ranks);
    return true;
  }

  /** The scan accepts an inverted order exactly when no rank wrapped. */
  lemma InverseIsPermutation(ranks: seq<nat>, order: seq<nat>)
    requires IsPermutation(order) && Inverts(ranks, order)
    ensures IsPermutation(ranks) <==> |ranks| <= U16
  {
    var n := |ranks|;
    if n <= U16 {
      forall v: nat | v < n
        ensures v in ranks
      {
        assert ranks[order[v]] == v;
      }
      forall w | 0 <= w < n
        ensures ranks[w] < n && order[ranks[w]] == w
      {
        assert w in order;
        var i :| 0 <= i < n && order[i] == w;
      }
    } else {
      assert ranks[order[0]] == 0 && ranks[order[U16]] == 0;
      assert order[0] != order[U16];
    }
  }

  /**
   * What a rank means: the target has rank zero, and of two other words the one
   * of lower rank has the higher score, or the same score and comes first in the
   * spelling.
   */
  ghost predicate LowerIsNearer(words: seq<string>, score: seq<real>, less: (string, string) -> bool, target: string,
                                ranks: seq<nat>)
    requires |ranks| == |score| == |words|
  {
    && (forall w :: 0 <= w < |words| && words[w] == target ==> ranks[w] == 0)
    && (forall v, w :: 0 <= v < |words| && 0 <= w < |words| && ranks[v] < ranks[w] && words[v] != target ==>
          score[v] > score[w] || (score[v] == score[w] && less(words[v], words[w])))
  }

  lemma RanksFollowScores(words: seq<string>, score: seq<real>, less: (string, string) -> bool, target: string,
                          ranks: seq<nat>)
    requires |score| == |words| <= U16 && Distinct(words) && TotalOrder(words, less)
    requires Inverts(ranks, Order(words, score, less, target))
    ensures |ranks| == |words| && LowerIsNearer(words, score, less, target, ranks)
  {
    var order := Order(words, score, less, target);
    OrderIsPermutation(words, score, less, target);
    OrderIsSorted(words, score, less, target);
    forall w | 0 <= w < |words|
      ensures ranks[w] < |order| && order[ranks[w]] == w
    {
      RankOfOrder(ranks, order, w);
    }
    forall w | 0 <= w < |words| && words[w] == target
      ensures ranks[w] == 0
    {
      assert words[order[ranks[w]]] == target && order[0] in order;
    }
  }

  /** Within sixteen bits the table and the order are inverse to each other. */
  lemma RankOfOrder(ranks: seq<nat>, order: seq<nat>, w: nat)
    requires IsPermutation(order) && Inverts(ranks, order) && |ranks| <= U16 && w < |ranks|
    ensures ranks[w] < |order| && order[ranks[w]] == w
  {
    assert w in order;
    var i :| 0 <= i < |order| && order[i] == w;
  }
}
