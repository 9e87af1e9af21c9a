/**
 * Overlap, greedy suppression and the area-weighted centroid of
 * scripts/face-detect.ts, over reals.
 */
module FaceDetect {
  import opened Basics
  import opened StableSort

  datatype Box = Box(x1: real, y1: real, x2: real, y2: real, score: real)

  const EPSILON := 0.00001

  const IOU_THRESHOLD := 0.5

  // ---- Overlap ----

  function MinReal(a: real, b: real): real {
    if a < b then a else b
  }

  function MaxReal(a: real, b: real): real {
    if a < b then b else a
  }

  function Area(b: Box): real {
    (b.x2 - b.x1) * (b.y2 - b.y1)
  }

  function Intersection(a: Box, b: Box): real {
    MaxReal(0.0, MinReal(a.x2, b.x2) - MaxReal(a.x1, b.x1)) * MaxReal(0.0, MinReal(a.y2, b.y2) - MaxReal(a.y1, b.y1))
  }

  function Denominator(a: Box, b: Box): real {
    Area(a) + Area(b) - Intersection(a, b) + EPSILON
  }

  function Iou(a: Box, b: Box): real
    requires Denominator(a, b) != 0.0
  {
    Intersection(a, b) / Denominator(a, b)
  }

  predicate WellFormed(b: Box) {
    b.x1 <= b.x2 && b.y1 <= b.y2
  }

  lemma MulGrows(a: real, b: real, c: real, d: real)
    requires 0.0 <= a <= c && 0.0 <= b <= d
    ensures 0.0 <= a * b <= c * d
  {
    assert a * b <= a * d;
    assert a * d <= c * d;
  }

  /** The intersection is no larger than either box. */
  lemma IntersectionIsInside(a: Box, b: Box)
    requires WellFormed(a)
    ensures 0.0 <= Intersection(a, b) <= Area(a)
  {
    MulGrows(MaxReal(0.0, MinReal(a.x2, b.x2) - MaxReal(a.x1, b.x1)),
             MaxReal(0.0, MinReal(a.y2, b.y2) - MaxReal(a.y1, b.y1)), a.x2 - a.x1, a.y2 - a.y1);
  }

  lemma IntersectionIsSymmetric(a: Box, b: Box)
    ensures Intersection(a, b) == Intersection(b, a)
  {}

  lemma QuotientBelowOne(n: real, d: real)
    requires 0.0 <= n < d
    ensures 0.0 <= n / d < 1.0
  {}

  /** For well-formed boxes overlap is symmetric and lies in [0,1). */
  lemma OverlapIsSymmetricAndBounded(a: Box, b: Box)
    requires WellFormed(a) && WellFormed(b)
    ensures 0.0 < Denominator(a, b) == Denominator(b, a)
    ensures 0.0 <= Iou(a, b) < 1.0
    ensures Iou(a, b) == Iou(b, a)
  {
    IntersectionIsInside(a, b);
    IntersectionIsInside(b, a);
    IntersectionIsSymmetric(a, b);
    QuotientBelowOne(Intersection(a, b), Denominator(a, b));
  }

  predicate IsInside(c: Box, a: Box) {
    a.x1 <= c.x1 && c.x2 <= a.x2 && a.y1 <= c.y1 && c.y2 <= a.y2
  }

  ghost predicate IsCommon(c: Box, a: Box, b: Box) {
    WellFormed(c) && IsInside(c, a) && IsInside(c, b)
  }

  /** The intersection is the area of the largest box inside both, and zero if there is none. */
  lemma IntersectionIsLargest(a: Box, b: Box)
    ensures forall c :: IsCommon(c, a, b) ==> (c.x2 - c.x1) * (c.y2 - c.y1) <= Intersection(a, b)
    ensures (exists c :: IsCommon(c, a, b)) ==>
      exists c :: IsCommon(c, a, b) && (c.x2 - c.x1) * (c.y2 - c.y1) == Intersection(a, b)
    ensures (forall c :: !IsCommon(c, a, b)) ==> Intersection(a, b) == 0.0
  {
    var width, height := MinReal(a.x2, b.x2) - MaxReal(a.x1, b.x1), MinReal(a.y2, b.y2) - MaxReal(a.y1, b.y1);
    var common := Box(MaxReal(a.x1, b.x1), MaxReal(a.y1, b.y1), MinReal(a.x2, b.x2), MinReal(a.y2, b.y2), 0.0);
    forall c | IsCommon(c, a, b)
      ensures IsCommon(common, a, b) && (c.x2 - c.x1) * (c.y2 - c.y1) <= Intersection(a, b)
    {
      MulGrows(c.x2 - c.x1, c.y2 - c.y1, width, height);
    }
    assert IsCommon(common, a, b) <==> 0.0 <= width && 0.0 <= height;
    assert IsCommon(common, a, b) ==> Intersection(a, b) == width * height;
  }

  /** Two boxes share no more than the threshold exactly when
      three times what they share is no more than their areas. */
  lemma ThresholdInAreas(a: Box, b: Box)
    requires WellFormed(a) && WellFormed(b)
    ensures Separate(a, b) <==>
      3.0 * Intersection(a, b) <= (a.x2 - a.x1) * (a.y2 - a.y1) + (b.x2 - b.x1) * (b.y2 - b.y1) + 0.00001
  {
    OverlapIsSymmetricAndBounded(a, b);
    var n, d := Intersection(a, b), Denominator(a, b);
    assert n / d * d == n;
    if n / d <= 0.5 {
      assert n / d * d <= 0.5 * d;
    } else {
      assert n / d * d > 0.5 * d;
    }
  }

  // ---- Suppression ----

  /** `iou(a, b) <= IOU_THRESHOLD`; a division by zero is infinite or not a number, and fails the test. */
  predicate Separate(a: Box, b: Box) {
    Denominator(a, b) != 0.0 && Iou(a, b) <= IOU_THRESHOLD
  }

  predicate Before(a: Box, b: Box) {
    b.score < a.score
  }

  function ByScore(boxes: seq<Box>): seq<Box> {
    Sort(boxes, Before)
  }

  predicate AllSeparate(kept: seq<Box>, box: Box) {
    forall k <- kept :: Separate(k, box)
  }

  /** One pass in the given order: a box is kept when every box kept so far is separate from it. */
  function Kept(boxes: seq<Box>): seq<Box> {
    if boxes == [] then []
    else
      var before := Kept(boxes[..|boxes| - 1]);
      var box := boxes[|boxes| - 1];
      if AllSeparate(before, box) then before + [box] else before
  }

  function Nms(boxes: seq<Box>): seq<Box> {
    Kept(ByScore(boxes))
  }

  method NonMaximumSuppression(boxes: seq<Box>) returns (kept: seq<Box>)
    ensures kept == Nms(boxes)
  {
    var sorted := ByScore(boxes);
    kept := [];
    for i := 0 to |sorted|
      invariant kept == Kept(sorted[..i])
    {
      assert sorted[..i + 1][..i] == sorted[..i];
      if AllSeparate(kept, sorted[i]) {
        kept := kept + [sorted[i]];
      }
    }
    assert sorted[..|sorted|] == sorted;
  }

  // ---- The one solution ----

  /** A choice in which a box is kept exactly when no earlier kept box overlaps it above the threshold. */
  ghost predicate IsSuppression(boxes: seq<Box>, flags: seq<bool>) {
    && |flags| == |boxes|
    && forall i :: 0 <= i < |boxes| ==> (flags[i] <==> NoneKeptOverlaps(boxes, flags, i))
  }

  ghost predicate NoneKeptOverlaps(boxes: seq<Box>, flags: seq<bool>, i: nat)
    requires i < |boxes| == |flags|
  {
    forall j :: 0 <= j < i && flags[j] ==> Separate(boxes[j], boxes[i])
  }

  function Select(boxes: seq<Box>, flags: seq<bool>): seq<Box>
    requires |boxes| == |flags|
  {
    if boxes == [] then []
    else
      var n := |boxes| - 1;
      Select(boxes[..n], flags[..n]) + if flags[n] then [boxes[n]] else []
  }

  lemma {:induction false} SelectMember(boxes: seq<Box>, flags: seq<bool>, b: Box)
    requires |boxes| == |flags|
    ensures b in Select(boxes, flags) <==> exists j :: 0 <= j < |boxes| && flags[j] && boxes[j] == b
  {
    if boxes != [] {
      var n := |boxes| - 1;
      SelectMember(boxes[..n], flags[..n], b);
    }
  }

  lemma PrefixAgrees(boxes: seq<Box>, flags: seq<bool>, n: nat, i: nat)
    requires i < n <= |boxes| == |flags|
    ensures NoneKeptOverlaps(boxes[..n], flags[..n], i) <==> NoneKeptOverlaps(boxes, flags, i)
  {
    assert boxes[..n][i] == boxes[i];
    assert forall j :: 0 <= j < i ==> boxes[..n][j] == boxes[j] && flags[..n][j] == flags[j];
  }

  lemma PrefixSuppression(boxes: seq<Box>, flags: seq<bool>, n: nat)
    requires IsSuppression(boxes, flags) && n <= |boxes|
    ensures IsSuppression(boxes[..n], flags[..n])
  {
    forall i | 0 <= i < n
      ensures flags[..n][i] <==> NoneKeptOverlaps(boxes[..n], flags[..n], i)
    {
      PrefixAgrees(boxes, flags, n, i);
    }
  }

  lemma SelectedAgree(boxes: seq<Box>, flags: seq<bool>, n: nat)
    requires n < |boxes| == |flags|
    ensures NoneKeptOverlaps(boxes, flags, n) <==> AllSeparate(Select(boxes[..n], flags[..n]), boxes[n])
  {
    var kept := Select(boxes[..n], flags[..n]);
    forall j | 0 <= j < n && flags[j]
      ensures boxes[j] in kept
    {
      assert boxes[..n][j] == boxes[j] && flags[..n][j];
      SelectMember(boxes[..n], flags[..n], boxes[j]);
    }
    forall k | k in kept
      ensures exists j :: 0 <= j < n && flags[j] && boxes[j] == k
    {
      SelectMember(boxes[..n], flags[..n], k);
      var j :| 0 <= j < n && flags[..n][j] && boxes[..n][j] == k;
      assert flags[j] && boxes[j] == k;
    }
  }

  /** Any such choice selects what the pass keeps: there is only one. */
  lemma {:induction false} SuppressionIsUnique(boxes: seq<Box>, flags: seq<bool>)
    requires IsSuppression(boxes, flags)
    ensures Select(boxes, flags) == Kept(boxes)
  {
    if boxes != [] {
      var n := |boxes| - 1;
      PrefixSuppression(boxes, flags, n);
      SuppressionIsUnique(boxes[..n], flags[..n]);
      SelectedAgree(boxes, flags, n);
    }
  }

  /** The choice exists: the flags the pass itself makes. */
  function Flags(boxes: seq<Box>): (r: seq<bool>)
    ensures |r| == |boxes|
  {
    if boxes == [] then []
    else
      var n := |boxes| - 1;
      Flags(boxes[..n]) + [AllSeparate(Kept(boxes[..n]), boxes[n])]
  }

  lemma {:induction false} SelectFlags(boxes: seq<Box>)
    ensures Select(boxes, Flags(boxes)) == Kept(boxes)
  {
    if boxes != [] {
      var n := |boxes| - 1;
      SelectFlags(boxes[..n]);
      assert Flags(boxes)[..n] == Flags(boxes[..n]);
    }
  }

  lemma SuppressionExtends(boxes: seq<Box>, flags: seq<bool>, n: nat)
    requires n + 1 == |boxes| == |flags| && IsSuppression(boxes[..n], flags[..n])
    requires flags[n] <==> NoneKeptOverlaps(boxes, flags, n)
    ensures IsSuppression(boxes, flags)
  {
    forall i | 0 <= i < n
      ensures flags[i] <==> NoneKeptOverlaps(boxes, flags, i)
    {
      PrefixAgrees(boxes, flags, n, i);
      assert flags[i] == flags[..n][i];
    }
  }

  lemma {:induction false} FlagsAreSuppression(boxes: seq<Box>)
    ensures IsSuppression(boxes, Flags(boxes))
  {
    if boxes != [] {
      var n := |boxes| - 1;
      var flags := Flags(boxes);
      FlagsAreSuppression(boxes[..n]);
      SelectFlags(boxes[..n]);
      assert flags[..n] == Flags(boxes[..n]);
      SelectedAgree(boxes, flags, n);
      SuppressionExtends(boxes, flags, n);
    }
  }

  // ---- What suppression promises ----

  lemma {:induction false} KeptArePairwiseSeparate(boxes: seq<Box>)
    ensures forall i, j :: 0 <= i < j < |Kept(boxes)| ==> Separate(Kept(boxes)[i], Kept(boxes)[j])
  {
    if boxes != [] {
      KeptArePairwiseSeparate(boxes[..|boxes| - 1]);
    }
  }

  lemma {:induction false} SeparateListIsKept(boxes: seq<Box>)
    requires forall i, j :: 0 <= i < j < |boxes| ==> Separate(boxes[i], boxes[j])
    ensures Kept(boxes) == boxes
  {
    if boxes != [] {
      SeparateListIsKept(boxes[..|boxes| - 1]);
    }
  }

  lemma {:induction false} KeptStaySorted(boxes: seq<Box>)
    requires Sorted(boxes, Before)
    ensures Sorted(Kept(boxes), Before)
    ensures forall k <- Kept(boxes) :: k in boxes
  {
    if boxes != [] {
      KeptStaySorted(boxes[..|boxes| - 1]);
      var before := Kept(boxes[..|boxes| - 1]);
      forall i | 0 <= i < |before|
        ensures !Before(boxes[|boxes| - 1], before[i])
      {
        assert before[i] in before;
        var j :| 0 <= j < |boxes| - 1 && boxes[j] == before[i];
      }
    }
  }

  lemma {:induction false} DroppedAreCovered(boxes: seq<Box>, b: Box)
    requires Sorted(boxes, Before) && b in boxes
    ensures b in Kept(boxes) || exists k <- Kept(boxes) :: !Separate(k, b) && b.score <= k.score
  {
    var n := |boxes| - 1;
    if b in boxes[..n] {
      DroppedAreCovered(boxes[..n], b);
    } else if b !in Kept(boxes) {
      assert b == boxes[n];
      var k :| k in Kept(boxes[..n]) && !Separate(k, b);
      KeptStaySorted(boxes[..n]);
      var j :| 0 <= j < n && boxes[j] == k;
    }
  }

  lemma ByScoreIsSorted(boxes: seq<Box>)
    ensures Sorted(ByScore(boxes), Before) && forall b :: b in ByScore(boxes) <==> b in boxes
  {
    SortSorted(boxes, Before);
    SameElements(ByScore(boxes), boxes);
  }

  /**
   * For well-formed boxes: the kept boxes are pairwise no more than the
   * threshold apart, in score order, and every other box overlaps a kept box
   * of no lower score above the threshold.
   */
  lemma SuppressionCoversAndSeparates(boxes: seq<Box>)
    requires forall b <- boxes :: WellFormed(b)
    ensures var kept := Nms(boxes);
      && Sorted(kept, Before)
      && (forall k <- kept :: k in boxes)
      && (forall i, j :: 0 <= i < |kept| && 0 <= j < |kept| && i != j ==> Separate(kept[i], kept[j]))
      && (forall b <- boxes :: b in kept || exists k <- kept :: !Separate(k, b) && b.score <= k.score)
  {
    var sorted, kept := ByScore(boxes), Nms(boxes);
    ByScoreIsSorted(boxes);
    KeptStaySorted(sorted);
    KeptArePairwiseSeparate(sorted);
    forall i, j | 0 <= i < |kept| && 0 <= j < |kept| && i != j
      ensures Separate(kept[i], kept[j])
    {
      assert kept[i] in kept && kept[j] in kept;
      OverlapIsSymmetricAndBounded(kept[i], kept[j]);
    }
    forall b | b in boxes
      ensures b in kept || exists k <- kept :: !Separate(k, b) && b.score <= k.score
    {
      DroppedAreCovered(sorted, b);
    }
  }

  /** Suppressing again changes nothing, whatever the boxes. */
  lemma SuppressionIsIdempotent(boxes: seq<Box>)
    ensures Nms(Nms(boxes)) == Nms(boxes)
  {
    ByScoreIsSorted(boxes);
    KeptStaySorted(ByScore(boxes));
    KeptArePairwiseSeparate(ByScore(boxes));
    SortKeepsSorted(Nms(boxes), Before);
    SeparateListIsKept(Nms(boxes));
  }

  // ---- The centroid ----

  function CenterX(b: Box): real {
    (b.x1 + b.x2) / 2.0
  }

  function CenterY(b: Box): real {
    (b.y1 + b.y2) / 2.0
  }

  function Weight(faces: seq<Box>): real {
    if faces == [] then 0.0 else Weight(faces[..|faces| - 1]) + Area(faces[|faces| - 1])
  }

  function Moment(faces: seq<Box>, center: Box -> real): real {
    if faces == [] then 0.0
    else Moment(faces[..|faces| - 1], center) + center(faces[|faces| - 1]) * Area(faces[|faces| - 1])
  }

  /** JavaScript's `Math.round`. */
  function Round(x: real): int {
    (x + 0.5).Floor
  }

  function Clamp(x: int): int {
    Max(0, if x < 100 then x else 100)
  }

  /** A coordinate in percent: an infinite quotient is clamped, and zero by zero is not a number. */
  function Percent(moment: real, weight: real): Option<int> {
    if weight != 0.0 then Some(Clamp(Round(moment / weight * 100.0)))
    else if moment > 0.0 then Some(100)
    else if moment < 0.0 then Some(0)
    else None
  }

  method WeightedCentroid(faces: seq<Box>) returns (x: Option<int>, y: Option<int>)
    ensures x == Percent(Moment(faces, CenterX), Weight(faces))
    ensures y == Percent(Moment(faces, CenterY), Weight(faces))
  {
    var totalWeight, wx, wy := 0.0, 0.0, 0.0;
    for i := 0 to |faces|
      invariant totalWeight == Weight(faces[..i])
      invariant wx == Moment(faces[..i], CenterX) && wy == Moment(faces[..i], CenterY)
    {
      assert faces[..i + 1][..i] == faces[..i];
      var f := faces[i];
      var area := (f.x2 - f.x1) * (f.y2 - f.y1);
      wx := wx + (f.x1 + f.x2) / 2.0 * area;
      wy := wy + (f.y1 + f.y2) / 2.0 * area;
      totalWeight := totalWeight + area;
    }
    assert faces[..|faces|] == faces;
    return Percent(wx, totalWeight), Percent(wy, totalWeight);
  }

  /** The centroid of one face is equally far from its left and right edges, and from its upper and lower ones. */
  lemma OneFaceIsItsCentre(f: Box)
    requires (f.x2 - f.x1) * (f.y2 - f.y1) != 0.0
    ensures var weight := Weight([f]);
      && weight == (f.x2 - f.x1) * (f.y2 - f.y1)
      && var cx, cy := Moment([f], CenterX) / weight, Moment([f], CenterY) / weight;
      && cx - f.x1 == f.x2 - cx && cy - f.y1 == f.y2 - cy
  {
    assert [f][..0] == [];
    assert Moment([f], CenterX) == CenterX(f) * Area(f) && Moment([f], CenterY) == CenterY(f) * Area(f);
    QuotientOfProduct(CenterX(f), Area(f));
    QuotientOfProduct(CenterY(f), Area(f));
  }

  lemma QuotientOfProduct(c: real, area: real)
    requires area != 0.0
    ensures c * area / area == c
  {}

  /** Two groups of faces weigh together what they weigh apart, so that no face counts for more than its area. */
  lemma {:induction false} MomentsAdd(a: seq<Box>, b: seq<Box>, center: Box -> real)
    ensures Weight(a + b) == Weight(a) + Weight(b)
    ensures Moment(a + b, center) == Moment(a, center) + Moment(b, center)
  {
    if b == [] {
      assert a + b == a;
    } else {
      assert (a + b)[..|a + b| - 1] == a + b[..|b| - 1];
      MomentsAdd(a, b[..|b| - 1], center);
    }
  }

  /** A coordinate is the nearest whole percent, halves rounded up, and never outside 0 to 100. */
  lemma PercentIsNearest(moment: real, weight: real)
    ensures weight == 0.0 ==>
      Percent(moment, weight) == if moment > 0.0 then Some(100) else if moment < 0.0 then Some(0) else None
    ensures weight != 0.0 ==> Percent(moment, weight).Some?
    ensures weight != 0.0 ==>
      var c, p := 100.0 * (moment / weight), Percent(moment, weight).value;
      && 0 <= p <= 100
      && (0.0 <= c <= 100.0 ==> c - 0.5 < p as real <= c + 0.5)
      && (c < 0.0 ==> p == 0) && (c > 100.0 ==> p == 100)
  {
  }

  ghost predicate PositiveArea(faces: seq<Box>) {
    forall f <- faces :: Area(f) > 0.0
  }

  /** Adding one more term keeps a bound on a weighted sum. */
  lemma OneMoreTerm(lo: real, weight: real, moment: real, center: real, area: real)
    requires lo * weight <= moment && lo <= center && area >= 0.0
    ensures lo * (weight + area) <= moment + center * area
  {
    assert 0.0 <= (center - lo) * area;
    assert (center - lo) * area == center * area - lo * area;
    assert lo * (weight + area) == lo * weight + lo * area;
  }

  lemma {:induction false} MomentAbove(faces: seq<Box>, center: Box -> real, lo: real)
    requires PositiveArea(faces) && forall f <- faces :: lo <= center(f)
    ensures lo * Weight(faces) <= Moment(faces, center)
  {
    if faces != [] {
      var front, last := faces[..|faces| - 1], faces[|faces| - 1];
      MomentAbove(front, center, lo);
      OneMoreTerm(lo, Weight(front), Moment(front, center), center(last), Area(last));
    }
  }

  lemma {:induction false} MomentBelow(faces: seq<Box>, center: Box -> real, hi: real)
    requires PositiveArea(faces) && forall f <- faces :: center(f) <= hi
    ensures Moment(faces, center) <= hi * Weight(faces)
  {
    if faces != [] {
      var front, last := faces[..|faces| - 1], faces[|faces| - 1];
      MomentBelow(front, center, hi);
      OneMoreTerm(-hi, Weight(front), -Moment(front, center), -center(last), Area(last));
    }
  }

  lemma {:induction false} WeightIsPositive(faces: seq<Box>)
    requires PositiveArea(faces) && faces != []
    ensures Weight(faces) > 0.0
  {
    if |faces| > 1 {
      WeightIsPositive(faces[..|faces| - 1]);
    }
    assert faces[|faces| - 1] in faces;
  }

  lemma QuotientBounds(m: real, w: real, lo: real, hi: real)
    requires w > 0.0 && lo * w <= m <= hi * w
    ensures lo <= m / w <= hi
  {
    var q := m / w;
    assert q * w == m;
    assert q < lo ==> q * w < lo * w;
    assert q > hi ==> q * w > hi * w;
  }

  /** Each coordinate of the unrounded centroid lies between the smallest and the largest centre. */
  lemma CentroidIsBetweenCentres(faces: seq<Box>, center: Box -> real, lo: real, hi: real)
    requires faces != [] && PositiveArea(faces) && forall f <- faces :: lo <= center(f) <= hi
    ensures Weight(faces) > 0.0 && lo <= Moment(faces, center) / Weight(faces) <= hi
  {
    WeightIsPositive(faces);
    MomentAbove(faces, center, lo);
    MomentBelow(faces, center, hi);
    QuotientBounds(Moment(faces, center), Weight(faces), lo, hi);
  }

  /** With every centre inside the frame the clamp changes nothing: the result is the rounded centroid itself. */
  lemma ClampChangesNothing(faces: seq<Box>, center: Box -> real)
    requires faces != [] && PositiveArea(faces) && forall f <- faces :: 0.0 <= center(f) <= 1.0
    ensures Weight(faces) > 0.0
    ensures var c := Moment(faces, center) / Weight(faces) * 100.0;
      Percent(Moment(faces, center), Weight(faces)) == Some(Round(c)) && c - 0.5 < Round(c) as real <= c + 0.5
  {
    CentroidIsBetweenCentres(faces, center, 0.0, 1.0);
  }
}
