/** Order statistics of interval samples and the regularity scores built on them. */
module Stats {

  predicate Sorted(s: seq<real>) {
    forall i, j :: 0 <= i < j < |s| ==> s[i] <= s[j]
  }

  function Insert(x: real, s: seq<real>): (r: seq<real>)
    ensures |r| == |s| + 1
  {
    if s == [] || x <= s[0] then [x] + s else [s[0]] + Insert(x, s[1..])
  }

  function Sort(s: seq<real>): (r: seq<real>)
    ensures |r| == |s|
  {
    if s == [] then [] else Insert(s[0], Sort(s[1..]))
  }

  /** How many elements lie strictly below the bound. */
  function Below(s: seq<real>, bound: real): nat {
    if s == [] then 0 else (if s[0] < bound then 1 else 0) + Below(s[1..], bound)
  }

  lemma SortedCons(x: real, s: seq<real>)
    requires Sorted(s) && (s != [] ==> x <= s[0])
    ensures Sorted([x] + s)
  {
  }

  lemma {:induction false} InsertSorts(x: real, s: seq<real>)
    requires Sorted(s)
    ensures Sorted(Insert(x, s))
    ensures Insert(x, s)[0] == if s != [] && s[0] < x then s[0] else x
  {
    if s == [] || x <= s[0] {
      SortedCons(x, s);
    } else {
      InsertSorts(x, s[1..]);
      SortedCons(s[0], Insert(x, s[1..]));
    }
  }

  lemma {:induction false} InsertCounts(x: real, s: seq<real>, bound: real)
    ensures Below(Insert(x, s), bound) == Below(s, bound) + if x < bound then 1 else 0
    ensures multiset(Insert(x, s)) == multiset(s) + multiset{x}
  {
    if s == [] || x <= s[0] {
      assert ([x] + s)[1..] == s;
    } else {
      InsertCounts(x, s[1..], bound);
      assert s == [s[0]] + s[1..];
      assert ([s[0]] + Insert(x, s[1..]))[1..] == Insert(x, s[1..]);
    }
  }

  /** Sorting orders a sample and changes nothing else about it. */
  lemma {:induction false} SortSorts(s: seq<real>, bound: real)
    ensures Sorted(Sort(s)) && multiset(Sort(s)) == multiset(s)
    ensures Below(Sort(s), bound) == Below(s, bound)
  {
    if s != [] {
      SortSorts(s[1..], bound);
      InsertSorts(s[0], Sort(s[1..]));
      InsertCounts(s[0], Sort(s[1..]), bound);
      assert s == [s[0]] + s[1..];
    }
  }

  lemma {:induction false} SortOfSorted(s: seq<real>)
    requires Sorted(s)
    ensures Sort(s) == s
  {
    if s != [] {
      SortOfSorted(s[1..]);
      assert s == [s[0]] + s[1..];
      if |s| > 1 {
        assert s[0] <= s[1];
      }
    }
  }

  /** The k-th smallest element lies below the bound as soon as more than k elements do. */
  lemma {:induction false} OrderStatistic(s: seq<real>, bound: real, k: nat)
    requires Sorted(s) && k < Below(s, bound)
    ensures k < |s| && s[k] < bound
  {
    if s[0] >= bound {
      NoneBelow(s, bound);
    } else if k > 0 {
      OrderStatistic(s[1..], bound, k - 1);
    }
  }

  lemma {:induction false} NoneBelow(s: seq<real>, bound: real)
    requires forall i :: 0 <= i < |s| ==> s[i] >= bound
    ensures Below(s, bound) == 0
  {
    if s != [] {
      NoneBelow(s[1..], bound);
    }
  }

  // ---- The median ----

  /** The middle of a sorted sample. */
  function Middle(s: seq<real>): real
    requires s != []
  {
    var n := |s|;
    if n % 2 == 1 then s[n / 2] else (s[n / 2 - 1] + s[n / 2]) / 2.0
  }

  function Median(s: seq<real>): real {
    if s == [] then 0.0 else Middle(Sort(s))
  }

  lemma MiddleBetween(s: seq<real>)
    requires Sorted(s) && s != []
    ensures s[0] <= Middle(s) <= s[|s| - 1]
  {
  }

  /** Whatever the size, the median is the mean of the elements around the centre. */
  lemma MedianIsCentre(xs: seq<real>)
    requires xs != []
    ensures var t := Sort(xs); 2.0 * Median(xs) == t[(|xs| - 1) / 2] + t[|xs| / 2]
  {
    hide Sort;
    if |xs| % 2 == 1 {
      assert (|xs| - 1) / 2 == |xs| / 2;
    } else {
      assert (|xs| - 1) / 2 == |xs| / 2 - 1;
    }
  }

  // ---- Bowley ----

  /** Lower-half, whole and upper-half medians; an odd sample's middle element is in neither half. */
  function LowerHalf(t: seq<real>): seq<real> {
    t[..|t| / 2]
  }

  function UpperHalf(t: seq<real>): seq<real> {
    t[(|t| + 1) / 2..]
  }

  function Abs(x: real): real {
    if x < 0.0 then -x else x
  }

  /** The quartiles of any sample are in order. */
  lemma QuartilesOrdered(xs: seq<real>)
    requires |xs| >= 2
    ensures Median(LowerHalf(Sort(xs))) <= Median(Sort(xs)) <= Median(UpperHalf(Sort(xs)))
  {
    SortSorts(xs, 0.0);
    hide Sort; hide Below;
    HalvesAround(Sort(xs));
  }

  lemma HalvesAround(t: seq<real>)
    requires Sorted(t) && |t| >= 2
    ensures Median(LowerHalf(t)) <= Median(t) <= Median(UpperHalf(t))
  {
    var n, lower, upper := |t|, LowerHalf(t), UpperHalf(t);
    assert Sorted(lower) && Sorted(upper);
    SortOfSorted(t);
    SortOfSorted(lower);
    SortOfSorted(upper);
    hide Sort; hide Sorted;
    HalfMiddles(t);
  }

  lemma HalfMiddles(t: seq<real>)
    requires Sorted(t) && |t| >= 2
    ensures Middle(LowerHalf(t)) <= Middle(t) <= Middle(UpperHalf(t))
  {
    var n, lower, upper := |t|, LowerHalf(t), UpperHalf(t);
    MiddleBetween(lower);
    MiddleBetween(upper);
    assert lower[|lower| - 1] == t[n / 2 - 1];
    assert upper[0] == t[(n + 1) / 2];
  }

  function BowleyScore(xs: seq<real>): real {
    if |xs| < 3 then 1.0
    else
      var t := Sort(xs);
      QuartilesOrdered(xs);
      var q2 := Median(t);
      var q1 := Median(LowerHalf(t));
      var q3 := Median(UpperHalf(t));
      var denom := q3 - q1;
      if denom < 0.05 * q2 || q2 == q1 || q2 == q3 then 1.0
      else 1.0 - Abs((q1 + q3 - 2.0 * q2) / denom)
  }

  lemma SkewBounded(q1: real, q2: real, q3: real)
    requires q1 <= q2 <= q3 && q1 < q3
    ensures -1.0 <= (q1 + q3 - 2.0 * q2) / (q3 - q1) <= 1.0
  {
    var n, d := q1 + q3 - 2.0 * q2, q3 - q1;
    assert -d <= n <= d;
    Quotient(n, d);
  }

  lemma Quotient(n: real, d: real)
    requires d > 0.0 && -d <= n <= d
    ensures -1.0 <= n / d <= 1.0
  {
    assert (n / d) * d == n;
  }

  lemma BowleyBounded(xs: seq<real>)
    ensures 0.0 <= BowleyScore(xs) <= 1.0
  {
    hide Sort; hide Median; hide LowerHalf; hide UpperHalf;
    if |xs| >= 3 {
      var t := Sort(xs);
      var q1, q2, q3 := Median(LowerHalf(t)), Median(t), Median(UpperHalf(t));
      QuartilesOrdered(xs);
      if q1 != q2 && q2 != q3 {
        SkewBounded(q1, q2, q3);
      }
    }
  }

  /** The halves take equally many elements from either end and leave out at most the centre. */
  lemma HalvesMeet(t: seq<real>)
    ensures |LowerHalf(t)| == |UpperHalf(t)| && LowerHalf(t) <= t
    ensures t == LowerHalf(t) + t[|t| / 2..(|t| + 1) / 2] + UpperHalf(t) && |t| - 2 * |LowerHalf(t)| <= 1
  {
  }

  /**
   With the quartiles apart the score is twice the share that the smaller of the two halves
   has of the spread: one when they are alike, nought when one vanishes.
   */
  lemma BowleyIsSmallerShare(xs: seq<real>)
    ensures |xs| < 3 ==> BowleyScore(xs) == 1.0
    ensures |xs| >= 3 ==>
      var t := Sort(xs);
      var q1, q2, q3 := Median(LowerHalf(t)), Median(t), Median(UpperHalf(t));
      if q3 - q1 < 0.05 * q2 || q1 == q2 || q2 == q3 then BowleyScore(xs) == 1.0
      else BowleyScore(xs) * (q3 - q1) == 2.0 * if q2 - q1 < q3 - q2 then q2 - q1 else q3 - q2
  {
    hide Sort; hide Median; hide LowerHalf; hide UpperHalf;
    if |xs| >= 3 {
      var t := Sort(xs);
      var q1, q2, q3 := Median(LowerHalf(t)), Median(t), Median(UpperHalf(t));
      QuartilesOrdered(xs);
      if !(q3 - q1 < 0.05 * q2 || q1 == q2 || q2 == q3) {
        SkewShare(q1, q2, q3);
      }
    }
  }

  lemma SkewShare(q1: real, q2: real, q3: real)
    requires q1 < q2 < q3
    ensures (1.0 - Abs((q1 + q3 - 2.0 * q2) / (q3 - q1))) * (q3 - q1) == 2.0 * if q2 - q1 < q3 - q2 then q2 - q1 else q3 - q2
  {
    var n, d := q1 + q3 - 2.0 * q2, q3 - q1;
    var x := n / d;
    assert x * d == n;
    assert x < 0.0 <==> n < 0.0 by {
      SignOf(x, d);
    }
  }

  lemma SignOf(x: real, d: real)
    requires d > 0.0
    ensures x * d < 0.0 <==> x < 0.0
  {
  }

  // ---- Median absolute deviation ----

  function Deviations(xs: seq<real>, med: real): (r: seq<real>)
    ensures |r| == |xs| && forall i :: 0 <= i < |r| ==> r[i] == Abs(xs[i] - med)
  {
    seq(|xs|, i requires 0 <= i < |xs| => Abs(xs[i] - med))
  }

  function Clamp(x: real): real {
    if x < 0.0 then 0.0 else if x > 1.0 then 1.0 else x
  }

  /** One less the deviation's share of the median, before clamping. */
  function Tightness(xs: seq<real>): real
    requires Median(xs) != 0.0
  {
    var med := Median(xs);
    (med - Median(Deviations(xs, med))) / med
  }

  function MadOf(xs: seq<real>, defaultScore: real): real {
    if xs == [] || Median(xs) == 0.0 then defaultScore else Clamp(Tightness(xs))
  }

  method MadScore(xs: seq<real>, defaultScore: real) returns (score: real)
    ensures score == MadOf(xs, defaultScore)
    ensures 0.0 <= defaultScore <= 1.0 ==> 0.0 <= score <= 1.0
  {
    hide Median;
    if |xs| == 0 {
      return defaultScore;
    }
    var med := Median(xs);
    if med == 0.0 {
      return defaultScore;
    }
    var deviations: seq<real> := [];
    for i := 0 to |xs|
      invariant |deviations| == i
      invariant forall j :: 0 <= j < i ==> deviations[j] == Abs(xs[j] - med)
    {
      deviations := deviations + [Abs(xs[i] - med)];
    }
    assert deviations == Deviations(xs, med);
    score := (med - Median(deviations)) / med;
    if score < 0.0 {
      score := 0.0;
    }
    if score > 1.0 {
      score := 1.0;
    }
  }

  predicate Positive(xs: seq<real>) {
    forall i :: 0 <= i < |xs| ==> xs[i] > 0.0
  }

  /** The elements strictly between two bounds. */
  function Inside(s: seq<real>, lo: real, hi: real): nat {
    if s == [] then 0 else (if lo < s[0] < hi then 1 else 0) + Inside(s[1..], lo, hi)
  }

  lemma {:induction false} InsideIsBelow(xs: seq<real>, med: real)
    ensures Below(Deviations(xs, med), med) == Inside(xs, 0.0, 2.0 * med)
  {
    var ds := Deviations(xs, med);
    if xs != [] {
      InsideIsBelow(xs[1..], med);
      assert ds[1..] == Deviations(xs[1..], med);
    }
  }

  lemma {:induction false} InsideOfPositive(xs: seq<real>, hi: real)
    requires Positive(xs)
    ensures Inside(xs, 0.0, hi) == Below(xs, hi)
  {
    if xs != [] {
      InsideOfPositive(xs[1..], hi);
    }
  }

  lemma {:induction false} AtLeastBelow(s: seq<real>, bound: real, k: nat)
    requires Sorted(s) && k < |s| && s[k] < bound
    ensures Below(s, bound) >= k + 1
  {
    if k > 0 {
      AtLeastBelow(s[1..], bound, k - 1);
    }
  }

  /** More than half of a positive sample lies below twice its median. */
  lemma HalfBelowTwice(t: seq<real>)
    requires Sorted(t) && Positive(t) && t != []
    ensures Below(t, 2.0 * Middle(t)) > |t| / 2
  {
    AtLeastBelow(t, 2.0 * Middle(t), |t| / 2);
  }

  lemma SortedPositive(xs: seq<real>)
    requires Positive(xs)
    ensures Positive(Sort(xs))
  {
    hide Sort; hide Below;
    SortSorts(xs, 0.0);
    forall i | 0 <= i < |xs|
      ensures Sort(xs)[i] > 0.0
    {
      assert Sort(xs)[i] in multiset(xs);
    }
  }

  lemma DeviationBelowMedian(xs: seq<real>)
    requires xs != [] && Positive(xs)
    ensures Median(xs) > 0.0 && 0.0 <= Median(Deviations(xs, Median(xs))) < Median(xs)
  {
    hide Sort; hide Below; hide Inside; hide Middle;
    var t := Sort(xs);
    var med := Middle(t);
    SortSorts(xs, 2.0 * med);
    SortedPositive(xs);
    HalfBelowTwice(t);
    MiddleBetween(t);
    InsideIsBelow(xs, med);
    InsideOfPositive(xs, 2.0 * med);
    var ds := Deviations(xs, med);
    SortSorts(ds, med);
    MedianBelow(ds, med);
    NotNegative(ds);
  }

  /**
   On positive samples the deviation never reaches the median, so the score is
   positive and the clamping never fires.
   */
  lemma MadNeedsNoClamp(xs: seq<real>, defaultScore: real)
    requires xs != [] && Positive(xs)
    ensures Median(xs) > 0.0 && MadOf(xs, defaultScore) == Tightness(xs) && 0.0 < Tightness(xs) <= 1.0
  {
    hide Median;
    DeviationBelowMedian(xs);
    Share(Median(xs), Median(Deviations(xs, Median(xs))));
  }

  /** Of a positive sample the score is the share of the median that the deviation leaves. */
  lemma MadShare(xs: seq<real>, defaultScore: real)
    requires xs != [] && Positive(xs)
    ensures var med := Median(xs); MadOf(xs, defaultScore) * med + Median(Deviations(xs, med)) == med
  {
    hide Median;
    MadNeedsNoClamp(xs, defaultScore);
    var med, mad := Median(xs), Median(Deviations(xs, Median(xs)));
    assert (med - mad) / med * med == med - mad;
  }

  /** A sample without a usable median has the score the caller gave. */
  lemma MadDefault(xs: seq<real>, defaultScore: real)
    ensures xs == [] || Median(xs) == 0.0 ==> MadOf(xs, defaultScore) == defaultScore
  {
  }

  lemma MedianBelow(s: seq<real>, bound: real)
    requires s != [] && Below(Sort(s), bound) > |s| / 2 && Sorted(Sort(s))
    ensures Median(s) < bound
  {
    var t := Sort(s);
    OrderStatistic(t, bound, |t| / 2);
    if |t| % 2 == 0 {
      OrderStatistic(t, bound, |t| / 2 - 1);
    }
  }

  lemma NotNegative(ds: seq<real>)
    requires ds != [] && forall i :: 0 <= i < |ds| ==> ds[i] >= 0.0
    ensures Median(ds) >= 0.0
  {
    hide Sort; hide Middle;
    SortSorts(ds, 0.0);
    var t := Sort(ds);
    MiddleBetween(t);
    assert t[0] in multiset(ds);
  }

  lemma Share(med: real, mad: real)
    requires 0.0 <= mad < med
    ensures 0.0 < (med - mad) / med <= 1.0
  {
    var q := (med - mad) / med;
    assert q * med == med - mad;
  }

  // ---- The combined score ----

  /** Rounding to three decimals, halves away from zero. */
  function Round3(x: real): real
    requires x >= 0.0
  {
    (x * 1000.0 + 0.5).Floor as real / 1000.0
  }

  function StatisticalScore(xs: seq<real>, defaultMadScore: real): (r: real)
    requires 0.0 <= defaultMadScore <= 1.0
  {
    BowleyBounded(xs);
    Round3((BowleyScore(xs) + MadOf(xs, defaultMadScore)) / 2.0)
  }

  /** The combined score stays in range, within half a thousandth of the mean of its parts. */
  lemma ScoreBounded(xs: seq<real>, defaultMadScore: real)
    requires 0.0 <= defaultMadScore <= 1.0
    ensures 0.0 <= StatisticalScore(xs, defaultMadScore) <= 1.0
    ensures Abs(StatisticalScore(xs, defaultMadScore) - (BowleyScore(xs) + MadOf(xs, defaultMadScore)) / 2.0) <= 0.0005
  {
    hide BowleyScore; hide Tightness; hide Median;
    BowleyBounded(xs);
    var c := (BowleyScore(xs) + MadOf(xs, defaultMadScore)) / 2.0;
    var f := (c * 1000.0 + 0.5).Floor;
    assert f as real <= c * 1000.0 + 0.5 < f as real + 1.0;
    assert 0 <= f <= 1000;
  }
}
