/** Scoring intervals that cluster around two to four periods. */
module Multimodal {
  import opened Stats

  const BUCKETS: nat := 18

  function Pow2(i: nat): (r: real)
    ensures r >= 1.0
  {
    if i == 0 then 1.0 else 2.0 * Pow2(i - 1)
  }

  /** The whole part of log2, at most the given bucket; intervals under two seconds share the first one. */
  function BucketUpTo(iv: real, i: nat): (b: nat)
    ensures b <= i
  {
    if i == 0 || iv >= Pow2(i) then i else BucketUpTo(iv, i - 1)
  }

  function BucketOf(iv: real): (b: nat)
    ensures b < BUCKETS
  {
    BucketUpTo(iv, BUCKETS - 1)
  }

  lemma {:induction false} BucketBounds(iv: real, i: nat)
    ensures var b := BucketUpTo(iv, i);
      && (b > 0 ==> Pow2(b) <= iv) && (b < i ==> iv < Pow2(b + 1))
  {
    if i > 0 && iv < Pow2(i) {
      BucketBounds(iv, i - 1);
    }
  }

  /** The first bucket ends at two seconds, the last one begins at 2^17, and twice the interval is one bucket further. */
  lemma Octaves(iv: real)
    ensures BucketOf(iv) == 0 <==> iv < 2.0
    ensures BucketOf(iv) == 17 <==> iv >= 131072.0
    ensures 1.0 <= iv < 131072.0 ==> BucketOf(2.0 * iv) == BucketOf(iv) + 1
  {
    LastOctave();
    BucketBounds(iv, 17);
    OneOctave(iv, 17);
    hide Pow2;
    if 1.0 <= iv < 131072.0 {
      Doubled(iv, 17);
    }
  }

  lemma LastOctave()
    ensures Pow2(17) == 131072.0 && Pow2(1) == 2.0
  {
    assert Pow2(8) == 256.0;
    assert Pow2(16) == 65536.0;
  }

  lemma {:induction false} OneOctave(iv: real, i: nat)
    ensures iv < 2.0 ==> BucketUpTo(iv, i) == 0 || i == 0
    ensures iv >= 2.0 && i > 0 ==> BucketUpTo(iv, i) > 0
  {
    assert Pow2(1) == 2.0;
    if i > 1 {
      OneOctave(iv, i - 1);
      PowGrows(i);
    }
  }

  lemma PowGrows(i: nat)
    requires i > 0
    ensures Pow2(i) >= 2.0
  {
  }

  lemma {:induction false} Doubled(iv: real, i: nat)
    requires 1.0 <= iv < Pow2(i) && i > 0
    ensures BucketUpTo(2.0 * iv, i) == BucketUpTo(iv, i) + 1
  {
    if i > 1 && iv < Pow2(i - 1) {
      Doubled(iv, i - 1);
    }
  }

  /** The positive intervals that fall in bucket b, in their order. */
  function InBucket(xs: seq<real>, b: nat): seq<real> {
    if xs == [] then []
    else
      var x := xs[|xs| - 1];
      InBucket(xs[..|xs| - 1], b) + if x > 0.0 && BucketOf(x) == b then [x] else []
  }

  function CountPositive(xs: seq<real>): nat {
    if xs == [] then 0 else CountPositive(xs[..|xs| - 1]) + if xs[|xs| - 1] > 0.0 then 1 else 0
  }

  method FillBuckets(intervals: seq<real>) returns (buckets: seq<seq<real>>)
    ensures |buckets| == BUCKETS
    ensures forall b :: 0 <= b < BUCKETS ==> buckets[b] == InBucket(intervals, b)
  {
    hide BucketOf;
    buckets := seq(BUCKETS, _ => []);
    for i := 0 to |intervals|
      invariant |buckets| == BUCKETS
      invariant forall b :: 0 <= b < BUCKETS ==> buckets[b] == InBucket(intervals[..i], b)
    {
      assert intervals[..i + 1][..i] == intervals[..i];
      var iv := intervals[i];
      if iv <= 0.0 {
        continue;
      }
      var idx := BucketOf(iv);
      buckets := buckets[idx := buckets[idx] + [iv]];
    }
    assert intervals[..|intervals|] == intervals;
  }

  // ---- Peaks ----

  /** A bucket with at least half the largest count. */
  predicate IsPeak(bucket: seq<real>, maxCount: nat) {
    |bucket| > 0 && |bucket| as real >= maxCount as real * 0.5
  }

  /** Half the largest count is enough, and nothing less. */
  lemma HalfIsEnough(bucket: seq<real>, maxCount: nat)
    ensures IsPeak(bucket, maxCount) <==> |bucket| > 0 && 2 * |bucket| >= maxCount
  {
  }

  datatype Range = Range(lo: nat, hi: nat)

  /** A block of adjacent peak buckets that cannot be extended either way. */
  predicate MaximalRun(buckets: seq<seq<real>>, maxCount: nat, r: Range) {
    && r.lo < r.hi <= |buckets|
    && (forall b :: r.lo <= b < r.hi ==> IsPeak(buckets[b], maxCount))
    && (r.lo > 0 ==> !IsPeak(buckets[r.lo - 1], maxCount))
    && (r.hi < |buckets| ==> !IsPeak(buckets[r.hi], maxCount))
  }

  /** All the maximal runs that end before bucket n, from left to right. */
  ghost predicate AllRuns(buckets: seq<seq<real>>, maxCount: nat, runs: seq<Range>, n: nat) {
    && n <= |buckets|
    && (forall p :: 0 <= p < |runs| ==> MaximalRun(buckets, maxCount, runs[p]) && runs[p].hi <= n)
    && (forall p, q :: 0 <= p < q < |runs| ==> runs[p].hi < runs[q].lo)
    && forall b :: 0 <= b < n && IsPeak(buckets[b], maxCount) ==> exists p :: 0 <= p < |runs| && runs[p].lo <= b < runs[p].hi
  }

  /** The samples of adjacent buckets, bucket by bucket. */
  function Joined(buckets: seq<seq<real>>, r: Range): seq<real>
    requires r.lo <= r.hi <= |buckets|
    decreases r.hi - r.lo
  {
    if r.lo == r.hi then [] else Joined(buckets, Range(r.lo, r.hi - 1)) + buckets[r.hi - 1]
  }

  ghost predicate PeaksAre(peaks: seq<seq<real>>, buckets: seq<seq<real>>, runs: seq<Range>) {
    && |peaks| == |runs|
    && forall p :: 0 <= p < |runs| ==> runs[p].lo <= runs[p].hi <= |buckets| && peaks[p] == Joined(buckets, runs[p])
  }

  predicate Largest(buckets: seq<seq<real>>, maxCount: nat) {
    && (forall b :: 0 <= b < |buckets| ==> |buckets[b]| <= maxCount)
    && (maxCount == 0 || exists b :: 0 <= b < |buckets| && |buckets[b]| == maxCount)
  }

  method LargestCount(buckets: seq<seq<real>>) returns (maxCount: nat)
    ensures Largest(buckets, maxCount)
  {
    maxCount := 0;
    for i := 0 to |buckets|
      invariant forall b :: 0 <= b < i ==> |buckets[b]| <= maxCount
      invariant maxCount == 0 || exists b :: 0 <= b < i && |buckets[b]| == maxCount
    {
      if |buckets[i]| > maxCount {
        maxCount := |buckets[i]|;
      }
    }
  }

  /** The scan so far: finished runs before lo, and a run in progress from lo to i. */
  ghost predicate Scanned(buckets: seq<seq<real>>, maxCount: nat, peaks: seq<seq<real>>, runs: seq<Range>,
                          current: seq<real>, lo: nat, i: nat) {
    && lo <= i <= |buckets|
    && AllRuns(buckets, maxCount, runs, lo) && PeaksAre(peaks, buckets, runs)
    && current == Joined(buckets, Range(lo, i))
    && (forall b :: lo <= b < i ==> IsPeak(buckets[b], maxCount))
    && (lo > 0 ==> !IsPeak(buckets[lo - 1], maxCount))
  }

  /** The peaks are the samples of all the maximal runs, from left to right. */
  method FindPeaks(buckets: seq<seq<real>>, maxCount: nat) returns (peaks: seq<seq<real>>)
    ensures exists runs :: AllRuns(buckets, maxCount, runs, |buckets|) && PeaksAre(peaks, buckets, runs)
  {
    ScanStarts(buckets, maxCount);
    hide Scanned; hide IsPeak; hide AllRuns; hide PeaksAre;
    peaks := [];
    ghost var runs: seq<Range> := [];
    var current: seq<real> := [];
    var inPeak := false;
    ghost var lo := 0;
    for i := 0 to |buckets|
      invariant lo <= i && (inPeak <==> lo < i) && (!inPeak ==> current == [])
      invariant Scanned(buckets, maxCount, peaks, runs, current, lo, i)
    {
      if IsPeak(buckets[i], maxCount) {
        ScanGrows(buckets, maxCount, peaks, runs, current, lo, i);
        current := current + buckets[i];
        inPeak := true;
      } else {
        if inPeak {
          ScanCloses(buckets, maxCount, peaks, runs, current, lo, i);
          peaks, runs := peaks + [current], runs + [Range(lo, i)];
          current := [];
          inPeak := false;
        } else {
          ScanIdles(buckets, maxCount, peaks, runs, current, i);
        }
        ScanSkips(buckets, maxCount, peaks, runs, i);
        lo := i + 1;
      }
    }
    if inPeak {
      ScanCloses(buckets, maxCount, peaks, runs, current, lo, |buckets|);
      peaks, runs := peaks + [current], runs + [Range(lo, |buckets|)];
    } else {
      ScanIdles(buckets, maxCount, peaks, runs, current, |buckets|);
    }
  }

  lemma ScanStarts(buckets: seq<seq<real>>, maxCount: nat)
    ensures Scanned(buckets, maxCount, [], [], [], 0, 0)
  {
  }

  lemma ScanGrows(buckets: seq<seq<real>>, maxCount: nat, peaks: seq<seq<real>>, runs: seq<Range>,
                  current: seq<real>, lo: nat, i: nat)
    requires Scanned(buckets, maxCount, peaks, runs, current, lo, i) && i < |buckets| && IsPeak(buckets[i], maxCount)
    ensures Scanned(buckets, maxCount, peaks, runs, current + buckets[i], lo, i + 1)
  {
    hide AllRuns; hide PeaksAre; hide IsPeak;
  }

  lemma ScanCloses(buckets: seq<seq<real>>, maxCount: nat, peaks: seq<seq<real>>, runs: seq<Range>,
                   current: seq<real>, lo: nat, i: nat)
    requires Scanned(buckets, maxCount, peaks, runs, current, lo, i) && lo < i
    requires i < |buckets| ==> !IsPeak(buckets[i], maxCount)
    ensures AllRuns(buckets, maxCount, runs + [Range(lo, i)], i)
    ensures PeaksAre(peaks + [current], buckets, runs + [Range(lo, i)])
  {
    hide Joined; hide IsPeak; hide AllRuns;
    RunEnds(buckets, maxCount, runs, Range(lo, i));
  }

  lemma ScanIdles(buckets: seq<seq<real>>, maxCount: nat, peaks: seq<seq<real>>, runs: seq<Range>, current: seq<real>, i: nat)
    requires Scanned(buckets, maxCount, peaks, runs, current, i, i)
    ensures AllRuns(buckets, maxCount, runs, i) && PeaksAre(peaks, buckets, runs)
  {
    hide AllRuns; hide PeaksAre;
  }

  lemma ScanSkips(buckets: seq<seq<real>>, maxCount: nat, peaks: seq<seq<real>>, runs: seq<Range>, i: nat)
    requires i < |buckets| && !IsPeak(buckets[i], maxCount)
    requires AllRuns(buckets, maxCount, runs, i) && PeaksAre(peaks, buckets, runs)
    ensures Scanned(buckets, maxCount, peaks, runs, [], i + 1, i + 1)
  {
    hide PeaksAre; hide IsPeak;
  }

  lemma RunEnds(buckets: seq<seq<real>>, maxCount: nat, runs: seq<Range>, r: Range)
    requires AllRuns(buckets, maxCount, runs, r.lo) && MaximalRun(buckets, maxCount, r)
    ensures AllRuns(buckets, maxCount, runs + [r], r.hi)
  {
    hide IsPeak;
    var more := runs + [r];
    forall p | 0 <= p < |runs|
      ensures runs[p].hi < r.lo
    {
      assert MaximalRun(buckets, maxCount, runs[p]);
    }
    forall b | 0 <= b < r.hi && IsPeak(buckets[b], maxCount)
      ensures exists p :: 0 <= p < |more| && more[p].lo <= b < more[p].hi
    {
      if b < r.lo {
        var p :| 0 <= p < |runs| && runs[p].lo <= b < runs[p].hi;
        assert more[p] == runs[p];
      } else {
        assert more[|runs|] == r;
      }
    }
  }

  // ---- Scoring the peaks ----

  /** A peak that is regular enough on its own. */
  predicate Usable(samples: seq<real>) {
    |samples| >= 2 && Median(samples) > 0.0 && MadOf(samples, 0.0) >= 0.5
  }

  function Total(peaks: seq<seq<real>>): nat {
    if peaks == [] then 0 else Total(peaks[..|peaks| - 1]) + |peaks[|peaks| - 1]|
  }

  /** A score counted once for each of n samples. */
  function Portion(score: real, n: nat): real {
    score * n as real
  }

  function Weighted(peaks: seq<seq<real>>): real {
    if peaks == [] then 0.0
    else
      var samples := peaks[|peaks| - 1];
      Weighted(peaks[..|peaks| - 1]) + Portion(MadOf(samples, 0.0), |samples|)
  }

  predicate AllUsable(peaks: seq<seq<real>>) {
    forall p :: 0 <= p < |peaks| ==> Usable(peaks[p])
  }

  /** The tightness of the peaks, each weighed by its samples. */
  method ScorePeaks(peaks: seq<seq<real>>) returns (r: real)
    ensures !AllUsable(peaks) || peaks == [] ==> r == 0.0
    ensures AllUsable(peaks) && peaks != [] ==>
      Total(peaks) > 0 && r == Weighted(peaks) / Total(peaks) as real && 0.5 <= r <= 1.0
  {
    hide MadOf; hide Median;
    var totalCount: nat := 0;
    var weighted := 0.0;
    for i := 0 to |peaks|
      invariant AllUsable(peaks[..i])
      invariant totalCount == Total(peaks[..i]) && weighted == Weighted(peaks[..i])
      invariant i > 0 ==> totalCount > 0
    {
      assert peaks[..i + 1][..i] == peaks[..i];
      var samples := peaks[i];
      if |samples| < 2 {
        return 0.0;
      }
      var med := Median(samples);
      if med <= 0.0 {
        return 0.0;
      }
      var score := MadScore(samples, 0.0);
      if score < 0.5 {
        return 0.0;
      }
      weighted := weighted + score * |samples| as real;
      totalCount := totalCount + |samples|;
    }
    assert peaks[..|peaks|] == peaks;
    if totalCount == 0 {
      return 0.0;
    }
    WeightedBounds(peaks);
    Mean(weighted, totalCount as real);
    r := weighted / totalCount as real;
  }

  lemma UsableBounds(samples: seq<real>)
    requires Usable(samples)
    ensures 0.5 <= MadOf(samples, 0.0) <= 1.0
  {
    hide Median; hide Tightness;
  }

  /** Of positive samples: at least two, and typically no further from the median than half of it. */
  lemma UsableIff(samples: seq<real>)
    requires Positive(samples)
    ensures Usable(samples) <==> |samples| >= 2 && 2.0 * Median(Deviations(samples, Median(samples))) <= Median(samples)
  {
    hide Median; hide Deviations; hide MadOf; hide Positive; hide Tightness;
    if samples != [] {
      MadShare(samples, 0.0);
      MadNeedsNoClamp(samples, 0.0);
      var score, med, mad := MadOf(samples, 0.0), Median(samples), Median(Deviations(samples, Median(samples)));
      HalfShare(score, med);
      assert score * med == med - mad;
    }
  }

  lemma HalfShare(score: real, med: real)
    requires med > 0.0
    ensures score >= 0.5 <==> 2.0 * (score * med) >= med
  {
    var excess := 2.0 * score - 1.0;
    assert 2.0 * (score * med) - med == excess * med;
  }

  lemma {:induction false} WeightedBounds(peaks: seq<seq<real>>)
    requires AllUsable(peaks)
    ensures 0.5 * Total(peaks) as real <= Weighted(peaks) <= Total(peaks) as real
  {
    hide Usable; hide MadOf; hide Portion;
    if peaks != [] {
      var init, samples := peaks[..|peaks| - 1], peaks[|peaks| - 1];
      WeightedBounds(init);
      UsableBounds(samples);
      PortionBounds(MadOf(samples, 0.0), |samples|);
      AddedCounts(Total(init), |samples|);
    }
  }

  lemma PortionBounds(score: real, n: nat)
    requires 0.5 <= score <= 1.0
    ensures 0.5 * n as real <= Portion(score, n) <= n as real
  {
    Scaled(score, n as real);
  }

  lemma AddedCounts(a: nat, b: nat)
    ensures (a + b) as real == a as real + b as real
  {
  }

  lemma Scaled(score: real, n: real)
    requires 0.5 <= score <= 1.0 && n >= 0.0
    ensures 0.5 * n <= score * n <= n
  {
  }

  lemma Mean(weighted: real, total: real)
    requires total > 0.0 && 0.5 * total <= weighted <= total
    ensures 0.5 <= weighted / total <= 1.0
  {
    assert (weighted / total) * total == weighted;
  }

  // ---- The score ----

  function Buckets(xs: seq<real>): seq<seq<real>> {
    seq(BUCKETS, b requires 0 <= b < BUCKETS => InBucket(xs, b))
  }

  /**
   The score is zero unless two to four maximal runs of peak buckets exist and each is
   regular on its own; then it is their weighted tightness, at least a half and at most one.
   */
  method IntervalMultimodalScore(intervals: seq<real>)
    returns (r: real, ghost maxCount: nat, ghost runs: seq<Range>, ghost peaks: seq<seq<real>>)
    ensures r == 0.0 || 0.5 <= r <= 1.0
    ensures |intervals| < 6 ==> r == 0.0
    ensures |intervals| >= 6 ==>
      && Largest(Buckets(intervals), maxCount)
      && AllRuns(Buckets(intervals), maxCount, runs, BUCKETS) && PeaksAre(peaks, Buckets(intervals), runs)
      && (r != 0.0 <==> 2 <= |runs| <= 4 && AllUsable(peaks))
      && (r != 0.0 ==> Total(peaks) > 0 && r == Weighted(peaks) / Total(peaks) as real)
      && Total(peaks) <= CountPositive(intervals)
  {
    hide InBucket; hide AllUsable; hide Weighted; hide Total; hide AllRuns; hide PeaksAre; hide CountPositive; hide Largest;
    r, maxCount, runs, peaks := 0.0, 0, [], [];
    if |intervals| < 6 {
      return;
    }
    var buckets := FillBuckets(intervals);
    assert buckets == Buckets(intervals);
    hide Buckets;
    var largest := LargestCount(buckets);
    maxCount := largest;
    if largest == 0 {
      NothingPeaks(intervals);
      return;
    }
    var found := FindPeaks(buckets, largest);
    runs :| AllRuns(buckets, largest, runs, |buckets|) && PeaksAre(found, buckets, runs);
    peaks := found;
    NoDoubleCount(intervals, largest, runs, found);
    SameLength(found, buckets, runs);
    if |found| < 2 || |found| > 4 {
      return;
    }
    r := ScorePeaks(found);
  }

  lemma SameLength(peaks: seq<seq<real>>, buckets: seq<seq<real>>, runs: seq<Range>)
    requires PeaksAre(peaks, buckets, runs)
    ensures |peaks| == |runs|
  {
  }

  lemma NothingPeaks(intervals: seq<real>)
    requires Largest(Buckets(intervals), 0)
    ensures AllRuns(Buckets(intervals), 0, [], BUCKETS) && PeaksAre([], Buckets(intervals), []) && Total([]) == 0
  {
  }

  // ---- Every sample is counted at most once ----

  function SizeUpTo(buckets: seq<seq<real>>, n: nat): nat
    requires n <= |buckets|
  {
    if n == 0 then 0 else SizeUpTo(buckets, n - 1) + |buckets[n - 1]|
  }

  lemma {:induction false} BucketsShare(xs: seq<real>, x: real, n: nat)
    requires n <= BUCKETS
    ensures SizeUpTo(Buckets(xs + [x]), n) == SizeUpTo(Buckets(xs), n) + if x > 0.0 && BucketOf(x) < n then 1 else 0
    decreases n
  {
    hide BucketOf;
    if n > 0 {
      BucketsShare(xs, x, n - 1);
      assert (xs + [x])[..|xs|] == xs;
    }
  }

  function Positives(xs: seq<real>): seq<real> {
    if xs == [] then [] else Positives(xs[..|xs| - 1]) + if xs[|xs| - 1] > 0.0 then [xs[|xs| - 1]] else []
  }

  /** What the first buckets hold together. */
  function HeldUpTo(buckets: seq<seq<real>>, n: nat): (m: multiset<real>)
    requires n <= |buckets|
    ensures |m| == SizeUpTo(buckets, n)
  {
    if n == 0 then multiset{} else HeldUpTo(buckets, n - 1) + multiset(buckets[n - 1])
  }

  /** What one more interval adds to the buckets from lo up to hi. */
  function Share(x: real, lo: nat, hi: nat): multiset<real> {
    if x > 0.0 && lo <= BucketOf(x) < hi then multiset{x} else multiset{}
  }

  lemma {:induction false} HeldShare(xs: seq<real>, x: real, n: nat)
    requires n <= BUCKETS
    ensures HeldUpTo(Buckets(xs + [x]), n) == HeldUpTo(Buckets(xs), n) + Share(x, 0, n)
    decreases n
  {
    hide BucketOf; hide Buckets; hide Share;
    BucketsLength(xs + [x]);
    BucketsLength(xs);
    ShareSplits(x, n);
    if n > 0 {
      HeldShare(xs, x, n - 1);
      BucketGets(xs, x, n - 1);
    }
  }

  lemma ShareSplits(x: real, n: nat)
    ensures Share(x, 0, 0) == multiset{}
    ensures n > 0 ==> Share(x, 0, n) == Share(x, 0, n - 1) + Share(x, n - 1, n)
  {
    hide BucketOf;
  }

  lemma BucketsLength(xs: seq<real>)
    ensures |Buckets(xs)| == BUCKETS
  {
  }

  lemma BucketGets(xs: seq<real>, x: real, b: nat)
    requires b < BUCKETS
    ensures multiset(Buckets(xs + [x])[b]) == multiset(Buckets(xs)[b]) + Share(x, b, b + 1)
  {
    hide BucketOf;
    assert (xs + [x])[..|xs|] == xs;
  }

  /** The buckets together hold each positive interval as often as it was given, and nothing else. */
  lemma {:induction false} BucketsConserve(xs: seq<real>)
    ensures HeldUpTo(Buckets(xs), BUCKETS) == multiset(Positives(xs))
    ensures SizeUpTo(Buckets(xs), BUCKETS) == CountPositive(xs)
    decreases |xs|
  {
    hide BucketOf; hide Buckets; hide SizeUpTo; hide HeldUpTo;
    if xs == [] {
      EmptyBuckets(BUCKETS);
    } else {
      var init, x := xs[..|xs| - 1], xs[|xs| - 1];
      assert xs == init + [x];
      BucketsConserve(init);
      BucketsShare(init, x, BUCKETS);
      HeldShare(init, x, BUCKETS);
    }
  }

  lemma {:induction false} EmptyBuckets(n: nat)
    requires n <= BUCKETS
    ensures SizeUpTo(Buckets([]), n) == 0 && HeldUpTo(Buckets([]), n) == multiset{}
  {
    if n > 0 {
      EmptyBuckets(n - 1);
    }
  }

  lemma {:induction false} JoinedSize(buckets: seq<seq<real>>, r: Range)
    requires r.lo <= r.hi <= |buckets|
    ensures |Joined(buckets, r)| == SizeUpTo(buckets, r.hi) - SizeUpTo(buckets, r.lo)
    decreases r.hi - r.lo
  {
    if r.lo < r.hi {
      JoinedSize(buckets, Range(r.lo, r.hi - 1));
    }
  }

  lemma {:induction false} SizeGrows(buckets: seq<seq<real>>, m: nat, n: nat)
    requires m <= n <= |buckets|
    ensures SizeUpTo(buckets, m) <= SizeUpTo(buckets, n)
    decreases n
  {
    if m < n {
      SizeGrows(buckets, m, n - 1);
    }
  }

  lemma {:induction false} PeaksFit(peaks: seq<seq<real>>, buckets: seq<seq<real>>, maxCount: nat, runs: seq<Range>, n: nat)
    requires AllRuns(buckets, maxCount, runs, |buckets|) && PeaksAre(peaks, buckets, runs) && n <= |runs|
    ensures Total(peaks[..n]) <= if n == 0 then 0 else SizeUpTo(buckets, runs[n - 1].hi)
    decreases n
  {
    hide SizeUpTo; hide Joined; hide IsPeak;
    if n > 0 {
      PeaksFit(peaks, buckets, maxCount, runs, n - 1);
      assert peaks[..n][..n - 1] == peaks[..n - 1];
      JoinedSize(buckets, runs[n - 1]);
      if n > 1 {
        SizeGrows(buckets, runs[n - 2].hi, runs[n - 1].lo);
      }
    }
  }

  lemma PeaksFitAll(peaks: seq<seq<real>>, buckets: seq<seq<real>>, maxCount: nat, runs: seq<Range>)
    requires AllRuns(buckets, maxCount, runs, |buckets|) && PeaksAre(peaks, buckets, runs)
    ensures Total(peaks) <= SizeUpTo(buckets, |buckets|)
  {
    hide SizeUpTo; hide IsPeak; hide Total; hide Joined;
    PeaksFit(peaks, buckets, maxCount, runs, |runs|);
    assert peaks[..|runs|] == peaks;
    if runs != [] {
      SizeGrows(buckets, runs[|runs| - 1].hi, |buckets|);
    }
  }

  lemma NoDoubleCount(xs: seq<real>, maxCount: nat, runs: seq<Range>, peaks: seq<seq<real>>)
    requires AllRuns(Buckets(xs), maxCount, runs, BUCKETS) && PeaksAre(peaks, Buckets(xs), runs)
    ensures Total(peaks) <= CountPositive(xs)
  {
    hide AllRuns; hide PeaksAre; hide InBucket; hide SizeUpTo; hide Total; hide CountPositive;
    PeaksFitAll(peaks, Buckets(xs), maxCount, runs);
    BucketsConserve(xs);
  }
}
