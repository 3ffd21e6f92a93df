/** How long and how steadily a pair was active over the recent part of the capture. */
module Persistence {

  const BINS: nat := 24
  const WINDOW: real := 604800.0

  /** The scored window: the last seven days, or the whole capture when it is shorter. */
  function WindowMin(dsMin: real, dsMax: real): real {
    if dsMax - dsMin > WINDOW then dsMax - WINDOW else dsMin
  }

  /** Conversion to an integer drops the fraction on either side of zero. */
  function Truncate(x: real): int {
    if x >= 0.0 then x.Floor else -((-x).Floor)
  }

  /** The bin an hour of activity falls in; hours outside the window share the outer bins. */
  function Bin(hr: int, windowMin: real, dsMax: real): (b: nat)
    requires dsMax > windowMin
    ensures b < BINS
  {
    var idx := Truncate((hr as real * 3600.0 - windowMin) / (dsMax - windowMin) * BINS as real);
    if idx >= BINS then BINS - 1 else if idx < 0 then 0 else idx
  }

  ghost predicate Occupied(hourMap: map<int, nat>, windowMin: real, dsMax: real, b: int) {
    dsMax > windowMin && exists hr :: hr in hourMap && hourMap[hr] > 0 && Bin(hr, windowMin, dsMax) == b
  }

  ghost function BinsOf(hourMap: map<int, nat>, windowMin: real, dsMax: real): (bins: seq<bool>)
    ensures |bins| == BINS && forall b :: 0 <= b < BINS ==> bins[b] == Occupied(hourMap, windowMin, dsMax, b)
  {
    seq(BINS, b => Occupied(hourMap, windowMin, dsMax, b))
  }

  // ---- The longest block of occupied bins ----

  function Bars(bins: seq<bool>): nat {
    if bins == [] then 0 else Bars(bins[..|bins| - 1]) + if bins[|bins| - 1] then 1 else 0
  }

  /** The length of the occupied block the bins end with. */
  function EndRun(bins: seq<bool>): nat {
    if bins == [] || !bins[|bins| - 1] then 0 else EndRun(bins[..|bins| - 1]) + 1
  }

  function LongestRun(bins: seq<bool>): nat {
    if bins == [] then 0
    else
      var rest, run := LongestRun(bins[..|bins| - 1]), EndRun(bins);
      if run > rest then run else rest
  }

  predicate Block(bins: seq<bool>, lo: nat, hi: nat) {
    lo <= hi <= |bins| && forall b :: lo <= b < hi ==> bins[b]
  }

  lemma {:induction false} EndRunIsBlock(bins: seq<bool>)
    ensures EndRun(bins) <= |bins| && Block(bins, |bins| - EndRun(bins), |bins|)
    ensures forall lo: nat :: Block(bins, lo, |bins|) ==> |bins| - lo <= EndRun(bins)
    decreases |bins|
  {
    if bins != [] {
      var init := bins[..|bins| - 1];
      EndRunIsBlock(init);
      forall lo: nat | Block(bins, lo, |bins|) && lo < |bins|
        ensures |bins| - lo <= EndRun(bins)
      {
        assert Block(init, lo, |init|);
      }
    }
  }

  /** The run counter ends at the length of the longest block of occupied bins. */
  lemma {:induction false} LongestIsLongest(bins: seq<bool>) returns (at: nat)
    ensures Block(bins, at, at + LongestRun(bins))
    ensures forall lo: nat, hi: nat :: Block(bins, lo, hi) ==> hi - lo <= LongestRun(bins)
    decreases |bins|
  {
    at := 0;
    if bins != [] {
      var init := bins[..|bins| - 1];
      var before := LongestIsLongest(init);
      EndRunIsBlock(bins);
      at := if EndRun(bins) > LongestRun(init) then |bins| - EndRun(bins) else before;
      forall lo: nat, hi: nat | Block(bins, lo, hi)
        ensures hi - lo <= LongestRun(bins)
      {
        if hi <= |init| {
          assert Block(init, lo, hi);
        }
      }
    }
  }

  // ---- The score ----

  function Coverage(firstTs: real, lastTs: real, windowMin: real, dsMax: real): real {
    if dsMax > windowMin then
      var c := (lastTs - (if firstTs < windowMin then windowMin else firstTs)) / (dsMax - windowMin);
      if c > 1.0 then 1.0 else c
    else 0.0
  }

  function Consistency(bins: seq<bool>): real {
    var c := LongestRun(bins) as real / 12.0;
    if c > 1.0 then 1.0 else c
  }

  function ScoreOf(bins: seq<bool>, coverage: real, minBars: int): real {
    if Bars(bins) < minBars then 0.0
    else if coverage > Consistency(bins) then coverage else Consistency(bins)
  }

  ghost function DurationScore(hourMap: map<int, nat>, firstTs: real, lastTs: real, dsMin: real, dsMax: real, minBars: int): real {
    var windowMin := WindowMin(dsMin, dsMax);
    ScoreOf(BinsOf(hourMap, windowMin, dsMax), Coverage(firstTs, lastTs, windowMin, dsMax), minBars)
  }

  method FillBins(hourMap: map<int, nat>, windowMin: real, dsMax: real) returns (freq: array<nat>)
    ensures freq.Length == BINS && fresh(freq)
    ensures forall b :: 0 <= b < BINS ==> (freq[b] > 0 <==> Occupied(hourMap, windowMin, dsMax, b))
  {
    hide Bin;
    freq := new nat[BINS](_ => 0);
    if dsMax > windowMin {
      var left := hourMap.Items;
      while left != {}
        invariant left <= hourMap.Items
        invariant forall b :: 0 <= b < BINS ==>
          (freq[b] > 0 <==> exists hr :: hr in hourMap && (hr, hourMap[hr]) !in left && hourMap[hr] > 0 && Bin(hr, windowMin, dsMax) == b)
        decreases |left|
      {
        var item :| item in left;
        var idx := Bin(item.0, windowMin, dsMax);
        freq[idx] := freq[idx] + item.1;
        left := left - {item};
      }
    }
  }

  /** The score of a pair, from its hour map. */
  method DurationScoreFromHourMap(hourMap: map<int, nat>, firstTs: real, lastTs: real, dsMin: real, dsMax: real, minBars: int)
    returns (score: real)
    ensures score == DurationScore(hourMap, firstTs, lastTs, dsMin, dsMax, minBars)
  {
    hide Occupied;
    var windowMin := dsMin;
    if dsMax - dsMin > WINDOW {
      windowMin := dsMax - WINDOW;
    }
    var freq := FillBins(hourMap, windowMin, dsMax);
    ghost var bins := BinsOf(hourMap, windowMin, dsMax);
    var totalBars := 0;
    for i := 0 to BINS
      invariant totalBars == Bars(bins[..i])
    {
      assert bins[..i + 1][..i] == bins[..i];
      if freq[i] > 0 {
        totalBars := totalBars + 1;
      }
    }
    assert bins[..BINS] == bins;
    if totalBars < minBars {
      return 0.0;
    }
    var coverage := 0.0;
    if dsMax > windowMin {
      var effFirst := firstTs;
      if effFirst < windowMin {
        effFirst := windowMin;
      }
      coverage := (lastTs - effFirst) / (dsMax - windowMin);
      if coverage > 1.0 {
        coverage := 1.0;
      }
    }
    var longestRun: nat, currentRun: nat := 0, 0;
    for i := 0 to BINS
      invariant longestRun == LongestRun(bins[..i]) && currentRun == EndRun(bins[..i])
    {
      assert bins[..i + 1][..i] == bins[..i];
      if freq[i] > 0 {
        currentRun := currentRun + 1;
        if currentRun > longestRun {
          longestRun := currentRun;
        }
      } else {
        currentRun := 0;
      }
    }
    var consistency := longestRun as real / 12.0;
    if consistency > 1.0 {
      consistency := 1.0;
    }
    score := if coverage > consistency then coverage else consistency;
  }

  // ---- What the score promises ----

  /** Cover is time: within the window it adds up over adjoining spans, and the whole window covers one. */
  lemma CoverageAdds(first: real, middle: real, last: real, windowMin: real, dsMax: real)
    requires windowMin <= first <= middle <= last <= dsMax && windowMin < dsMax
    ensures Coverage(first, last, windowMin, dsMax) == Coverage(first, middle, windowMin, dsMax) + Coverage(middle, last, windowMin, dsMax)
    ensures Coverage(windowMin, dsMax, windowMin, dsMax) == 1.0
    ensures first < last ==> Coverage(first, last, windowMin, dsMax) > 0.0
  {
    var d := dsMax - windowMin;
    ShareOf(last - first, d);
    ShareOf(middle - first, d);
    ShareOf(last - middle, d);
    ShareOf(d, d);
    SharesAdd(middle - first, last - middle, d);
  }

  lemma SharesAdd(x: real, y: real, d: real)
    requires d > 0.0
    ensures (x + y) / d == x / d + y / d
  {
    assert (x / d) * d == x && (y / d) * d == y;
    assert (x / d + y / d) * d == x + y;
  }

  lemma ShareOf(x: real, d: real)
    requires d > 0.0 && 0.0 <= x <= d
    ensures 0.0 <= x / d <= 1.0 && (x > 0.0 ==> x / d > 0.0) && (x == d ==> x / d == 1.0)
  {
    assert (x / d) * d == x;
  }

  /** Time before the window covers nothing, and a pair last seen before it has no cover at all. */
  lemma CoverageClips(first: real, last: real, windowMin: real, dsMax: real)
    ensures first <= windowMin ==> Coverage(first, last, windowMin, dsMax) == Coverage(windowMin, last, windowMin, dsMax)
    ensures last >= dsMax && first <= windowMin < dsMax ==> Coverage(first, last, windowMin, dsMax) == 1.0
    ensures last <= windowMin ==> Coverage(first, last, windowMin, dsMax) <= 0.0
  {
    if windowMin < dsMax {
      var span, d := last - (if first < windowMin then windowMin else first), dsMax - windowMin;
      if span <= 0.0 {
        DivideGrows(span, 0.0, d);
      } else if span >= d {
        ShareOf(d, d);
        DivideGrows(d, span, d);
      }
    }
  }

  lemma InRange(hourMap: map<int, nat>, firstTs: real, lastTs: real, dsMin: real, dsMax: real, minBars: int)
    ensures 0.0 <= DurationScore(hourMap, firstTs, lastTs, dsMin, dsMax, minBars) <= 1.0
  {
  }

  /** Once the capture spans the window, how much older history sits behind it does not matter. */
  lemma RetentionInvariant(hourMap: map<int, nat>, firstTs: real, lastTs: real, dsMin: real, older: real, dsMax: real, minBars: int)
    requires dsMin <= dsMax - WINDOW && older <= dsMax - WINDOW
    ensures DurationScore(hourMap, firstTs, lastTs, dsMin, dsMax, minBars)
         == DurationScore(hourMap, firstTs, lastTs, older, dsMax, minBars)
  {
    assert WindowMin(dsMin, dsMax) == WindowMin(older, dsMax);
  }

  function CountIn(hourMap: map<int, nat>, hr: int): nat {
    if hr in hourMap then hourMap[hr] else 0
  }

  /** The hour map with activity of earlier hours added to it. */
  ghost predicate Extends(more: map<int, nat>, hourMap: map<int, nat>, before: real) {
    forall hr ::
      && CountIn(more, hr) >= CountIn(hourMap, hr)
      && (hr as real * 3600.0 >= before ==> CountIn(more, hr) == CountIn(hourMap, hr))
  }

  /** The bins are equal slices of the window; the outer ones also take what lies before or after it. */
  lemma BinIsSlice(hr: int, windowMin: real, dsMax: real, b: nat)
    requires windowMin < dsMax && b < 24
    ensures var ts, slice := hr as real * 3600.0 - windowMin, (dsMax - windowMin) / 24.0;
      Bin(hr, windowMin, dsMax) == b <==> (b == 0 || b as real * slice <= ts) && (b == 23 || ts < (b + 1) as real * slice)
  {
    var ts, d := hr as real * 3600.0 - windowMin, dsMax - windowMin;
    var x := ts / d * 24.0;
    assert 24 as real == 24.0;
    Slices(ts, d, b as real);
    Slices(ts, d, (b + 1) as real);
    TruncateIs(x, b);
    TruncateIs(x, b + 1);
  }

  /** How many slices of a span have passed. */
  lemma Slices(x: real, d: real, n: real)
    requires d > 0.0
    ensures x / d * 24.0 >= n <==> x >= n * (d / 24.0)
  {
    var q := x / d;
    assert q * d == x;
    var e := q * 24.0 - n;
    assert x - n * (d / 24.0) == e * (d / 24.0);
    assert e >= 0.0 <==> e * (d / 24.0) >= 0.0 by {
      SignKept(e, d / 24.0);
    }
  }

  lemma SignKept(e: real, d: real)
    requires d > 0.0
    ensures e >= 0.0 <==> e * d >= 0.0
  {
  }

  lemma TruncateIs(x: real, n: nat)
    ensures n > 0 ==> (Truncate(x) >= n <==> x >= n as real)
  {
  }

  lemma EarlierIsFirstBin(hr: int, windowMin: real, dsMax: real)
    requires dsMax > windowMin && hr as real * 3600.0 < windowMin
    ensures Bin(hr, windowMin, dsMax) == 0
  {
    NegativeTruncates((hr as real * 3600.0 - windowMin) / (dsMax - windowMin) * BINS as real, hr as real * 3600.0 - windowMin, dsMax - windowMin);
  }

  lemma NegativeTruncates(x: real, n: real, d: real)
    requires d > 0.0 && n < 0.0 && x == n / d * BINS as real
    ensures x < 0.0 && Truncate(x) <= 0
  {
    assert (n / d) * d == n;
    assert n / d < 0.0;
  }

  lemma OccupiedCounts(hourMap: map<int, nat>, windowMin: real, dsMax: real, b: int)
    ensures Occupied(hourMap, windowMin, dsMax, b) <==>
      dsMax > windowMin && exists hr :: CountIn(hourMap, hr) > 0 && Bin(hr, windowMin, dsMax) == b
  {
    hide Bin;
  }

  /** Activity older than the window can change only the first bin. */
  lemma OlderTouchesFirstBin(hourMap: map<int, nat>, more: map<int, nat>, windowMin: real, dsMax: real, b: nat)
    requires Extends(more, hourMap, windowMin) && b < BINS
    ensures Occupied(hourMap, windowMin, dsMax, b) ==> Occupied(more, windowMin, dsMax, b)
    ensures b > 0 ==> (Occupied(more, windowMin, dsMax, b) ==> Occupied(hourMap, windowMin, dsMax, b))
  {
    hide Bin; hide Occupied; hide CountIn;
    OccupiedCounts(hourMap, windowMin, dsMax, b);
    OccupiedCounts(more, windowMin, dsMax, b);
    if dsMax > windowMin {
      forall hr | CountIn(more, hr) > 0 && Bin(hr, windowMin, dsMax) == b && b > 0
        ensures CountIn(hourMap, hr) > 0
      {
        FirstBinOnly(hr, windowMin, dsMax);
      }
    }
  }

  lemma FirstBinOnly(hr: int, windowMin: real, dsMax: real)
    requires dsMax > windowMin
    ensures Bin(hr, windowMin, dsMax) > 0 ==> hr as real * 3600.0 >= windowMin
  {
    hide Bin;
    if hr as real * 3600.0 < windowMin {
      EarlierIsFirstBin(hr, windowMin, dsMax);
    }
  }

  lemma OlderBins(hourMap: map<int, nat>, more: map<int, nat>, windowMin: real, dsMax: real)
    requires Extends(more, hourMap, windowMin)
    ensures BinsOf(more, windowMin, dsMax) == BinsOf(hourMap, windowMin, dsMax)[0 := Occupied(more, windowMin, dsMax, 0)]
    ensures forall b :: 0 <= b < BINS && BinsOf(hourMap, windowMin, dsMax)[b] ==> BinsOf(more, windowMin, dsMax)[b]
  {
    hide Occupied; hide Extends;
    var bins, bins' := BinsOf(hourMap, windowMin, dsMax), BinsOf(more, windowMin, dsMax);
    forall b | 0 <= b < BINS
      ensures bins[b] ==> bins'[b]
      ensures b > 0 ==> bins[b] == bins'[b]
    {
      OlderTouchesFirstBin(hourMap, more, windowMin, dsMax, b);
    }
    assert bins' == bins[0 := bins'[0]];
  }

  /** An earlier first time never covers less of the window. */
  lemma CoverageGrows(firstTs: real, earlier: real, lastTs: real, windowMin: real, dsMax: real)
    requires earlier <= firstTs
    ensures Coverage(earlier, lastTs, windowMin, dsMax) >= Coverage(firstTs, lastTs, windowMin, dsMax)
    ensures firstTs <= windowMin ==> Coverage(earlier, lastTs, windowMin, dsMax) == Coverage(firstTs, lastTs, windowMin, dsMax)
  {
    if dsMax > windowMin {
      var e := if earlier < windowMin then windowMin else earlier;
      var f := if firstTs < windowMin then windowMin else firstTs;
      DivideGrows(lastTs - f, lastTs - e, dsMax - windowMin);
    }
  }

  lemma DivideGrows(x: real, y: real, d: real)
    requires x <= y && d > 0.0
    ensures x / d <= y / d
  {
    assert (x / d) * d == x && (y / d) * d == y;
  }

  /**
   Adding history older than the window marks the first bin and changes no other, and never
   lowers the score; a pair at least as old as the window whose first bin was occupied keeps it.
   */
  lemma OlderActivity(hourMap: map<int, nat>, more: map<int, nat>, firstTs: real, earlier: real, lastTs: real,
                      dsMin: real, dsMax: real, minBars: int)
    requires Extends(more, hourMap, WindowMin(dsMin, dsMax)) && earlier <= firstTs
    ensures var windowMin := WindowMin(dsMin, dsMax);
      BinsOf(more, windowMin, dsMax) == BinsOf(hourMap, windowMin, dsMax)[0 := Occupied(more, windowMin, dsMax, 0)]
    ensures DurationScore(more, earlier, lastTs, dsMin, dsMax, minBars)
         >= DurationScore(hourMap, firstTs, lastTs, dsMin, dsMax, minBars)
    ensures firstTs <= WindowMin(dsMin, dsMax) && Occupied(hourMap, WindowMin(dsMin, dsMax), dsMax, 0) ==>
      DurationScore(more, earlier, lastTs, dsMin, dsMax, minBars)
        == DurationScore(hourMap, firstTs, lastTs, dsMin, dsMax, minBars)
  {
    hide Occupied; hide Extends; hide LongestRun; hide Bars; hide Coverage;
    var windowMin := WindowMin(dsMin, dsMax);
    var bins, bins' := BinsOf(hourMap, windowMin, dsMax), BinsOf(more, windowMin, dsMax);
    OlderBins(hourMap, more, windowMin, dsMax);
    OlderTouchesFirstBin(hourMap, more, windowMin, dsMax, 0);
    MoreBins(bins, bins');
    CoverageGrows(firstTs, earlier, lastTs, windowMin, dsMax);
    if bins[0] {
      assert bins' == bins;
    }
  }

  /** Occupying more bins never shortens the longest run. */
  lemma MoreBins(bins: seq<bool>, more: seq<bool>)
    requires |bins| == |more| && forall b :: 0 <= b < |bins| && bins[b] ==> more[b]
    ensures LongestRun(bins) <= LongestRun(more) && Bars(bins) <= Bars(more)
  {
    var at := LongestIsLongest(bins);
    var at' := LongestIsLongest(more);
    assert Block(more, at, at + LongestRun(bins));
    MoreBars(bins, more);
  }

  lemma {:induction false} MoreBars(bins: seq<bool>, more: seq<bool>)
    requires |bins| == |more| && forall b :: 0 <= b < |bins| && bins[b] ==> more[b]
    ensures Bars(bins) <= Bars(more)
  {
    if bins != [] {
      MoreBars(bins[..|bins| - 1], more[..|more| - 1]);
    }
  }

  // ---- Exactly when older activity counts ----

  /** A run of so many bins as a consistency. */
  function RunShare(run: nat): real {
    if run >= 12 then 1.0 else run as real / 12.0
  }

  /** With enough bins before, a longer run and a wider cover change nothing when neither beats what was there. */
  predicate Outweighed(run: nat, cover: real, run': nat, cover': real) {
    && (RunShare(run') <= RunShare(run) || RunShare(run') <= cover)
    && (cover' <= cover || cover' <= RunShare(run))
  }

  /**
   Older history leaves the score unchanged if and only if even the extra bin leaves too few,
   or there were enough before and neither the run it makes nor the cover it gives beats both
   the run and the cover before.
   */
  lemma OlderActivityIgnoredIff(hourMap: map<int, nat>, more: map<int, nat>, firstTs: real, earlier: real, lastTs: real,
                                dsMin: real, dsMax: real, minBars: int)
    requires Extends(more, hourMap, WindowMin(dsMin, dsMax)) && earlier <= firstTs
    ensures var windowMin := WindowMin(dsMin, dsMax);
      var bins, bins' := BinsOf(hourMap, windowMin, dsMax), BinsOf(more, windowMin, dsMax);
      (DurationScore(more, earlier, lastTs, dsMin, dsMax, minBars) == DurationScore(hourMap, firstTs, lastTs, dsMin, dsMax, minBars))
      <==>
        || Bars(bins') < minBars
        || (Bars(bins) >= minBars
            && Outweighed(LongestRun(bins), Coverage(firstTs, lastTs, windowMin, dsMax),
                          LongestRun(bins'), Coverage(earlier, lastTs, windowMin, dsMax)))
  {
    var windowMin := WindowMin(dsMin, dsMax);
    hide Occupied; hide Extends; hide LongestRun; hide Bars; hide Coverage; hide BinsOf;
    OlderBins(hourMap, more, windowMin, dsMax);
    CoverageGrows(firstTs, earlier, lastTs, windowMin, dsMax);
    ScoresCompare(BinsOf(hourMap, windowMin, dsMax), BinsOf(more, windowMin, dsMax),
                  Coverage(firstTs, lastTs, windowMin, dsMax), Coverage(earlier, lastTs, windowMin, dsMax), minBars);
  }

  lemma ScoresCompare(bins: seq<bool>, bins': seq<bool>, c: real, c': real, minBars: int)
    requires |bins| == |bins'| && (forall b :: 0 <= b < |bins| && bins[b] ==> bins'[b]) && c <= c'
    ensures ScoreOf(bins', c', minBars) == ScoreOf(bins, c, minBars) <==>
      || Bars(bins') < minBars
      || (Bars(bins) >= minBars && Outweighed(LongestRun(bins), c, LongestRun(bins'), c'))
  {
    hide LongestRun; hide Bars;
    MoreBins(bins, bins');
    if Bars(bins) < Bars(bins') {
      SomeRun(bins');
    }
    assert Consistency(bins) == RunShare(LongestRun(bins)) && Consistency(bins') == RunShare(LongestRun(bins'));
  }

  lemma SomeRun(bins: seq<bool>)
    requires Bars(bins) > 0
    ensures LongestRun(bins) > 0
  {
    var b := SomeBar(bins);
    var at := LongestIsLongest(bins);
    assert Block(bins, b, b + 1);
  }

  lemma {:induction false} SomeBar(bins: seq<bool>) returns (b: nat)
    requires Bars(bins) > 0
    ensures b < |bins| && bins[b]
  {
    b := |bins| - 1;
    if !bins[b] {
      b := SomeBar(bins[..b]);
    }
  }

  // ---- An empty first bin that is occupied ----

  /** The occupied block the bins begin with. */
  function LeadingRun(bins: seq<bool>): (r: nat)
    ensures r <= |bins| && Block(bins, 0, r) && (r < |bins| ==> !bins[r])
  {
    if bins == [] || !bins[0] then 0
    else
      var r := LeadingRun(bins[1..]);
      assert forall b :: 1 <= b < r + 1 ==> bins[b] == bins[1..][b - 1];
      r + 1
  }

  /** Occupying an empty first bin joins it to the block behind it. */
  lemma FirstBinJoins(bins: seq<bool>)
    requires bins != [] && !bins[0]
    ensures var joined := LeadingRun(bins[1..]) + 1;
      LongestRun(bins[0 := true]) == if joined > LongestRun(bins) then joined else LongestRun(bins)
  {
    var more, r := bins[0 := true], LeadingRun(bins[1..]);
    var at := LongestIsLongest(bins);
    var at' := LongestIsLongest(more);
    assert forall b :: 1 <= b < r + 1 ==> more[b] == bins[1..][b - 1];
    assert Block(more, 0, r + 1);
    assert r + 1 < |more| ==> more[r + 1] == bins[1..][r];
    assert LongestRun(bins) > 0 ==> Block(more, at, at + LongestRun(bins));
    if at' > 0 {
      forall b | at' <= b < at' + LongestRun(more)
        ensures bins[b]
      {
        assert more[b];
      }
      assert Block(bins, at', at' + LongestRun(more));
    }
  }

  /** Which bins are occupied. */
  function Trues(bins: seq<bool>): set<nat> {
    set b | 0 <= b < |bins| && bins[b]
  }

  lemma {:induction false} BarsAreTrues(bins: seq<bool>)
    ensures Bars(bins) == |Trues(bins)|
  {
    if bins != [] {
      var last := |bins| - 1;
      var init := bins[..last];
      BarsAreTrues(init);
      assert Trues(bins) == Trues(init) + if bins[last] then {last} else {};
    }
  }

  lemma OneMoreBar(bins: seq<bool>)
    requires bins != [] && !bins[0]
    ensures Bars(bins[0 := true]) == Bars(bins) + 1
  {
    BarsAreTrues(bins);
    BarsAreTrues(bins[0 := true]);
    assert Trues(bins[0 := true]) == Trues(bins) + {0};
  }

  lemma SixBins(bins: seq<bool>, c: real)
    requires |bins| == BINS && Trues(bins) == {1, 2, 3, 4, 5}
    ensures ScoreOf(bins, c, 6) == 0.0 && ScoreOf(bins[0 := true], c, 6) >= 0.5
  {
    hide Bars; hide LongestRun;
    assert 0 !in Trues(bins);
    BarsAreTrues(bins);
    OneMoreBar(bins);
    assert forall b: nat :: b in {1, 2, 3, 4, 5} ==> b in Trues(bins);
    var at := LongestIsLongest(bins[0 := true]);
    assert Block(bins[0 := true], 0, 6);
  }
}
