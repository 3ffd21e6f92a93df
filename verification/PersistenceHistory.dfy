/** The persistence score over the records of a pair, as its callers ask for it, when older logs are kept or dropped. */
module PersistenceHistory {
  import opened BeaconSpec
  import opened Persistence

  /** The score from a pair's own state: its hour map with its own earliest and latest time. */
  ghost function PairScore(d: Dice, recs: seq<Rec>, dsMin: real, dsMax: real, minBars: int): real {
    var b := Eager(d, recs);
    DurationScore(b.track.hourMap, b.totals.minTs, b.totals.maxTs, dsMin, dsMax, minBars)
  }

  /** The same records and some older than the given time, in any order of arrival. */
  ghost predicate WithOlder(recs: seq<Rec>, older: seq<Rec>, all: seq<Rec>, before: real) {
    && multiset(Times(all)) == multiset(Times(recs)) + multiset(Times(older))
    && forall t :: t in Times(older) ==> t < before
  }

  // ---- Hour counts of merged records ----

  predicate Positive(ts: seq<real>) {
    forall i :: 0 <= i < |ts| ==> ts[i] > 0.0
  }

  lemma {:induction false} InHourSplit(a: seq<real>, b: seq<real>, h: int)
    requires Positive(a) && Positive(b)
    ensures InHour(a + b, h) == InHour(a, h) + InHour(b, h)
    decreases |b|
  {
    if b == [] {
      assert a + b == a;
    } else {
      var k := |b| - 1;
      assert a + b == (a + b[..k]) + [b[k]] && b == b[..k] + [b[k]];
      InHourAppend(a + b[..k], b[k], h);
      InHourAppend(b[..k], b[k], h);
      InHourSplit(a, b[..k], h);
    }
  }

  lemma InHourWithout(x: seq<real>, t: real, y: seq<real>, h: int)
    requires Positive(x) && t > 0.0 && Positive(y)
    ensures InHour(x + [t] + y, h) == InHour(x + y, h) + if Hour(t) == h then 1 else 0
  {
    hide InHour; hide Hour;
    InHourSplit(x + [t], y, h);
    InHourSplit(x, y, h);
    InHourAppend(x, t, h);
  }

  /** The order of timestamps does not matter to the hours they fall in. */
  lemma {:induction false} InHourReordered(a: seq<real>, b: seq<real>, h: int)
    requires Positive(a) && Positive(b) && multiset(a) == multiset(b)
    ensures InHour(a, h) == InHour(b, h)
    decreases |a|
  {
    hide InHour; hide Hour;
    if a == [] {
      assert |multiset(b)| == 0;
    } else {
      var init, t := a[..|a| - 1], a[|a| - 1];
      assert a == init + [t];
      assert Positive(init) && t > 0.0;
      var x, y := TakenOut(init, t, b);
      assert forall i :: 0 <= i < |x| ==> x[i] == b[i];
      assert forall i :: 0 <= i < |y| ==> y[i] == b[|x| + 1 + i];
      InHourReordered(init, x + y, h);
      InHourWithout(x, t, y, h);
      InHourAppend(init, t, h);
    }
  }

  lemma TakenOut(a: seq<real>, t: real, b: seq<real>) returns (x: seq<real>, y: seq<real>)
    requires multiset(a + [t]) == multiset(b)
    ensures b == x + [t] + y && multiset(x + y) == multiset(a)
  {
    assert t in multiset(b);
    var i :| 0 <= i < |b| && b[i] == t;
    x, y := b[..i], b[i + 1..];
    assert b == x + [t] + y;
    assert multiset(x + [t] + y) == multiset(x + [t]) + multiset(y) == multiset(x) + multiset([t]) + multiset(y);
    assert multiset(a + [t]) == multiset(a) + multiset([t]);
    assert multiset(x + y) == multiset(x) + multiset(y);
    SameRest(multiset(x) + multiset(y), multiset(a), multiset([t]));
  }

  lemma SameRest(m: multiset<real>, n: multiset<real>, t: multiset<real>)
    requires m + t == n + t
    ensures m == n
  {
    assert (m + t) - t == m && (n + t) - t == n;
  }

  lemma HourStarts(t: real)
    requires t >= 0.0
    ensures Hour(t) as real * 3600.0 <= t < (Hour(t) + 1) as real * 3600.0
  {
    var h := Hour(t);
    assert 3600 * h <= t.Floor < 3600 * (h + 1);
    assert (3600 * h) as real == h as real * 3600.0 && (3600 * (h + 1)) as real == (h + 1) as real * 3600.0;
    assert t.Floor + 1 <= 3600 * (h + 1);
  }

  lemma {:induction false} HourOfSome(ts: seq<real>, h: int)
    requires Positive(ts)
    ensures InHour(ts, h) > 0 <==> exists i :: 0 <= i < |ts| && Hour(ts[i]) == h
  {
    hide Hour;
    if ts != [] {
      HourOfSome(ts[..|ts| - 1], h);
    }
  }

  /** Older records add to earlier hours only. */
  lemma OlderExtends(d: Dice, recs: seq<Rec>, older: seq<Rec>, all: seq<Rec>, before: real)
    requires WithOlder(recs, older, all, before)
    ensures Extends(Eager(d, all).track.hourMap, Eager(d, recs).track.hourMap, before)
  {
    hide InHour; hide Eager; hide Hour; hide Times;
    var more, hourMap := Eager(d, all).track.hourMap, Eager(d, recs).track.hourMap;
    forall hr
      ensures CountIn(more, hr) >= CountIn(hourMap, hr)
      ensures hr as real * 3600.0 >= before ==> CountIn(more, hr) == CountIn(hourMap, hr)
    {
      HourCounts(d, all, hr);
      HourCounts(d, recs, hr);
      InHourReordered(Times(all), Times(recs) + Times(older), hr);
      InHourSplit(Times(recs), Times(older), hr);
      HourOfSome(Times(older), hr);
      forall i | 0 <= i < |Times(older)| && Hour(Times(older)[i]) == hr
        ensures hr as real * 3600.0 < before
      {
        assert Times(older)[i] in Times(older);
        HourStarts(Times(older)[i]);
      }
    }
  }

  /** A time at or before the start of the window occupies the first bin. */
  lemma OldTimeOccupies(d: Dice, recs: seq<Rec>, t: real, windowMin: real, dsMax: real)
    requires t in Times(recs) && t <= windowMin < dsMax
    ensures Occupied(Eager(d, recs).track.hourMap, windowMin, dsMax, 0)
  {
    hide InHour; hide Eager; hide Hour; hide Bin; hide Times;
    var hourMap, hr := Eager(d, recs).track.hourMap, Hour(t);
    HourCounts(d, recs, hr);
    HourOfSome(Times(recs), hr);
    HourStarts(t);
    StartIsFirstBin(hr, windowMin, dsMax);
    OccupiedCounts(hourMap, windowMin, dsMax, 0);
    assert CountIn(hourMap, hr) > 0;
  }

  lemma StartIsFirstBin(hr: int, windowMin: real, dsMax: real)
    requires hr as real * 3600.0 <= windowMin < dsMax
    ensures Bin(hr, windowMin, dsMax) == 0
  {
    if hr as real * 3600.0 < windowMin {
      EarlierIsFirstBin(hr, windowMin, dsMax);
    }
  }

  // ---- What older records do to the extremes ----

  lemma OlderExtremes(d: Dice, recs: seq<Rec>, older: seq<Rec>, all: seq<Rec>, before: real)
    requires WithOlder(recs, older, all, before) && Times(recs) != []
    ensures var t, t' := Eager(d, recs).totals, Eager(d, all).totals;
      && t'.minTs <= t.minTs
      && (Times(older) != [] ==> t'.minTs < before)
      && (if t.maxTs >= before then t'.maxTs == t.maxTs else t'.maxTs < before)
  {
    hide Eager; hide Times;
    MinMaxOfTimes(d, recs);
    MinMaxOfTimes(d, all);
    assert forall x :: x in Times(all) <==> x in multiset(Times(all));
    assert forall x :: x in Times(recs) || x in Times(older) <==> x in multiset(Times(recs)) + multiset(Times(older));
    assert forall x :: x in Times(all) <==> x in Times(recs) || x in Times(older);
    var t, t' := Eager(d, recs).totals, Eager(d, all).totals;
    if Times(older) != [] {
      assert Times(older)[0] in Times(older);
    }
  }

  // ---- The theorems ----

  /** Pairs as old as the window are unmoved: however much older history is kept, the score is the same. */
  lemma OldPairsUnmoved(d: Dice, recs: seq<Rec>, older: seq<Rec>, all: seq<Rec>, dsMin: real, dsMax: real, minBars: int)
    requires WithOlder(recs, older, all, WindowMin(dsMin, dsMax)) && Times(recs) != []
    requires Eager(d, recs).totals.minTs <= WindowMin(dsMin, dsMax)
    ensures PairScore(d, all, dsMin, dsMax, minBars) == PairScore(d, recs, dsMin, dsMax, minBars)
  {
    hide Eager; hide Times; hide Occupied; hide DurationScore; hide WithOlder; hide BinsOf;
    var w := WindowMin(dsMin, dsMax);
    var b, b' := Eager(d, recs), Eager(d, all);
    OlderExtends(d, recs, older, all, w);
    OlderExtremes(d, recs, older, all, w);
    MinMaxOfTimes(d, recs);
    if w < dsMax {
      OldTimeOccupies(d, recs, b.totals.minTs, w, dsMax);
      OlderActivity(b.track.hourMap, b'.track.hourMap, b.totals.minTs, b'.totals.minTs, b.totals.maxTs, dsMin, dsMax, minBars);
      LastBefore(b'.track.hourMap, b'.totals.minTs, b.totals.maxTs, b'.totals.maxTs, dsMin, dsMax, minBars);
    } else {
      EmptyWindow(b.track.hourMap, b.totals.minTs, b.totals.maxTs, b'.track.hourMap, b'.totals.minTs, b'.totals.maxTs, dsMin, dsMax, minBars);
    }
  }

  /** When the latest time lies before the window, which one it is does not matter. */
  lemma LastBefore(hourMap: map<int, nat>, firstTs: real, lastTs: real, later: real, dsMin: real, dsMax: real, minBars: int)
    requires lastTs == later || (lastTs < WindowMin(dsMin, dsMax) && later < WindowMin(dsMin, dsMax))
    ensures DurationScore(hourMap, firstTs, lastTs, dsMin, dsMax, minBars) == DurationScore(hourMap, firstTs, later, dsMin, dsMax, minBars)
  {
    hide BinsOf; hide Bars; hide LongestRun;
    var w := WindowMin(dsMin, dsMax);
    var f := if firstTs < w then w else firstTs;
    if dsMax > w && lastTs != later {
      DivideGrows(lastTs - f, 0.0, dsMax - w);
      DivideGrows(later - f, 0.0, dsMax - w);
    }
  }

  /** In a capture without extent no bin is occupied and nothing is covered. */
  lemma EmptyWindow(hourMap: map<int, nat>, firstTs: real, lastTs: real, more: map<int, nat>, earlier: real, later: real,
                    dsMin: real, dsMax: real, minBars: int)
    requires dsMax <= WindowMin(dsMin, dsMax)
    ensures DurationScore(more, earlier, later, dsMin, dsMax, minBars) == DurationScore(hourMap, firstTs, lastTs, dsMin, dsMax, minBars)
  {
    hide Bars; hide LongestRun;
    var w := WindowMin(dsMin, dsMax);
    assert BinsOf(more, w, dsMax) == BinsOf(hourMap, w, dsMax);
  }

  /** What decides whether occupying the first bin and covering the window from its start count. */
  ghost predicate Ignored(bins: seq<bool>, first: real, last: real, w: real, dsMax: real, minBars: int)
    requires bins != []
  {
    || Bars(bins[0 := true]) < minBars
    || (Bars(bins) >= minBars
        && Outweighed(LongestRun(bins), Coverage(first, last, w, dsMax), LongestRun(bins[0 := true]), Coverage(w, last, w, dsMax)))
  }

  /**
   The exact extent of the failure. Records from before the window are added to those of a
   pair: its score stays the same if and only if the first bin, once occupied, still leaves
   too few, or there were enough and neither the run then nor the whole span to the latest
   time beats both the run and the span before. All of it can be told from the pair alone.
   */
  lemma OlderHistoryIgnoredIff(d: Dice, recs: seq<Rec>, older: seq<Rec>, all: seq<Rec>, dsMin: real, dsMax: real, minBars: int)
    requires WithOlder(recs, older, all, WindowMin(dsMin, dsMax)) && Times(recs) != [] && Times(older) != []
    ensures var w, b := WindowMin(dsMin, dsMax), Eager(d, recs);
      PairScore(d, all, dsMin, dsMax, minBars) == PairScore(d, recs, dsMin, dsMax, minBars) <==>
        dsMax <= w || Ignored(BinsOf(b.track.hourMap, w, dsMax), b.totals.minTs, b.totals.maxTs, w, dsMax, minBars)
  {
    hide Eager; hide Times; hide Occupied; hide DurationScore; hide WithOlder; hide Ignored; hide BinsOf;
    var w := WindowMin(dsMin, dsMax);
    var b, b' := Eager(d, recs), Eager(d, all);
    if dsMax <= w {
      EmptyWindow(b.track.hourMap, b.totals.minTs, b.totals.maxTs, b'.track.hourMap, b'.totals.minTs, b'.totals.maxTs, dsMin, dsMax, minBars);
    } else if b.totals.minTs <= w {
      OldPairsUnmoved(d, recs, older, all, dsMin, dsMax, minBars);
      MinMaxOfTimes(d, recs);
      OldTimeOccupies(d, recs, b.totals.minTs, w, dsMax);
      AlreadyOccupied(b.track.hourMap, b.totals.minTs, b.totals.maxTs, w, dsMax, minBars);
    } else {
      YoungPair(d, recs, older, all, dsMin, dsMax, minBars);
    }
  }

  lemma AlreadyOccupied(hourMap: map<int, nat>, first: real, last: real, w: real, dsMax: real, minBars: int)
    requires Occupied(hourMap, w, dsMax, 0) && first <= w
    ensures Ignored(BinsOf(hourMap, w, dsMax), first, last, w, dsMax, minBars)
  {
    hide Occupied; hide Bars; hide LongestRun;
    var bins := BinsOf(hourMap, w, dsMax);
    assert bins[0 := true] == bins;
  }

  /** A pair first seen inside the window. */
  lemma YoungPair(d: Dice, recs: seq<Rec>, older: seq<Rec>, all: seq<Rec>, dsMin: real, dsMax: real, minBars: int)
    requires WithOlder(recs, older, all, WindowMin(dsMin, dsMax)) && Times(recs) != [] && Times(older) != []
    requires WindowMin(dsMin, dsMax) < dsMax && WindowMin(dsMin, dsMax) < Eager(d, recs).totals.minTs
    ensures var w, b := WindowMin(dsMin, dsMax), Eager(d, recs);
      PairScore(d, all, dsMin, dsMax, minBars) == PairScore(d, recs, dsMin, dsMax, minBars) <==>
        Ignored(BinsOf(b.track.hourMap, w, dsMax), b.totals.minTs, b.totals.maxTs, w, dsMax, minBars)
  {
    hide Eager; hide Times; hide Occupied; hide DurationScore; hide WithOlder; hide Extends; hide Bars; hide LongestRun;
    hide Outweighed; hide Coverage; hide BinsOf;
    var w := WindowMin(dsMin, dsMax);
    var b, b' := Eager(d, recs), Eager(d, all);
    OlderExtends(d, recs, older, all, w);
    OlderExtremes(d, recs, older, all, w);
    MinMaxOfTimes(d, recs);
    OlderIsThere(recs, older, all, w);
    OldTimeOccupies(d, all, Times(older)[0], w, dsMax);
    OlderBins(b.track.hourMap, b'.track.hourMap, w, dsMax);
    assert BinsOf(b'.track.hourMap, w, dsMax) == BinsOf(b.track.hourMap, w, dsMax)[0 := true];
    OlderActivityIgnoredIff(b.track.hourMap, b'.track.hourMap, b.totals.minTs, b'.totals.minTs, b.totals.maxTs, dsMin, dsMax, minBars);
    BeforeWindow(b'.totals.minTs, b.totals.maxTs, w, dsMax);
  }

  lemma BeforeWindow(first: real, last: real, w: real, dsMax: real)
    requires first <= w
    ensures Coverage(first, last, w, dsMax) == Coverage(w, last, w, dsMax)
  {
  }

  lemma OlderIsThere(recs: seq<Rec>, older: seq<Rec>, all: seq<Rec>, w: real)
    requires WithOlder(recs, older, all, w) && Times(older) != []
    ensures Times(older)[0] in Times(all) && Times(older)[0] < w
  {
    hide Times;
    assert Times(older)[0] in Times(older);
    assert Times(older)[0] in multiset(Times(older));
    assert Times(older)[0] in multiset(Times(all));
  }

  // ---- A pair it happens to ----

  function At(ts: real): Rec
    requires ts >= 0.0
  {
    RawRec(ts, 0.0, 0.0, "", 443, "tcp")
  }

  /** A connection every seven hours, the first of them seven hours into the window. */
  const YOUNG: seq<Rec> := [At(630000.0), At(655200.0), At(680400.0), At(705600.0), At(730800.0)]

  lemma TimesSnoc(recs: seq<Rec>, r: Rec)
    ensures Times(recs + [r]) == Times(recs) + if r.ts > 0.0 then [r.ts] else []
  {
    assert (recs + [r])[..|recs|] == recs;
  }

  lemma YoungTimes()
    ensures Times(YOUNG) == [630000.0, 655200.0, 680400.0, 705600.0, 730800.0]
  {
    hide Times;
    var a, b, c, d, e := At(630000.0), At(655200.0), At(680400.0), At(705600.0), At(730800.0);
    assert Times([]) == [] by { NoTimes(); }
    TimesSnoc([], a);
    TimesSnoc([a], b);
    TimesSnoc([a, b], c);
    TimesSnoc([a, b, c], d);
    TimesSnoc([a, b, c, d], e);
    assert [] + [a] == [a] && [a] + [b] == [a, b] && [a, b] + [c] == [a, b, c] && [a, b, c] + [d] == [a, b, c, d];
    assert [a, b, c, d] + [e] == YOUNG;
  }

  lemma NoTimes()
    ensures Times([]) == []
  {
  }

  /** These records occupy the bins behind the first, one after another. */
  lemma YoungBins(d: Dice, w: real, dsMax: real)
    requires w == WINDOW && dsMax == 2.0 * WINDOW
    ensures Trues(BinsOf(Eager(d, YOUNG).track.hourMap, w, dsMax)) == {1, 2, 3, 4, 5}
  {
    hide Eager; hide Times; hide InHour; hide Hour; hide Bin; hide Occupied;
    var hourMap := Eager(d, YOUNG).track.hourMap;
    YoungHours(w, dsMax);
    forall hr
      ensures CountIn(hourMap, hr) > 0 <==> hr in {175, 182, 189, 196, 203}
    {
      HourCounts(d, YOUNG, hr);
      YoungInHour(hr);
    }
    forall b | 0 <= b < BINS
      ensures Occupied(hourMap, w, dsMax, b) <==> 1 <= b <= 5
    {
      OccupiedCounts(hourMap, w, dsMax, b);
      assert forall hr :: hr in {175, 182, 189, 196, 203} ==> CountIn(hourMap, hr) > 0;
    }
  }

  lemma YoungHours(w: real, dsMax: real)
    requires w == WINDOW && dsMax == 2.0 * WINDOW
    ensures Bin(175, w, dsMax) == 1 && Bin(182, w, dsMax) == 2 && Bin(189, w, dsMax) == 3
    ensures Bin(196, w, dsMax) == 4 && Bin(203, w, dsMax) == 5
  {
  }

  lemma YoungInHour(hr: int)
    ensures InHour(Times(YOUNG), hr) > 0 <==> hr in {175, 182, 189, 196, 203}
  {
    hide Times; hide InHour;
    YoungTimes();
    var ts := Times(YOUNG);
    HourOfSome(ts, hr);
    assert Hour(ts[0]) == 175 && Hour(ts[1]) == 182 && Hour(ts[2]) == 189 && Hour(ts[3]) == 196 && Hour(ts[4]) == 203;
  }

  /**
   Five such connections score nothing with the six bins every caller asks for; one older
   log with a single connection, retained behind the window, lifts the pair to a half.
   */
  lemma OlderLogCounts(d: Dice) returns (older: seq<Rec>, dsMax: real)
    ensures WithOlder(YOUNG, older, older + YOUNG, WindowMin(1.0, dsMax))
    ensures PairScore(d, YOUNG, 1.0, dsMax, 6) == 0.0 && PairScore(d, older + YOUNG, 1.0, dsMax, 6) >= 0.5
  {
    hide Eager; hide Times; hide Bars; hide LongestRun; hide Occupied; hide Extends; hide Coverage; hide BinsOf;
    older, dsMax := [At(1.0)], 2.0 * WINDOW;
    var w, all := WindowMin(1.0, dsMax), older + YOUNG;
    OneOlder(older, all, w);
    var b, b' := Eager(d, YOUNG), Eager(d, all);
    var bins := BinsOf(b.track.hourMap, w, dsMax);
    OlderExtends(d, YOUNG, older, all, w);
    OlderIsThere(YOUNG, older, all, w);
    OldTimeOccupies(d, all, Times(older)[0], w, dsMax);
    OlderBins(b.track.hourMap, b'.track.hourMap, w, dsMax);
    YoungBins(d, w, dsMax);
    SixBins(bins, Coverage(b.totals.minTs, b.totals.maxTs, w, dsMax));
    SixBins(bins, Coverage(b'.totals.minTs, b'.totals.maxTs, w, dsMax));
  }

  lemma OneOlder(older: seq<Rec>, all: seq<Rec>, w: real)
    requires older == [At(1.0)] && all == older + YOUNG && w > 1.0
    ensures WithOlder(YOUNG, older, all, w) && Times(older) == [1.0]
  {
    hide Times;
    NoTimes();
    TimesSnoc([], older[0]);
    assert [] + older == older;
    TimesConcat(older, YOUNG);
  }

  lemma {:induction false} TimesConcat(a: seq<Rec>, b: seq<Rec>)
    ensures Times(a + b) == Times(a) + Times(b)
  {
    if b == [] {
      assert a + b == a;
    } else {
      var k := |b| - 1;
      assert a + b == (a + b[..k]) + [b[k]] && b == b[..k] + [b[k]];
      TimesConcat(a, b[..k]);
      TimesSnoc(a + b[..k], b[k]);
      TimesSnoc(b[..k], b[k]);
    }
  }
}
