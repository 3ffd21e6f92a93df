/** What a beacon accumulates from its connections, as a fold over the records. */
module BeaconSpec {
  import opened Reservoir

  const IV_CAP: nat := 1000
  const BYTE_CAP: nat := 1000
  const TS_CAP: nat := 200
  const RING_CAP: nat := 2000
  const SNI_CAP: nat := 32
  const CHAN_CAP: nat := 1500
  const LAZY_MIN: nat := 3

  /** One connection record; a timestamp of 0 means it is missing. */
  datatype RawRec = RawRec(ts: real, origB: real, respB: real, uid: string, port: int, proto: string)
  type Rec = r: RawRec | r.ts >= 0.0 witness RawRec(0.0, 0.0, 0.0, "", 0, "")

  datatype PortStat = PortStat(conns: nat, bytes: real, firstTs: real, lastTs: real)
  datatype ChanRec = ChanRec(uid: string, ts: real, origB: real)

  /** The random source of each reservoir, by the number of items seen. */
  datatype Dice = Dice(iv: nat -> nat, bytes: nat -> nat, ts: nat -> nat)

  /** rand.IntN(seen + 1) */
  function Pick(source: nat -> nat, seen: nat): (p: nat)
    ensures p <= seen
  {
    source(seen) % (seen + 1)
  }

  datatype Samples = Samples(
    lastTs: real, ivs: seq<real>, ivsSeen: nat,
    byteVals: seq<real>, byteSeen: nat,
    tsData: seq<(real, real, real)>, tsSeen: nat)

  datatype Track = Track(
    hourMap: map<int, nat>, ring: seq<real>, head: nat,
    chanRecs: seq<ChanRec>, sni: seq<string>)

  datatype Totals = Totals(origSum: real, respSum: real, ports: map<int, PortStat>, minTs: real, maxTs: real)

  datatype Beacon = Beacon(samples: Samples, track: Track, totals: Totals)

  // ---- One record ----

  function Lower(m: real, t: real): real {
    if t > 0.0 && (m == 0.0 || t < m) then t else m
  }

  function Higher(m: real, t: real): real {
    if t > m then t else m
  }

  /** The interval is taken only when time moves forward. */
  function AddInterval(d: Dice, s: Samples, ts: real): Samples
    requires |s.ivs| <= IV_CAP
  {
    if ts > s.lastTs then
      if s.lastTs > 0.0 then
        s.(ivs := Added(s.ivs, s.ivsSeen, ts - s.lastTs, IV_CAP, Pick(d.iv, s.ivsSeen)),
           ivsSeen := s.ivsSeen + 1, lastTs := ts)
      else s.(lastTs := ts)
    else s
  }

  predicate Capped(s: Samples) {
    |s.ivs| <= IV_CAP && |s.byteVals| <= BYTE_CAP && |s.tsData| <= TS_CAP
  }

  function AddBytes(d: Dice, s: Samples, r: Rec): Samples
    requires |s.byteVals| <= BYTE_CAP
  {
    if r.origB > 0.0 then
      s.(byteVals := Added(s.byteVals, s.byteSeen, r.origB, BYTE_CAP, Pick(d.bytes, s.byteSeen)),
         byteSeen := s.byteSeen + 1)
    else s
  }

  function AddTriple(d: Dice, s: Samples, r: Rec): Samples
    requires |s.tsData| <= TS_CAP
  {
    if r.ts > 0.0 then
      s.(tsData := Added(s.tsData, s.tsSeen, (r.ts, r.origB, r.respB), TS_CAP, Pick(d.ts, s.tsSeen)),
         tsSeen := s.tsSeen + 1)
    else s
  }

  function AddSamples(d: Dice, s: Samples, r: Rec): (s': Samples)
    requires Capped(s)
    ensures Capped(s')
  {
    AddTriple(d, AddBytes(d, AddInterval(d, s, r.ts), r), r)
  }

  function Hour(ts: real): int
    requires ts >= 0.0
  {
    ts.Floor / 3600
  }

  function AddHour(hours: map<int, nat>, ts: real): map<int, nat>
    requires ts >= 0.0
  {
    hours[Hour(ts) := 1 + if Hour(ts) in hours then hours[Hour(ts)] else 0]
  }

  /** appendSpectralRing */
  function AddRing(ring: seq<real>, head: nat, ts: real): (r: (seq<real>, nat))
    requires RingOk(ring, head)
    ensures RingOk(r.0, r.1)
  {
    if |ring| < RING_CAP then (ring + [ts], head) else (ring[head := ts], (head + 1) % RING_CAP)
  }

  predicate RingOk(ring: seq<real>, head: nat) {
    |ring| <= RING_CAP && head < RING_CAP && (|ring| < RING_CAP ==> head == 0)
  }

  function AddChan(chan: seq<ChanRec>, r: Rec): seq<ChanRec> {
    if r.uid == "" || r.ts <= 0.0 || |chan| >= CHAN_CAP then chan
    else chan + [ChanRec(r.uid, r.ts, r.origB)]
  }

  function AddSni(sni: seq<string>, uid: string): seq<string> {
    if uid != "" && |sni| < SNI_CAP then sni + [uid] else sni
  }

  function AddTrack(t: Track, r: Rec): (t': Track)
    requires RingOk(t.ring, t.head)
    ensures RingOk(t'.ring, t'.head)
  {
    var t1 := AddTimed(t, r.ts);
    t1.(chanRecs := AddChan(t.chanRecs, r), sni := AddSni(t.sni, r.uid))
  }

  function AddTimed(t: Track, ts: real): (t': Track)
    requires RingOk(t.ring, t.head) && ts >= 0.0
    ensures RingOk(t'.ring, t'.head) && t'.sni == t.sni && t'.chanRecs == t.chanRecs
  {
    if ts > 0.0 then
      var (ring, head) := AddRing(t.ring, t.head, ts);
      t.(hourMap := AddHour(t.hourMap, ts), ring := ring, head := head)
    else t
  }

  function AddPortStat(ports: map<int, PortStat>, r: Rec): map<int, PortStat> {
    var p := if r.port in ports then ports[r.port] else PortStat(0, 0.0, 0.0, 0.0);
    ports[r.port := PortStat(p.conns + 1, p.bytes + (r.origB + r.respB), Lower(p.firstTs, r.ts),
                             if r.ts > 0.0 then Higher(p.lastTs, r.ts) else p.lastTs)]
  }

  function AddTotals(t: Totals, r: Rec): Totals {
    Totals(t.origSum + r.origB, t.respSum + r.respB, AddPortStat(t.ports, r),
           Lower(t.minTs, r.ts), Higher(t.maxTs, r.ts))
  }

  // ---- The whole stream, record by record ----

  const EMPTY: Beacon := Beacon(
    Samples(0.0, [], 0, [], 0, [], 0), Track(map[], [], 0, [], []), Totals(0.0, 0.0, map[], 0.0, 0.0))

  predicate Valid(b: Beacon) {
    Capped(b.samples) && RingOk(b.track.ring, b.track.head)
  }

  function Eager(d: Dice, recs: seq<Rec>): (b: Beacon)
    ensures Valid(b)
  {
    if recs == [] then EMPTY else Next(d, Eager(d, recs[..|recs| - 1]), recs[|recs| - 1])
  }

  function Next(d: Dice, b: Beacon, r: Rec): (b': Beacon)
    requires Valid(b)
    ensures Valid(b')
  {
    Beacon(AddSamples(d, b.samples, r), AddTrack(b.track, r), AddTotals(b.totals, r))
  }

  lemma EagerSnoc(d: Dice, recs: seq<Rec>, r: Rec)
    ensures Eager(d, recs + [r]) == Next(d, Eager(d, recs), r)
  {
    assert (recs + [r])[..|recs|] == recs;
  }

  // ---- What the fold computes ----

  function Times(recs: seq<Rec>): (ts: seq<real>)
    ensures forall i :: 0 <= i < |ts| ==> ts[i] > 0.0
  {
    if recs == [] then []
    else
      var t := recs[|recs| - 1].ts;
      Times(recs[..|recs| - 1]) + if t > 0.0 then [t] else []
  }

  /** Position i is later than everything before it. */
  predicate RunningMax(ts: seq<real>, i: nat)
    requires i < |ts|
  {
    forall j :: 0 <= j < i ==> ts[j] < ts[i]
  }

  /** The strict running maxima, in order. */
  function Maxima(ts: seq<real>): (m: seq<real>)
    ensures |m| <= |ts|
  {
    if ts == [] then []
    else Maxima(ts[..|ts| - 1]) + if RunningMax(ts, |ts| - 1) then [ts[|ts| - 1]] else []
  }

  function Gaps(m: seq<real>): (g: seq<real>)
    ensures |g| == if |m| == 0 then 0 else |m| - 1
  {
    if |m| <= 1 then [] else Gaps(m[..|m| - 1]) + [m[|m| - 1] - m[|m| - 2]]
  }

  function Sum(xs: seq<real>): real {
    if xs == [] then 0.0 else Sum(xs[..|xs| - 1]) + xs[|xs| - 1]
  }

  /** m lists positive, strictly rising values of ts, from its first to its largest. */
  ghost predicate Rises(m: seq<real>, ts: seq<real>) {
    && (forall i :: 0 <= i < |m| ==> m[i] > 0.0)
    && (forall i :: 0 < i < |m| ==> m[i - 1] < m[i])
    && (m == [] <==> ts == [])
    && (ts != [] ==> m[0] == ts[0] && m[|m| - 1] in ts && forall i :: 0 <= i < |ts| ==> ts[i] <= m[|m| - 1])
  }

  /** The maxima rise from the first timestamp to the latest one. */
  lemma {:induction false} MaximaRise(ts: seq<real>)
    requires forall i :: 0 <= i < |ts| ==> ts[i] > 0.0
    ensures Rises(Maxima(ts), ts)
  {
    hide RunningMax; hide Rises;
    if ts == [] {
      NothingRises();
    } else {
      var k := |ts| - 1;
      MaximaRise(ts[..k]);
      assert ts == ts[..k] + [ts[k]];
      RiseOn(Maxima(ts[..k]), ts[..k], ts[k]);
    }
  }

  lemma NothingRises()
    ensures Rises([], [])
  {
  }

  lemma RiseOn(m: seq<real>, ts: seq<real>, t: real)
    requires Rises(m, ts) && t > 0.0
    ensures Rises(m + (if RunningMax(ts + [t], |ts|) then [t] else []), ts + [t])
  {
    var more := ts + [t];
    assert forall i :: 0 <= i < |ts| ==> more[i] == ts[i];
    assert more[|ts|] == t;
    if ts != [] {
      var last := m[|m| - 1];
      var j :| 0 <= j < |ts| && ts[j] == last;
      assert more[j] == last;
      assert RunningMax(more, |ts|) <==> last < t;
    }
    if !RunningMax(more, |ts|) {
      assert m + [] == m;
    }
  }

  lemma {:induction false} GapsTelescope(m: seq<real>)
    requires m != [] && forall i :: 0 < i < |m| ==> m[i - 1] < m[i]
    ensures Sum(Gaps(m)) == m[|m| - 1] - m[0]
    ensures forall i :: 0 <= i < |Gaps(m)| ==> Gaps(m)[i] > 0.0
  {
    if |m| > 1 {
      var front := m[..|m| - 1];
      forall i | 0 < i < |front| ensures front[i - 1] < front[i] {
        assert front[i - 1] == m[i - 1] && front[i] == m[i];
      }
      GapsTelescope(front);
      assert Gaps(m)[..|m| - 2] == Gaps(front);
    }
  }

  /** Last of a sequence of positive times, or 0 when there is none. */
  function LastOr0(m: seq<real>): real {
    if m == [] then 0.0 else m[|m| - 1]
  }

  /**
   Whatever order the records arrive in, and until the reservoir is full, the
   intervals are the gaps between successive running maxima of the positive
   timestamps.
   */
  lemma {:induction false} IntervalsAreGaps(d: Dice, recs: seq<Rec>)
    ensures HoldsGaps(Eager(d, recs).samples, Maxima(Times(recs)))
  {
    hide Maxima; hide HoldsGaps;
    if recs == [] {
      NoGapsYet();
    } else {
      var k := |recs| - 1;
      IntervalsAreGaps(d, recs[..k]);
      OneMoreTime(d, Eager(d, recs[..k]).samples, Times(recs[..k]), recs[k]);
    }
  }

  lemma NoGapsYet()
    ensures HoldsGaps(EMPTY.samples, Maxima([]))
  {
  }

  lemma MaximaAppend(ts: seq<real>, t: real)
    requires (forall i :: 0 <= i < |ts| ==> ts[i] > 0.0) && t > 0.0
    ensures Maxima(ts + [t]) == Maxima(ts) + if t > LastOr0(Maxima(ts)) then [t] else []
  {
    var more := ts + [t];
    MaximaRise(ts);
    assert more[..|ts|] == ts;
    NewMax(ts, t, LastOr0(Maxima(ts)));
  }

  lemma NewMax(ts: seq<real>, t: real, last: real)
    requires t > 0.0 && (forall i :: 0 <= i < |ts| ==> ts[i] <= last) && (if ts == [] then last == 0.0 else last in ts)
    ensures RunningMax(ts + [t], |ts|) <==> t > last
  {
    var more := ts + [t];
    assert forall i :: 0 <= i < |ts| ==> more[i] == ts[i];
    if ts != [] {
      var j :| 0 <= j < |ts| && ts[j] == last;
      assert more[j] == last;
    }
  }

  lemma GapsAppend(m: seq<real>, t: real)
    ensures m == [] ==> Gaps(m + [t]) == []
    ensures m != [] ==> Gaps(m + [t]) == Gaps(m) + [t - LastOr0(m)]
  {
    hide Gaps;
    var n := m + [t];
    NoGaps(n);
    if m != [] {
      GapsUnfold(n);
      assert n[..|n| - 1] == m && n[|n| - 1] == t && n[|n| - 2] == LastOr0(m);
    }
  }

  lemma GapsUnfold(m: seq<real>)
    requires |m| > 1
    ensures Gaps(m) == Gaps(m[..|m| - 1]) + [m[|m| - 1] - m[|m| - 2]]
  {
  }

  /** The samples record gaps of the maxima `m`. */
  predicate HoldsGaps(s: Samples, m: seq<real>) {
    && s.lastTs == LastOr0(m)
    && s.ivsSeen == |Gaps(m)|
    && (|Gaps(m)| <= IV_CAP ==> s.ivs == Gaps(m))
  }

  lemma OneMoreTime(d: Dice, s: Samples, ts: seq<real>, r: Rec)
    requires Capped(s) && (forall i :: 0 <= i < |ts| ==> ts[i] > 0.0) && HoldsGaps(s, Maxima(ts))
    ensures HoldsGaps(AddSamples(d, s, r), Maxima(ts + if r.ts > 0.0 then [r.ts] else []))
  {
    hide Added; hide Maxima; hide Gaps; hide RunningMax;
    var m := Maxima(ts);
    MaximaRise(ts);
    OtherSamples(d, s, r);
    if r.ts > 0.0 {
      MaximaAppend(ts, r.ts);
      assert m + [] == m;
      if r.ts > s.lastTs {
        NewGap(d, s, m, r.ts);
      }
    } else {
      assert ts + [] == ts;
    }
  }

  lemma NewGap(d: Dice, s: Samples, m: seq<real>, t: real)
    requires |s.ivs| <= IV_CAP && HoldsGaps(s, m) && t > s.lastTs >= 0.0 && (m != [] ==> s.lastTs > 0.0)
    ensures HoldsGaps(AddInterval(d, s, t), m + [t])
  {
    hide Added; hide Gaps;
    GapsAppend(m, t);
    NoGaps(m);
    if m != [] && |Gaps(m)| < IV_CAP {
      BelowCapAppends(s.ivs, s.ivsSeen, t - s.lastTs, IV_CAP, Pick(d.iv, s.ivsSeen));
    }
  }

  lemma NoGaps(m: seq<real>)
    ensures |m| <= 1 ==> Gaps(m) == []
  {
  }

  /** The other samples leave the intervals alone. */
  lemma OtherSamples(d: Dice, s: Samples, r: Rec)
    requires Capped(s)
    ensures var s' := AddSamples(d, s, r); var i := AddInterval(d, s, r.ts);
      s'.lastTs == i.lastTs && s'.ivs == i.ivs && s'.ivsSeen == i.ivsSeen
  {
    hide Added;
  }

  lemma BelowCapAppends<T>(buf: seq<T>, seen: nat, v: T, cap: nat, pick: nat)
    requires |buf| < cap && pick <= seen
    ensures Added(buf, seen, v, cap, pick) == buf + [v]
  {
  }

  /** All intervals are positive and they sum to the latest minus the first positive timestamp. */
  lemma IntervalsSum(d: Dice, recs: seq<Rec>)
    requires Times(recs) != [] && |Maxima(Times(recs))| <= IV_CAP + 1
    ensures var b := Eager(d, recs); var ivs := b.samples.ivs;
      (forall i :: 0 <= i < |ivs| ==> ivs[i] > 0.0) && Sum(ivs) == b.totals.maxTs - Times(recs)[0]
  {
    hide Eager; hide Maxima;
    var ts := Times(recs);
    var m := Maxima(ts);
    IntervalsAreGaps(d, recs);
    MaximaRise(ts);
    GapsTelescope(m);
    MinMaxOfTimes(d, recs);
    SameLatest(ts, m[|m| - 1], Eager(d, recs).totals.maxTs);
  }

  lemma SameLatest(ts: seq<real>, x: real, y: real)
    requires x in ts && y in ts && forall i :: 0 <= i < |ts| ==> ts[i] <= x && ts[i] <= y
    ensures x == y
  {
  }

  /** The ring as it is read: from the oldest entry on. */
  function ReadRing(ring: seq<real>, head: nat): seq<real>
    requires head <= |ring|
  {
    ring[head..] + ring[..head]
  }

  function Newest(ts: seq<real>, n: nat): seq<real> {
    if |ts| <= n then ts else ts[|ts| - n..]
  }

  /** Read from its head, the ring holds exactly the newest timestamps in the order they arrived. */
  lemma {:induction false} RingHoldsNewest(d: Dice, recs: seq<Rec>)
    ensures var t := Eager(d, recs).track;
      t.head <= |t.ring| && ReadRing(t.ring, t.head) == Newest(Times(recs), RING_CAP)
  {
    if recs != [] {
      var k := |recs| - 1;
      RingHoldsNewest(d, recs[..k]);
      var t := Eager(d, recs[..k]).track;
      if recs[k].ts > 0.0 {
        RingStep(t.ring, t.head, Times(recs[..k]), recs[k].ts);
      } else {
        assert Times(recs) == Times(recs[..k]);
      }
    }
  }

  lemma RingStep(ring: seq<real>, head: nat, ts: seq<real>, x: real)
    requires RingOk(ring, head) && head <= |ring| && ReadRing(ring, head) == Newest(ts, RING_CAP)
    ensures var (r, h) := AddRing(ring, head, x);
      h <= |r| && ReadRing(r, h) == Newest(ts + [x], RING_CAP)
  {
    var (r, h) := AddRing(ring, head, x);
    var old', new' := ReadRing(ring, head), ReadRing(r, h);
    if |ring| < RING_CAP {
      assert old' == ring && |ts| == |ring|;
      assert new' == ring + [x];
    } else {
      assert new' == old'[1..] + [x];
      assert Newest(ts + [x], RING_CAP) == old'[1..] + [x];
    }
  }

  function PortsOf(recs: seq<Rec>): (ps: seq<int>)
    ensures |ps| == |recs|
  {
    if recs == [] then [] else PortsOf(recs[..|recs| - 1]) + [recs[|recs| - 1].port]
  }

  /** The per-port counts are the ports of the records, each with its multiplicity; together they number the records. */
  lemma {:induction false} PortCounts(d: Dice, recs: seq<Rec>)
    ensures var ports := Eager(d, recs).totals.ports; var all := multiset(PortsOf(recs));
      && |all| == |recs|
      && (forall p :: p in ports <==> p in all)
      && (forall p :: p in ports ==> ports[p].conns == all[p])
  {
    if recs != [] {
      PortCounts(d, recs[..|recs| - 1]);
    }
  }

  function InHour(ts: seq<real>, h: int): nat
    requires forall i :: 0 <= i < |ts| ==> ts[i] > 0.0
  {
    if ts == [] then 0
    else InHour(ts[..|ts| - 1], h) + if Hour(ts[|ts| - 1]) == h then 1 else 0
  }

  lemma InHourAppend(ts: seq<real>, t: real, h: int)
    requires (forall i :: 0 <= i < |ts| ==> ts[i] > 0.0) && t > 0.0
    ensures InHour(ts + [t], h) == InHour(ts, h) + if Hour(t) == h then 1 else 0
  {
    assert (ts + [t])[..|ts|] == ts;
  }

  /** The hour map counts the positive timestamps of each hour. */
  lemma {:induction false} HourCounts(d: Dice, recs: seq<Rec>, h: int)
    ensures var hours := Eager(d, recs).track.hourMap;
      (if h in hours then hours[h] else 0) == InHour(Times(recs), h)
  {
    hide InHour; hide Hour; hide AddRing;
    if recs == [] {
      NothingInHour(h);
    } else {
      var k := |recs| - 1;
      HourCounts(d, recs[..k], h);
      if recs[k].ts > 0.0 {
        InHourAppend(Times(recs[..k]), recs[k].ts, h);
      } else {
        assert Times(recs) == Times(recs[..k]);
      }
    }
  }

  lemma NothingInHour(h: int)
    ensures InHour([], h) == 0
  {
  }

  /** Earliest and latest are those of the positive timestamps, 0 when there are none. */
  lemma {:induction false} MinMaxOfTimes(d: Dice, recs: seq<Rec>)
    ensures var t := Eager(d, recs).totals; var ts := Times(recs);
      if ts == [] then t.minTs == 0.0 == t.maxTs
      else t.minTs in ts && t.maxTs in ts && forall i :: 0 <= i < |ts| ==> t.minTs <= ts[i] <= t.maxTs
  {
    if recs != [] {
      var k := |recs| - 1;
      MinMaxOfTimes(d, recs[..k]);
      if recs[k].ts > 0.0 {
        assert Times(recs) == Times(recs[..k]) + [recs[k].ts];
      } else {
        assert Times(recs) == Times(recs[..k]);
      }
    }
  }
}
