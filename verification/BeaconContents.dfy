/** What each part of a beacon's state holds, for streams of any length. */
module BeaconContents {
  import opened Reservoir
  import opened BeaconSpec

  /** The draws a reservoir makes once it is full. */
  function Draws(source: nat -> nat, cap: nat, n: nat): (choices: seq<nat>)
    ensures ValidChoices(cap, n, choices)
  {
    if n <= cap then [] else Draws(source, cap, n - 1) + [Pick(source, n - 1)]
  }

  /** The reservoir over a stream, with the draws of its own source. */
  function Sampled<T>(source: nat -> nat, cap: nat, xs: seq<T>): seq<T> {
    Buffer(cap, xs, Draws(source, cap, |xs|))
  }

  lemma DrawsPrefix(source: nat -> nat, cap: nat, n: nat)
    requires n > cap
    ensures var all := Draws(source, cap, n);
      |all| == n - cap && all[..n - cap - 1] == Draws(source, cap, n - 1) && all[n - cap - 1] == Pick(source, n - 1)
  {
    hide Pick;
  }

  /** One more item, with the draw the source makes for it. */
  lemma SampledMore<T>(source: nat -> nat, cap: nat, xs: seq<T>, x: T)
    requires cap > 0
    ensures Sampled(source, cap, xs + [x]) == Added(Sampled(source, cap, xs), |xs|, x, cap, Pick(source, |xs|))
  {
    hide Pick; hide Draws;
    assert (xs + [x])[..|xs|] == xs;
    if |xs| < cap {
      FewDraws(source, cap, |xs|);
      FewDraws(source, cap, |xs| + 1);
      FewKept(cap, xs);
    } else {
      DrawsPrefix(source, cap, |xs| + 1);
    }
  }

  lemma FewDraws(source: nat -> nat, cap: nat, n: nat)
    requires n <= cap
    ensures Draws(source, cap, n) == []
  {
  }

  lemma FewKept<T>(cap: nat, xs: seq<T>)
    requires |xs| <= cap
    ensures |Buffer(cap, xs, [])| == |xs|
  {
    BufferHoldsSample(cap, xs, []);
  }

  // ---- The streams behind the state ----

  /** The bytes sent, record by record, where any were sent. */
  function Sizes(recs: seq<Rec>): seq<real> {
    if recs == [] then []
    else
      var r := recs[|recs| - 1];
      Sizes(recs[..|recs| - 1]) + if r.origB > 0.0 then [r.origB] else []
  }

  /** The chart points: the records that carry a time. */
  function Points(recs: seq<Rec>): seq<(real, real, real)> {
    if recs == [] then []
    else
      var r := recs[|recs| - 1];
      Points(recs[..|recs| - 1]) + if r.ts > 0.0 then [(r.ts, r.origB, r.respB)] else []
  }

  /** The connections that can be attributed to a TLS channel. */
  function Channels(recs: seq<Rec>): seq<ChanRec> {
    if recs == [] then []
    else
      var r := recs[|recs| - 1];
      Channels(recs[..|recs| - 1]) + if r.uid != "" && r.ts > 0.0 then [ChanRec(r.uid, r.ts, r.origB)] else []
  }

  function Uids(recs: seq<Rec>): seq<string> {
    if recs == [] then []
    else
      var r := recs[|recs| - 1];
      Uids(recs[..|recs| - 1]) + if r.uid != "" then [r.uid] else []
  }

  function Leading<T>(xs: seq<T>, cap: nat): seq<T> {
    if |xs| <= cap then xs else xs[..cap]
  }

  lemma LeadingMore<T>(xs: seq<T>, x: T, cap: nat)
    ensures Leading(xs + [x], cap) == if |Leading(xs, cap)| < cap then Leading(xs, cap) + [x] else Leading(xs, cap)
  {
    if |xs| >= cap {
      assert (xs + [x])[..cap] == xs[..cap];
      assert |xs| == cap ==> xs[..cap] == xs;
    }
  }

  // ---- The state holds them ----

  /** The size sample is the reservoir over all positive sizes. */
  lemma {:induction false} SizesSampled(d: Dice, recs: seq<Rec>)
    ensures var s := Eager(d, recs).samples;
      s.byteVals == Sampled(d.bytes, BYTE_CAP, Sizes(recs)) && s.byteSeen == |Sizes(recs)|
  {
    hide Sampled; hide Added; hide Pick;
    if recs == [] {
      NothingSampled<real>(d.bytes, BYTE_CAP);
    } else {
      var k := |recs| - 1;
      SizesSampled(d, recs[..k]);
      SampledMore(d.bytes, BYTE_CAP, Sizes(recs[..k]), recs[k].origB);
      assert Sizes(recs[..k]) + [] == Sizes(recs[..k]);
    }
  }

  lemma NothingSampled<T>(source: nat -> nat, cap: nat)
    ensures Sampled<T>(source, cap, []) == []
  {
  }

  /** The chart sample is the reservoir over all timed records. */
  lemma {:induction false} PointsSampled(d: Dice, recs: seq<Rec>)
    ensures var s := Eager(d, recs).samples;
      s.tsData == Sampled(d.ts, TS_CAP, Points(recs)) && s.tsSeen == |Points(recs)|
  {
    hide Sampled; hide Added; hide Pick;
    if recs == [] {
      NothingSampled<(real, real, real)>(d.ts, TS_CAP);
    } else {
      var k := |recs| - 1;
      PointsSampled(d, recs[..k]);
      SampledMore(d.ts, TS_CAP, Points(recs[..k]), (recs[k].ts, recs[k].origB, recs[k].respB));
      assert Points(recs[..k]) + [] == Points(recs[..k]);
    }
  }

  /** The kept channel records and SNI candidates are the first ones there were. */
  lemma {:induction false} FirstOnesKept(d: Dice, recs: seq<Rec>)
    ensures Eager(d, recs).track.chanRecs == Leading(Channels(recs), CHAN_CAP)
    ensures Eager(d, recs).track.sni == Leading(Uids(recs), SNI_CAP)
  {
    hide AddRing; hide AddHour; hide Leading;
    if recs == [] {
      NothingLeads();
    } else {
      var k := |recs| - 1;
      var r := recs[k];
      FirstOnesKept(d, recs[..k]);
      LeadingMore(Channels(recs[..k]), ChanRec(r.uid, r.ts, r.origB), CHAN_CAP);
      LeadingMore(Uids(recs[..k]), r.uid, SNI_CAP);
      LeadingSize(Channels(recs[..k]), CHAN_CAP);
      assert Channels(recs[..k]) + [] == Channels(recs[..k]) && Uids(recs[..k]) + [] == Uids(recs[..k]);
    }
  }

  lemma NothingLeads()
    ensures Leading<ChanRec>([], CHAN_CAP) == [] && Leading<string>([], SNI_CAP) == []
  {
  }

  lemma LeadingSize<T>(xs: seq<T>, cap: nat)
    ensures |Leading(xs, cap)| <= cap
  {
  }

  /** The interval sample is the reservoir over all gaps between running maxima, however many there are. */
  lemma {:induction false} IntervalsSampled(d: Dice, recs: seq<Rec>)
    ensures var s := Eager(d, recs).samples; var gaps := Gaps(Maxima(Times(recs)));
      s.ivs == Sampled(d.iv, IV_CAP, gaps) && s.ivsSeen == |gaps| && s.lastTs == LastOr0(Maxima(Times(recs)))
  {
    hide Sampled; hide Maxima; hide Gaps; hide LastOr0; hide AddSamples; hide Times;
    if recs == [] {
      NothingSampled<real>(d.iv, IV_CAP);
      NoMaxima(d);
    } else {
      var k := |recs| - 1;
      IntervalsSampled(d, recs[..k]);
      IntervalStep(d, Eager(d, recs[..k]).samples, Times(recs[..k]), recs[k]);
      TimesMore(recs);
    }
  }

  lemma NoMaxima(d: Dice)
    ensures Gaps(Maxima(Times([]))) == [] && LastOr0(Maxima(Times([]))) == 0.0
  {
  }

  lemma TimesMore(recs: seq<Rec>)
    requires recs != []
    ensures Times(recs) == Times(recs[..|recs| - 1]) + if recs[|recs| - 1].ts > 0.0 then [recs[|recs| - 1].ts] else []
  {
  }

  lemma IntervalStep(d: Dice, s: Samples, ts: seq<real>, r: Rec)
    requires Capped(s) && forall i :: 0 <= i < |ts| ==> ts[i] > 0.0
    requires s.ivs == Sampled(d.iv, IV_CAP, Gaps(Maxima(ts))) && s.ivsSeen == |Gaps(Maxima(ts))| && s.lastTs == LastOr0(Maxima(ts))
    ensures var s' := AddSamples(d, s, r); var m := Maxima(ts + if r.ts > 0.0 then [r.ts] else []);
      s'.ivs == Sampled(d.iv, IV_CAP, Gaps(m)) && s'.ivsSeen == |Gaps(m)| && s'.lastTs == LastOr0(m)
  {
    hide Sampled; hide Maxima; hide Gaps; hide Added; hide Pick;
    var m := Maxima(ts);
    MaximaRise(ts);
    OtherSamples(d, s, r);
    assert m + [] == m && ts + [] == ts;
    if r.ts > 0.0 {
      MaximaAppend(ts, r.ts);
      GapsAppend(m, r.ts);
      GapsNone();
      if m != [] {
        SampledMore(d.iv, IV_CAP, Gaps(m), r.ts - LastOr0(m));
      }
    }
  }

  lemma GapsNone()
    ensures Gaps([]) == []
  {
  }

  // ---- Totals ----

  function OnPort(recs: seq<Rec>, p: int): seq<Rec> {
    if recs == [] then []
    else OnPort(recs[..|recs| - 1], p) + if recs[|recs| - 1].port == p then [recs[|recs| - 1]] else []
  }

  function Sent(recs: seq<Rec>): real {
    if recs == [] then 0.0 else Sent(recs[..|recs| - 1]) + recs[|recs| - 1].origB
  }

  function Received(recs: seq<Rec>): real {
    if recs == [] then 0.0 else Received(recs[..|recs| - 1]) + recs[|recs| - 1].respB
  }

  /** Earliest and latest of the positive timestamps, zero when there are none. */
  ghost predicate Spans(first: real, last: real, ts: seq<real>) {
    if ts == [] then first == 0.0 == last
    else first in ts && last in ts && forall i :: 0 <= i < |ts| ==> 0.0 < first <= ts[i] <= last
  }

  ghost predicate Describes(s: PortStat, recs: seq<Rec>) {
    s.conns == |recs| && s.bytes == Sent(recs) + Received(recs) && Spans(s.firstTs, s.lastTs, Times(recs))
  }

  lemma SpansMore(first: real, last: real, ts: seq<real>, t: real)
    requires Spans(first, last, ts) && t > 0.0
    ensures Spans(Lower(first, t), Higher(last, t), ts + [t])
  {
    var more := ts + [t];
    assert more[|ts|] == t;
    assert forall i :: 0 <= i < |ts| ==> more[i] == ts[i] && ts[i] in more;
  }

  lemma DescribesMore(s: PortStat, recs: seq<Rec>, r: Rec)
    requires Describes(s, recs)
    ensures Describes(PortStat(s.conns + 1, s.bytes + (r.origB + r.respB), Lower(s.firstTs, r.ts),
                               if r.ts > 0.0 then Higher(s.lastTs, r.ts) else s.lastTs), recs + [r])
  {
    var more := recs + [r];
    assert more[..|recs|] == recs;
    assert Times(recs) + [] == Times(recs);
    if r.ts > 0.0 {
      SpansMore(s.firstTs, s.lastTs, Times(recs), r.ts);
    }
  }

  /** The sums are over all records. */
  lemma {:induction false} SumsAre(d: Dice, recs: seq<Rec>)
    ensures Eager(d, recs).totals.origSum == Sent(recs) && Eager(d, recs).totals.respSum == Received(recs)
  {
    hide AddSamples; hide AddTrack; hide AddPortStat;
    if recs != [] {
      SumsAre(d, recs[..|recs| - 1]);
    }
  }

  function PortAt(ports: map<int, PortStat>, p: int): PortStat {
    if p in ports then ports[p] else PortStat(0, 0.0, 0.0, 0.0)
  }

  lemma PortStep(ports: map<int, PortStat>, recs: seq<Rec>, r: Rec, p: int)
    requires Describes(PortAt(ports, p), OnPort(recs, p)) && (p in ports <==> OnPort(recs, p) != [])
    ensures var after := AddPortStat(ports, r);
      Describes(PortAt(after, p), OnPort(recs + [r], p)) && (p in after <==> OnPort(recs + [r], p) != [])
  {
    hide Describes; hide Lower; hide Higher;
    assert (recs + [r])[..|recs|] == recs;
    if r.port == p {
      DescribesMore(PortAt(ports, p), OnPort(recs, p), r);
    } else {
      assert OnPort(recs, p) + [] == OnPort(recs, p);
    }
  }

  /** Each port's statistics are those of the records on that port. */
  lemma {:induction false} PortsAre(d: Dice, recs: seq<Rec>, p: int)
    ensures var ports := Eager(d, recs).totals.ports;
      Describes(PortAt(ports, p), OnPort(recs, p)) && (p in ports <==> OnPort(recs, p) != [])
  {
    hide AddSamples; hide AddTrack; hide AddPortStat; hide Describes; hide PortAt; hide OnPort;
    if recs == [] {
      NewPort(d, p);
    } else {
      var k := |recs| - 1;
      assert recs == recs[..k] + [recs[k]];
      PortsAre(d, recs[..k], p);
      PortStep(Eager(d, recs[..k]).totals.ports, recs[..k], recs[k], p);
    }
  }

  lemma NewPort(d: Dice, p: int)
    ensures var ports := Eager(d, []).totals.ports;
      Describes(PortAt(ports, p), OnPort([], p)) && (p in ports <==> OnPort([], p) != [])
  {
  }
}
