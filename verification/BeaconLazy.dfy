/**
 Lazy allocation of beacon state: the first two records of a pair are only
 stashed, and replayed when the third arrives. Proved equal to the eager fold.
 */
module BeaconLazy {
  import opened Reservoir
  import opened BeaconSpec

  function Plain(b: Track, r: Rec): (t: Track)
    requires RingOk(b.ring, b.head)
    ensures RingOk(t.ring, t.head) && t.sni == b.sni
  {
    AddTimed(b, r.ts).(chanRecs := AddChan(b.chanRecs, r))
  }

  /** The earliest timestamp so far, with the connection and protocol it came from. */
  datatype Origin = Origin(ts: real, uid: string, proto: string)

  function OriginOf(r: Rec): Origin {
    Origin(r.ts, r.uid, r.proto)
  }

  /** An earlier record takes over; what it leaves blank stays. */
  function Earlier(o: Origin, e: Rec): Origin {
    if e.ts > 0.0 && (o.ts == 0.0 || e.ts < o.ts) then
      Origin(e.ts, if e.uid != "" then e.uid else o.uid, if e.proto != "" then e.proto else o.proto)
    else o
  }

  function EarliestOf(o: Origin, recs: seq<Rec>): Origin {
    if recs == [] then o else Earlier(EarliestOf(o, recs[..|recs| - 1]), recs[|recs| - 1])
  }

  /**
   The origin kept after a replay is that of a record with the earliest positive timestamp,
   and carries that record's connection and protocol wherever they are known.
   */
  lemma {:induction false} OriginIsEarliest(r: Rec, recs: seq<Rec>) returns (i: nat)
    requires r.ts >= 0.0
    ensures var all, o := [r] + recs, EarliestOf(OriginOf(r), recs);
      && i < |all| && o.ts == all[i].ts
      && (forall j :: 0 <= j < |all| && all[j].ts > 0.0 ==> 0.0 < o.ts <= all[j].ts)
      && (all[i].uid != "" ==> o.uid == all[i].uid) && (all[i].proto != "" ==> o.proto == all[i].proto)
  {
    i := 0;
    if recs != [] {
      var init, e := recs[..|recs| - 1], recs[|recs| - 1];
      i := OriginIsEarliest(r, init);
      assert forall j :: 0 <= j < |init| + 1 ==> ([r] + recs)[j] == ([r] + init)[j];
      var o := EarliestOf(OriginOf(r), init);
      if e.ts > 0.0 && (o.ts == 0.0 || e.ts < o.ts) {
        i := |recs|;
      }
    }
  }

  class BeaconState {
    const dice: Dice
    var lastTs: real
    var ivs: seq<real>
    var ivsSeen: nat
    var byteVals: seq<real>
    var byteSeen: nat
    var origSum: real
    var respSum: real
    var tsData: seq<(real, real, real)>
    var tsSeen: nat
    var hourMap: map<int, nat>
    var minTs: real
    var maxTs: real
    var firstTs: real
    var firstProto: string
    var firstUid: string
    var portStats: map<int, PortStat>
    var sniCandidates: seq<string>
    var spectralTs: seq<real>
    var spectralHead: nat
    var chanRecs: seq<ChanRec>

    ghost function Sampled(): Samples
      reads this
    {
      Samples(lastTs, ivs, ivsSeen, byteVals, byteSeen, tsData, tsSeen)
    }

    ghost function Tracked(): Track
      reads this
    {
      Track(hourMap, spectralTs, spectralHead, chanRecs, sniCandidates)
    }

    ghost function Summed(): Totals
      reads this
    {
      Totals(origSum, respSum, portStats, minTs, maxTs)
    }

    ghost function Value(): Beacon
      reads this
    {
      Beacon(Sampled(), Tracked(), Summed())
    }

    ghost function First(): Origin
      reads this
    {
      Origin(firstTs, firstUid, firstProto)
    }

    ghost predicate Ok()
      reads this
    {
      Valid(Value()) && minTs >= 0.0 && maxTs >= 0.0
    }

    /** The fields of the state as the third record finds it: only its own timestamp is in it. */
    constructor (dice: Dice, r: Rec)
      ensures this.dice == dice && Ok()
      ensures Value() == EMPTY.(totals := EMPTY.totals.(minTs := r.ts, maxTs := r.ts))
      ensures First() == OriginOf(r)
    {
      this.dice := dice;
      lastTs, ivs, ivsSeen, byteVals, byteSeen := 0.0, [], 0, [], 0;
      origSum, respSum, tsData, tsSeen, hourMap := 0.0, 0.0, [], 0, map[];
      minTs, maxTs, firstTs, firstProto, firstUid := r.ts, r.ts, r.ts, r.proto, r.uid;
      portStats, sniCandidates, spectralTs, spectralHead, chanRecs := map[], [], [], 0, [];
    }

    method AddPort(r: Rec)
      modifies `origSum, `respSum, `portStats
      ensures origSum == old(origSum) + r.origB && respSum == old(respSum) + r.respB
      ensures portStats == AddPortStat(old(portStats), r)
    {
      origSum := origSum + r.origB;
      respSum := respSum + r.respB;
      var ps := if r.port in portStats then portStats[r.port] else PortStat(0, 0.0, 0.0, 0.0);
      ps := ps.(conns := ps.conns + 1, bytes := ps.bytes + (r.origB + r.respB));
      if r.ts > 0.0 {
        if ps.firstTs == 0.0 || r.ts < ps.firstTs {
          ps := ps.(firstTs := r.ts);
        }
        if r.ts > ps.lastTs {
          ps := ps.(lastTs := r.ts);
        }
      }
      portStats := portStats[r.port := ps];
    }

    method AddChanRec(r: Rec)
      modifies `chanRecs
      ensures chanRecs == AddChan(old(chanRecs), r)
    {
      if r.uid == "" || r.ts <= 0.0 || |chanRecs| >= CHAN_CAP {
        return;
      }
      chanRecs := chanRecs + [ChanRec(r.uid, r.ts, r.origB)];
    }

    method AppendSpectralRing(ts: real)
      requires RingOk(spectralTs, spectralHead)
      modifies `spectralTs, `spectralHead
      ensures (spectralTs, spectralHead) == AddRing(old(spectralTs), old(spectralHead), ts)
    {
      if |spectralTs| < RING_CAP {
        spectralTs := spectralTs + [ts];
      } else {
        spectralTs := spectralTs[spectralHead := ts];
        spectralHead := (spectralHead + 1) % RING_CAP;
      }
    }

    method TakeInterval(ts: real)
      requires |ivs| <= IV_CAP
      modifies `lastTs, `ivs, `ivsSeen
      ensures Sampled() == AddInterval(dice, old(Sampled()), ts) && |ivs| <= IV_CAP
    {
      hide Added; hide Pick;
      if ts > lastTs {
        if lastTs > 0.0 {
          ivs, ivsSeen := ReservoirAdd(ivs, ivsSeen, ts - lastTs, IV_CAP, Pick(dice.iv, ivsSeen));
        }
        lastTs := ts;
      }
    }

    method TakeSizes(r: Rec)
      requires |byteVals| <= BYTE_CAP && |tsData| <= TS_CAP
      modifies `byteVals, `byteSeen, `tsData, `tsSeen
      ensures Sampled() == AddTriple(dice, AddBytes(dice, old(Sampled()), r), r)
      ensures |byteVals| <= BYTE_CAP && |tsData| <= TS_CAP
    {
      hide Added; hide Pick;
      if r.origB > 0.0 {
        byteVals, byteSeen := ReservoirAdd(byteVals, byteSeen, r.origB, BYTE_CAP, Pick(dice.bytes, byteSeen));
      }
      if r.ts > 0.0 {
        tsData, tsSeen := ReservoirAdd(tsData, tsSeen, (r.ts, r.origB, r.respB), TS_CAP, Pick(dice.ts, tsSeen));
      }
    }

    /** Intervals, sizes, chart triples, hours and the ring: the part both paths share. */
    method Sampling(r: Rec)
      requires Capped(Sampled()) && RingOk(spectralTs, spectralHead)
      modifies `lastTs, `ivs, `ivsSeen, `byteVals, `byteSeen, `tsData, `tsSeen, `hourMap, `spectralTs, `spectralHead
      ensures Sampled() == AddSamples(dice, old(Sampled()), r) && Capped(Sampled())
      ensures Tracked() == AddTimed(old(Tracked()), r.ts) && RingOk(spectralTs, spectralHead)
    {
      hide AddInterval; hide AddBytes; hide AddTriple; hide AddRing;
      TakeInterval(r.ts);
      TakeSizes(r);
      if r.ts > 0.0 {
        hourMap := AddHour(hourMap, r.ts);
        AppendSpectralRing(r.ts);
      }
    }

    /** Back-fills one stashed record. */
    method Replay(e: Rec)
      requires Ok()
      modifies this
      ensures Ok()
      ensures Sampled() == AddSamples(dice, old(Sampled()), e)
      ensures Tracked() == Plain(old(Tracked()), e)
      ensures Summed() == AddTotals(old(Summed()), e)
      ensures First() == Earlier(old(First()), e)
    {
      hide AddSamples; hide AddTimed; hide AddPortStat; hide AddChan; hide Capped; hide RingOk;
      AddPort(e);
      KeepFirst(e);
      Extremes(e.ts);
      Sampling(e);
      AddChanRec(e);
    }

    /** The first timestamp of the replay window, with the connection it came from. */
    method KeepFirst(e: Rec)
      modifies `firstTs, `firstUid, `firstProto
      ensures First() == Earlier(old(First()), e)
    {
      if e.ts > 0.0 {
        if firstTs == 0.0 || e.ts < firstTs {
          firstTs := e.ts;
          if e.uid != "" {
            firstUid := e.uid;
          }
          if e.proto != "" {
            firstProto := e.proto;
          }
        }
      }
    }

    /** Earliest positive and latest timestamp. */
    method Extremes(ts: real)
      requires ts >= 0.0 && minTs >= 0.0 && maxTs >= 0.0
      modifies `minTs, `maxTs
      ensures minTs == Lower(old(minTs), ts) >= 0.0 && maxTs == Higher(old(maxTs), ts) >= 0.0
    {
      if ts > 0.0 && (minTs == 0.0 || ts < minTs) {
        minTs := ts;
      }
      if ts > maxTs {
        maxTs := ts;
      }
    }

    /** A record that arrives when the state is there; the promoting one has its SNI candidate in already. */
    method Live(r: Rec, wasNew: bool)
      requires Ok()
      modifies this
      ensures Ok() && First() == old(First())
      ensures Sampled() == AddSamples(dice, old(Sampled()), r)
      ensures Tracked() == if wasNew then Plain(old(Tracked()), r) else AddTrack(old(Tracked()), r)
      ensures Summed() == AddTotals(old(Summed()), r)
    {
      hide AddSamples; hide AddTimed; hide AddPortStat; hide AddChan; hide Capped; hide RingOk;
      Extremes(r.ts);
      Sampling(r);
      AddPort(r);
      AddChanRec(r);
      if !wasNew {
        TakeSni(r.uid);
      }
    }

    method TakeSni(uid: string)
      modifies `sniCandidates
      ensures sniCandidates == AddSni(old(sniCandidates), uid)
    {
      if uid != "" && |sniCandidates| < SNI_CAP {
        sniCandidates := sniCandidates + [uid];
      }
    }

    method CollectSni(stash: seq<Rec>)
      requires sniCandidates == [] && |stash| < LAZY_MIN
      modifies `sniCandidates
      ensures sniCandidates == Eager(dice, stash).track.sni && |sniCandidates| <= |stash|
    {
      hide Eager; hide AddSamples; hide AddTimed; hide AddPortStat; hide AddChan;
      EmptyReplayed(dice, 0.0);
      for i := 0 to |stash|
        invariant sniCandidates == Eager(dice, stash[..i]).track.sni && |sniCandidates| <= i
      {
        assert stash[..i + 1] == stash[..i] + [stash[i]];
        EagerSnoc(dice, stash[..i], stash[i]);
        if stash[i].uid != "" {
          sniCandidates := sniCandidates + [stash[i].uid];
        }
      }
      assert stash[..|stash|] == stash;
    }

    /** The promotion: stashed records replayed, SNI candidates collected, the record itself added. */
    method Promote(stash: seq<Rec>, r: Rec)
      requires Ok() && |stash| < LAZY_MIN
      requires Value() == EMPTY.(totals := EMPTY.totals.(minTs := r.ts, maxTs := r.ts)) && First() == OriginOf(r)
      modifies this
      ensures Ok() && Value() == Eager(dice, stash + [r])
      ensures First() == EarliestOf(OriginOf(r), stash) && firstTs == minTs
    {
      hide AddSamples; hide AddTimed; hide AddPortStat; hide AddChan; hide Capped; hide RingOk; hide Eager;
      EmptyReplayed(dice, r.ts);
      for i := 0 to |stash|
        invariant Ok() && firstTs == minTs && sniCandidates == []
        invariant First() == EarliestOf(OriginOf(r), stash[..i])
        invariant Replayed(Value(), dice, stash[..i], r.ts)
      {
        assert stash[..i + 1] == stash[..i] + [stash[i]];
        ReplayOne(Value(), dice, stash[..i], r.ts, stash[i]);
        Replay(stash[i]);
      }
      assert stash[..|stash|] == stash;
      CollectSni(stash);
      if r.uid != "" {
        sniCandidates := sniCandidates + [r.uid];
      }
      PromoteLast(Value(), dice, stash, r);
      Live(r, true);
    }
  }

  // ---- Why the replay order does not matter ----

  /** The seed of the minimum is the promoting record's own timestamp. */
  function LowerAll(seed: real, recs: seq<Rec>): real {
    if recs == [] then seed else Lower(LowerAll(seed, recs[..|recs| - 1]), recs[|recs| - 1].ts)
  }

  function HigherAll(seed: real, recs: seq<Rec>): real {
    if recs == [] then seed else Higher(HigherAll(seed, recs[..|recs| - 1]), recs[|recs| - 1].ts)
  }

  /** A state into which `done` has been replayed agrees with the fold, but for its seeds and SNI list. */
  ghost predicate Replayed(b: Beacon, d: Dice, done: seq<Rec>, seed: real) {
    var e := Eager(d, done);
    && b.samples == e.samples
    && b.track == e.track.(sni := b.track.sni)
    && b.totals == e.totals.(minTs := LowerAll(seed, done), maxTs := HigherAll(seed, done))
  }

  lemma EmptyReplayed(d: Dice, seed: real)
    ensures Replayed(EMPTY.(totals := EMPTY.totals.(minTs := seed, maxTs := seed)), d, [], seed)
    ensures Eager(d, []).track.sni == []
  {
  }

  lemma ReplayOne(b: Beacon, d: Dice, done: seq<Rec>, seed: real, r: Rec)
    requires Valid(b) && Replayed(b, d, done, seed)
    ensures Replayed(Beacon(AddSamples(d, b.samples, r), Plain(b.track, r), AddTotals(b.totals, r)), d, done + [r], seed)
  {
    hide AddSamples; hide AddPortStat; hide AddChan; hide AddRing;
    EagerSnoc(d, done, r);
    assert (done + [r])[..|done|] == done;
  }

  /** Seeding the extremes with a record that is added later changes nothing in the end. */
  lemma {:induction false} SeedAbsorbed(seed: real, recs: seq<Rec>)
    requires seed >= 0.0
    ensures Lower(LowerAll(seed, recs), seed) == Lower(LowerAll(0.0, recs), seed) >= 0.0
    ensures Higher(HigherAll(seed, recs), seed) == Higher(HigherAll(0.0, recs), seed)
    ensures LowerAll(seed, recs) == Lower(LowerAll(seed, recs), seed)
    ensures LowerAll(0.0, recs) >= 0.0 && LowerAll(seed, recs) >= 0.0
  {
    if recs != [] {
      SeedAbsorbed(seed, recs[..|recs| - 1]);
    }
  }

  lemma {:induction false} EagerExtremes(d: Dice, recs: seq<Rec>)
    ensures Eager(d, recs).totals.minTs == LowerAll(0.0, recs)
    ensures Eager(d, recs).totals.maxTs == HigherAll(0.0, recs)
  {
    if recs != [] {
      EagerExtremes(d, recs[..|recs| - 1]);
    }
  }

  lemma PromoteLast(b: Beacon, d: Dice, stash: seq<Rec>, r: Rec)
    requires Valid(b) && Replayed(b, d, stash, r.ts) && |Eager(d, stash).track.sni| < SNI_CAP
    requires b.track.sni == AddSni(Eager(d, stash).track.sni, r.uid)
    ensures Beacon(AddSamples(d, b.samples, r), Plain(b.track, r), AddTotals(b.totals, r)) == Eager(d, stash + [r])
    ensures AddTotals(b.totals, r).minTs == b.totals.minTs
  {
    hide AddSamples; hide AddPortStat; hide AddChan; hide AddRing;
    EagerSnoc(d, stash, r);
    SeedAbsorbed(r.ts, stash);
    EagerExtremes(d, stash);
  }

  // ---- All pairs of a capture ----

  datatype PairKey = PairKey(sensor: string, src: string, dst: string)

  function Get(m: map<PairKey, seq<Rec>>, k: PairKey): seq<Rec> {
    if k in m then m[k] else []
  }

  /** Only the first records of a pair can be missing from what was kept. */
  predicate IsSuffix(part: seq<Rec>, whole: seq<Rec>) {
    |part| <= |whole| && whole[|whole| - |part|..] == part
  }

  /** The books' entry for one pair. */
  datatype Pair = Pair(count: nat, stashed: bool, early: seq<Rec>, seen: seq<Rec>, kept: seq<Rec>)
  {
    predicate Ok(live: bool) {
      && count == |seen| && IsSuffix(kept, seen)
      && if count < LAZY_MIN then !live && early == kept && |kept| < LAZY_MIN else live && !stashed
    }

    predicate Blank() {
      this == Pair(0, false, [], [], [])
    }
  }

  /** What is known of the records so far: all of a pair's, and those the capped stash did not refuse. */
  datatype Books = Books(counts: map<PairKey, nat>, stash: map<PairKey, seq<Rec>>,
                         seen: map<PairKey, seq<Rec>>, kept: map<PairKey, seq<Rec>>)
  {
    function Entry(k: PairKey): Pair {
      Pair(if k in counts then counts[k] else 0, k in stash, Get(stash, k), Get(seen, k), Get(kept, k))
    }

    ghost predicate Balanced(live: set<PairKey>) {
      && (forall k :: k in counts ==> Entry(k).Ok(k in live))
      && (forall k :: k !in counts ==> Entry(k).Blank() && k !in live)
    }

    /** Whether the stash, of limited size, takes an early record of this pair. */
    predicate Admits(cap: nat, k: PairKey) {
      k in stash || |stash| < cap
    }

    function Early(cap: nat, k: PairKey, r: Rec): Books {
      var taken := if Admits(cap, k) then [r] else [];
      Books(counts[k := 1 + if k in counts then counts[k] else 0],
            if Admits(cap, k) then stash[k := Get(stash, k) + [r]] else stash,
            seen[k := Get(seen, k) + [r]], kept[k := Get(kept, k) + taken])
    }

    /** The first two records of a pair are early, the third and all later ones are not. */
    function Noted(cap: nat, k: PairKey, r: Rec): Books {
      if |Get(seen, k)| + 1 < LAZY_MIN then Early(cap, k, r) else Later(k, r)
    }

    function Later(k: PairKey, r: Rec): Books {
      Books(counts[k := 1 + if k in counts then counts[k] else 0], stash - {k},
            seen[k := Get(seen, k) + [r]], kept[k := Get(kept, k) + [r]])
    }
  }

  /** The entries of all pairs but one are the same. */
  ghost predicate SameElsewhere(b: Books, b': Books, k: PairKey) {
    forall l :: l != k ==> b'.Entry(l) == b.Entry(l)
  }

  /** The pairs with a state are the same but for one. */
  ghost predicate SameLive(live: set<PairKey>, live': set<PairKey>, k: PairKey) {
    forall l :: l != k ==> (l in live' <==> l in live)
  }

  lemma OneMoreLive(live: set<PairKey>, k: PairKey)
    ensures SameLive(live, live, k) && SameLive(live, live + {k}, k)
  {
  }

  lemma EntryOk(b: Books, live: set<PairKey>, k: PairKey)
    requires b.Balanced(live)
    ensures b.Entry(k).Ok(k in live) || (b.Entry(k).Blank() && k !in live)
  {
    hide Pair.Ok; hide Pair.Blank; hide Books.Entry;
  }

  lemma EarlyBalanced(b: Books, live: set<PairKey>, cap: nat, k: PairKey, r: Rec)
    requires b.Balanced(live) && |Get(b.seen, k)| + 1 < LAZY_MIN && |b.stash| <= cap
    ensures b.Early(cap, k, r).Balanced(live) && |b.Early(cap, k, r).stash| <= cap && k !in live
    ensures forall l :: l != k ==> Get(b.Early(cap, k, r).kept, l) == Get(b.kept, l)
  {
    hide Pair.Ok; hide Pair.Blank; hide Books.Early; hide Books.Entry; hide Books.Balanced; hide SameElsewhere; hide Get;
    hide SameLive;
    OneMoreLive(live, k);
    var b' := b.Early(cap, k, r);
    EntryOk(b, live, k);
    EarlyEntries(b, cap, k, r);
    EntryEarly(b.Entry(k), b'.Entry(k), k in live, r);
    OneEntryChanged(b, b', live, live, k);
  }

  lemma EarlyEntries(b: Books, cap: nat, k: PairKey, r: Rec)
    requires |b.stash| <= cap
    ensures var b' := b.Early(cap, k, r); var p, p' := b.Entry(k), b'.Entry(k);
      && SameElsewhere(b, b', k) && b'.counts.Keys == b.counts.Keys + {k}
      && |b'.stash| <= cap && p.seen == Get(b.seen, k)
      && (forall l :: l != k ==> Get(b'.kept, l) == Get(b.kept, l))
      && p'.count == p.count + 1 && p'.seen == p.seen + [r]
      && if p'.stashed then p'.early == p.early + [r] && p'.kept == p.kept + [r]
         else !p.stashed && p'.early == p.early == [] && p'.kept == p.kept + []
  {
    hide Books.Entry; hide Get;
    EarlyOwn(b, cap, k, r);
    forall l | l != k
      ensures b.Early(cap, k, r).Entry(l) == b.Entry(l) && Get(b.Early(cap, k, r).kept, l) == Get(b.kept, l)
    {
      EarlyOther(b, cap, k, l, r);
    }
  }

  lemma EarlyOther(b: Books, cap: nat, k: PairKey, l: PairKey, r: Rec)
    requires l != k
    ensures b.Early(cap, k, r).Entry(l) == b.Entry(l) && Get(b.Early(cap, k, r).kept, l) == Get(b.kept, l)
  {
  }

  lemma EarlyOwn(b: Books, cap: nat, k: PairKey, r: Rec)
    requires |b.stash| <= cap
    ensures var b' := b.Early(cap, k, r); var p, p' := b.Entry(k), b'.Entry(k);
      && b'.counts.Keys == b.counts.Keys + {k} && |b'.stash| <= cap && p.seen == Get(b.seen, k)
      && p'.count == p.count + 1 && p'.seen == p.seen + [r]
      && if p'.stashed then p'.early == p.early + [r] && p'.kept == p.kept + [r]
         else !p.stashed && p'.early == p.early == [] && p'.kept == p.kept + []
  {
    var b' := b.Early(cap, k, r);
    if b.Admits(cap, k) {
      StashSize(b.stash, k, Get(b.stash, k) + [r]);
    }
  }

  lemma StashSize(stash: map<PairKey, seq<Rec>>, k: PairKey, rs: seq<Rec>)
    ensures |stash[k := rs]| == |stash| + if k in stash then 0 else 1
  {
    var more := stash[k := rs];
    assert more.Keys == stash.Keys + {k};
    assert |more| == |more.Keys| && |stash| == |stash.Keys|;
  }

  /** Changing the entry of one pair keeps the others balanced. */
  lemma OneEntryChanged(b: Books, b': Books, live: set<PairKey>, live': set<PairKey>, k: PairKey)
    requires b.Balanced(live) && b'.counts.Keys == b.counts.Keys + {k} && SameLive(live, live', k)
    requires SameElsewhere(b, b', k)
    requires b'.Entry(k).Ok(k in live')
    ensures b'.Balanced(live')
  {
    hide Pair.Ok; hide Pair.Blank; hide Books.Entry;
    forall l ensures l in b'.counts ==> b'.Entry(l).Ok(l in live')
      ensures l !in b'.counts ==> b'.Entry(l).Blank() && l !in live'
    {
      if l != k {
        assert b'.Entry(l) == b.Entry(l);
      }
    }
  }

  lemma EntryEarly(p: Pair, p': Pair, live: bool, r: Rec)
    requires p.Ok(live) || (p.Blank() && !live)
    requires |p.seen| + 1 < LAZY_MIN
    requires p'.count == p.count + 1 && p'.seen == p.seen + [r]
    requires if p'.stashed then p'.early == p.early + [r] && p'.kept == p.kept + [r]
             else !p.stashed && p'.early == p.early == [] && p'.kept == p.kept + []
    ensures p'.Ok(live) && !live
  {
    SuffixGrows(p.kept, p.seen, r);
  }

  lemma LaterBalanced(b: Books, live: set<PairKey>, k: PairKey, r: Rec)
    requires b.Balanced(live) && |Get(b.seen, k)| + 1 >= LAZY_MIN
    ensures b.Later(k, r).Balanced(live + {k}) && |b.Later(k, r).stash| <= |b.stash|
    ensures k !in live ==> Get(b.stash, k) == Get(b.kept, k) && |Get(b.stash, k)| < LAZY_MIN
  {
    hide Pair.Ok; hide Pair.Blank; hide Books.Later; hide Books.Entry; hide Books.Balanced; hide SameElsewhere; hide Get; hide SameLive;
    OneMoreLive(live, k);
    var b' := b.Later(k, r);
    EntryOk(b, live, k);
    LaterEntries(b, k, r);
    EntryLater(b.Entry(k), b'.Entry(k), k in live, r);
    OneEntryChanged(b, b', live, live + {k}, k);
  }

  lemma LaterEntries(b: Books, k: PairKey, r: Rec)
    ensures var b' := b.Later(k, r); var p := b.Entry(k);
      && SameElsewhere(b, b', k) && b'.counts.Keys == b.counts.Keys + {k}
      && |b'.stash| <= |b.stash| && p.seen == Get(b.seen, k) && p.early == Get(b.stash, k) && p.kept == Get(b.kept, k)
      && b'.Entry(k) == Pair(p.count + 1, false, [], p.seen + [r], p.kept + [r])
  {
    hide Books.Entry; hide Get;
    FewerKeys(b.stash, k);
    LaterOwn(b, k, r);
    forall l | l != k ensures b.Later(k, r).Entry(l) == b.Entry(l) {
      LaterOther(b, k, l, r);
    }
  }

  lemma LaterOwn(b: Books, k: PairKey, r: Rec)
    ensures var p := b.Entry(k);
      && b.Later(k, r).Entry(k) == Pair(p.count + 1, false, [], p.seen + [r], p.kept + [r])
      && p.seen == Get(b.seen, k) && p.early == Get(b.stash, k) && p.kept == Get(b.kept, k)
  {
  }

  lemma LaterOther(b: Books, k: PairKey, l: PairKey, r: Rec)
    requires l != k
    ensures b.Later(k, r).Entry(l) == b.Entry(l)
  {
  }

  lemma LaterKept(b: Books, k: PairKey, r: Rec)
    ensures b.Later(k, r).kept == b.kept[k := Get(b.kept, k) + [r]]
  {
  }

  lemma EntryLater(p: Pair, p': Pair, live: bool, r: Rec)
    requires p.Ok(live) || (p.Blank() && !live)
    requires |p.seen| + 1 >= LAZY_MIN
    requires p' == Pair(p.count + 1, false, [], p.seen + [r], p.kept + [r])
    ensures p'.Ok(true)
    ensures !live ==> p.early == p.kept && |p.early| < LAZY_MIN
    ensures live ==> !p.stashed
  {
    SuffixGrows(p.kept, p.seen, r);
  }

  lemma FewerKeys(m: map<PairKey, seq<Rec>>, k: PairKey)
    ensures |m - {k}| <= |m|
  {
    assert (m - {k}).Keys == m.Keys - {k};
  }

  lemma CountsSeen(b: Books, live: set<PairKey>, k: PairKey)
    requires b.Balanced(live)
    ensures |Get(b.seen, k)| == if k in b.counts then b.counts[k] else 0
  {
    assert k in b.counts ==> b.Entry(k).Ok(k in live);
    assert k !in b.counts ==> b.Entry(k).Blank();
  }

  // ---- What a whole run keeps ----

  /** The books after a run over the records of all pairs, in order of arrival. */
  function BooksOf(cap: nat, log: seq<(PairKey, Rec)>): Books {
    if log == [] then Books(map[], map[], map[], map[])
    else BooksOf(cap, log[..|log| - 1]).Noted(cap, log[|log| - 1].0, log[|log| - 1].1)
  }

  /** The records of one pair. */
  function OfPair(log: seq<(PairKey, Rec)>, k: PairKey): seq<Rec> {
    if log == [] then []
    else OfPair(log[..|log| - 1], k) + if log[|log| - 1].0 == k then [log[|log| - 1].1] else []
  }

  function PairsOf(log: seq<(PairKey, Rec)>): set<PairKey> {
    set i | 0 <= i < |log| :: log[i].0
  }

  /**
   A record is refused only when it is one of its pair's first two, none of the pair is
   stashed and the stash is full; every other record is kept, and nothing else changes.
   */
  lemma KeptUnlessFull(b: Books, cap: nat, k: PairKey, r: Rec)
    ensures var b' := b.Noted(cap, k, r);
      && Get(b'.kept, k) == Get(b.kept, k) + (if |Get(b.seen, k)| < 2 && k !in b.stash && |b.stash| >= cap then [] else [r])
      && Get(b'.seen, k) == Get(b.seen, k) + [r]
      && forall l :: l != k ==> Get(b'.kept, l) == Get(b.kept, l) && Get(b'.seen, l) == Get(b.seen, l)
  {
  }

  lemma StashGrows(b: Books, cap: nat, k: PairKey, r: Rec)
    ensures b.Noted(cap, k, r).stash.Keys <= b.stash.Keys + {k}
  {
  }

  lemma PairsSnoc(log: seq<(PairKey, Rec)>)
    requires log != []
    ensures PairsOf(log) == PairsOf(log[..|log| - 1]) + {log[|log| - 1].0}
  {
    var init := log[..|log| - 1];
    assert forall i :: 0 <= i < |init| ==> log[i] == init[i];
    assert log[|log| - 1].0 in PairsOf(log);
  }

  /** Everything that arrives is seen, and only pairs that arrived are stashed. */
  lemma {:induction false} SeenIsOfPair(cap: nat, log: seq<(PairKey, Rec)>, k: PairKey)
    ensures Get(BooksOf(cap, log).seen, k) == OfPair(log, k)
    ensures BooksOf(cap, log).stash.Keys <= PairsOf(log)
  {
    hide Books.Noted; hide Get; hide PairsOf;
    if log == [] {
      NothingSeen(cap, k);
    } else {
      var init := log[..|log| - 1];
      var (l, r) := log[|log| - 1];
      SeenIsOfPair(cap, init, k);
      SeenIsOfPair(cap, init, l);
      KeptUnlessFull(BooksOf(cap, init), cap, l, r);
      StashGrows(BooksOf(cap, init), cap, l, r);
      PairsSnoc(log);
      assert OfPair(init, k) + [] == OfPair(init, k);
    }
  }

  lemma NothingSeen(cap: nat, k: PairKey)
    ensures Get(BooksOf(cap, []).seen, k) == Get(BooksOf(cap, []).kept, k) == [] && BooksOf(cap, []).stash.Keys == {}
  {
  }

  lemma BooksSnoc(cap: nat, log: seq<(PairKey, Rec)>, k: PairKey, r: Rec)
    ensures BooksOf(cap, log + [(k, r)]) == BooksOf(cap, log).Noted(cap, k, r)
  {
    assert (log + [(k, r)])[..|log|] == log;
  }

  /** Whatever the cap, all but the first two records of a pair are kept. */
  lemma {:induction false} KeptAllButTwo(cap: nat, log: seq<(PairKey, Rec)>, k: PairKey)
    ensures |Get(BooksOf(cap, log).kept, k)| <= |OfPair(log, k)| <= |Get(BooksOf(cap, log).kept, k)| + 2
  {
    hide Books.Noted; hide Get;
    if log == [] {
      NothingSeen(cap, k);
    } else {
      var init := log[..|log| - 1];
      var (l, r) := log[|log| - 1];
      KeptAllButTwo(cap, init, k);
      SeenIsOfPair(cap, init, l);
      KeptUnlessFull(BooksOf(cap, init), cap, l, r);
      assert OfPair(init, k) + [] == OfPair(init, k);
    }
  }

  /** While the capture has no more pairs than the stash has room for, no record is lost. */
  lemma {:induction false} NoneRefused(cap: nat, log: seq<(PairKey, Rec)>, k: PairKey)
    requires |PairsOf(log)| <= cap
    ensures Get(BooksOf(cap, log).kept, k) == OfPair(log, k)
  {
    hide Books.Noted; hide Get; hide PairsOf;
    if log == [] {
      NothingSeen(cap, k);
    } else {
      var init := log[..|log| - 1];
      var (l, r) := log[|log| - 1];
      PairsSnoc(log);
      FewerPairs(PairsOf(init), PairsOf(log), cap);
      NoneRefused(cap, init, k);
      SeenIsOfPair(cap, init, l);
      KeptUnlessFull(BooksOf(cap, init), cap, l, r);
      RoomLeft(BooksOf(cap, init).stash, PairsOf(log), l, cap);
      assert OfPair(init, k) + [] == OfPair(init, k);
    }
  }

  lemma FewerPairs(a: set<PairKey>, b: set<PairKey>, cap: nat)
    requires a <= b && |b| <= cap
    ensures |a| <= cap
  {
    assert b == a + (b - a);
  }

  lemma RoomLeft(stash: map<PairKey, seq<Rec>>, pairs: set<PairKey>, k: PairKey, cap: nat)
    requires stash.Keys <= pairs && k in pairs && |pairs| <= cap
    ensures k in stash || |stash| < cap
  {
    if k !in stash {
      FewerPairs(stash.Keys, pairs - {k}, |pairs| - 1);
      assert |stash| == |stash.Keys|;
    }
  }

  ghost predicate Holds(b: BeaconState, d: Dice, recs: seq<Rec>)
    reads b
  {
    b.dice == d && b.Ok() && b.Value() == Eager(d, recs)
  }

  method NewState(d: Dice, early: seq<Rec>, r: Rec) returns (b: BeaconState)
    requires |early| < LAZY_MIN
    ensures fresh(b) && Holds(b, d, early + [r]) && b.firstTs == b.minTs
  {
    b := new BeaconState(d, r);
    b.Promote(early, r);
  }

  method UpdateState(b: BeaconState, ghost d: Dice, ghost recs: seq<Rec>, r: Rec)
    requires Holds(b, d, recs)
    modifies b
    ensures Holds(b, d, recs + [r]) && b.firstTs == old(b.firstTs)
  {
    hide Eager; hide BeaconSpec.Valid;
    LiveIsNext(d, recs, r);
    b.Live(r, false);
  }

  class ConnBeacons {
    const stashCap: nat
    const dice: PairKey -> Dice
    var counts: map<PairKey, nat>
    var stash: map<PairKey, seq<Rec>>
    var beacons: map<PairKey, BeaconState>
    ghost var seen: map<PairKey, seq<Rec>>
    ghost var kept: map<PairKey, seq<Rec>>
    /** Every record observed so far, with its pair. */
    ghost var log: seq<(PairKey, Rec)>

    ghost function Ledger(): Books
      reads `counts, `stash, `seen, `kept
    {
      Books(counts, stash, seen, kept)
    }

    ghost predicate Valid()
      reads this, beacons.Values
    {
      && Ledger().Balanced(beacons.Keys) && |stash| <= stashCap
      && Ledger() == BooksOf(stashCap, log) && StatesHold(kept)
    }

    constructor (stashCap: nat, dice: PairKey -> Dice)
      ensures this.stashCap == stashCap && this.dice == dice
      ensures Valid() && log == []
    {
      this.stashCap, this.dice := stashCap, dice;
      counts, stash, beacons, seen, kept, log := map[], map[], map[], map[], map[], [];
    }

    /** One record: each pair's state afterwards is the eager fold over everything kept of it. */
    method Observe(k: PairKey, r: Rec)
      requires Valid()
      modifies this, beacons.Values
      ensures Valid()
      ensures beacons == old(beacons) ||
        (k !in old(beacons) && k in beacons && fresh(beacons[k]) && beacons == old(beacons)[k := beacons[k]])
      ensures log == old(log) + [(k, r)]
    {
      hide Books.Balanced; hide StatesHold; hide Get; hide Books.Early; hide Books.Later;
      CountsSeen(Ledger(), beacons.Keys, k);
      if (if k in counts then counts[k] + 1 else 1) < LAZY_MIN {
        StashEarly(k, r);
      } else {
        AddLater(k, r);
      }
    }

    /** Every state is the fold over what was kept of its pair, and of a capture that fits the stash over all of it. */
    lemma StatesAreFolds()
      requires Valid()
      ensures forall k :: k in beacons <==> |OfPair(log, k)| >= 3
      ensures forall k :: k in beacons ==>
        && IsSuffix(Get(kept, k), OfPair(log, k)) && |OfPair(log, k)| - |Get(kept, k)| <= 2
        && Holds(beacons[k], dice(k), Get(kept, k))
        && (|PairsOf(log)| <= stashCap ==> Holds(beacons[k], dice(k), OfPair(log, k)))
    {
      hide Holds; hide Get; hide BooksOf; hide PairsOf;
      forall k
        ensures k in beacons <==> |OfPair(log, k)| >= 3
        ensures k in beacons ==> IsSuffix(Get(kept, k), OfPair(log, k)) && |OfPair(log, k)| - |Get(kept, k)| <= 2
        ensures k in beacons && |PairsOf(log)| <= stashCap ==> Get(kept, k) == OfPair(log, k)
      {
        SeenIsOfPair(stashCap, log, k);
        KeptAllButTwo(stashCap, log, k);
        CountsSeen(Ledger(), beacons.Keys, k);
        assert k in counts ==> Ledger().Entry(k).Ok(k in beacons);
        if |PairsOf(log)| <= stashCap {
          NoneRefused(stashCap, log, k);
        }
      }
    }

    /** One of the first two records of a pair. */
    method StashEarly(k: PairKey, r: Rec)
      requires Valid() && |Get(seen, k)| + 1 < LAZY_MIN
      modifies `counts, `stash, `seen, `kept, `log
      ensures Valid() && log == old(log) + [(k, r)]
    {
      hide Books.Balanced; hide StatesHold; hide Get; hide Books.Early;
      BooksSnoc(stashCap, log, k, r);
      EarlyBalanced(Ledger(), beacons.Keys, stashCap, k, r);
      OthersHold(k, Ledger().Early(stashCap, k, r).kept);
      EnterEarly(k, r);
    }

    method EnterEarly(k: PairKey, r: Rec)
      modifies `counts, `seen, `kept, `stash, `log
      ensures log == old(log) + [(k, r)] && Ledger() == old(Ledger()).Early(stashCap, k, r)
    {
      log := log + [(k, r)];
      counts := counts[k := 1 + if k in counts then counts[k] else 0];
      seen := seen[k := Get(seen, k) + [r]];
      kept := kept[k := Get(kept, k) + if Admits(k) then [r] else []];
      if k in stash || |stash| < stashCap {
        stash := stash[k := Get(stash, k) + [r]];
      }
    }

    ghost predicate Admits(k: PairKey)
      reads this
    {
      k in stash || |stash| < stashCap
    }

    /** A record that finds the pair's state, or allocates it and replays the stash into it. */
    method AddLater(k: PairKey, r: Rec)
      requires Valid() && |Get(seen, k)| + 1 >= LAZY_MIN
      modifies this, beacons.Values
      ensures Valid()
      ensures beacons == old(beacons) ||
        (k !in old(beacons) && k in beacons && fresh(beacons[k]) && beacons == old(beacons)[k := beacons[k]])
      ensures log == old(log) + [(k, r)]
    {
      BooksSnoc(stashCap, log, k, r);
      hide Books.Balanced; hide StatesHold; hide Get; hide Books.Later; hide Pair.Ok; hide Pair.Blank; hide Books.Entry;
      hide Holds;
      LaterBalanced(Ledger(), beacons.Keys, k, r);
      LaterKept(Ledger(), k, r);
      var early := Get(stash, k);
      ghost var before, live := kept, beacons.Keys;
      assert forall o: object :: o in beacons.Values ==> o != this;
      Enter(k, r);
      StateLater(k, early, before, r);
      assert beacons.Keys == live + {k};
    }

    method StateLater(k: PairKey, early: seq<Rec>, ghost kept: map<PairKey, seq<Rec>>, r: Rec)
      requires StatesHold(kept)
      requires k !in beacons ==> |early| < LAZY_MIN && early == Get(kept, k)
      modifies `beacons, beacons.Values
      ensures beacons.Keys == old(beacons).Keys + {k}
      ensures beacons == old(beacons) ||
        (k !in old(beacons) && k in beacons && fresh(beacons[k]) && beacons == old(beacons)[k := beacons[k]])
      ensures StatesHold(kept[k := Get(kept, k) + [r]])
    {
      hide StatesHold; hide Get;
      if k !in beacons {
        AllocateState(k, early, kept, r);
      } else {
        AdvanceState(k, kept, r);
      }
    }

    ghost predicate StatesHold(kept: map<PairKey, seq<Rec>>)
      reads `beacons, beacons.Values
    {
      && (forall k, l :: k in beacons && l in beacons && k != l ==> beacons[k] != beacons[l])
      && (forall k :: k in beacons ==> Holds(beacons[k], dice(k), Get(kept, k)))
    }

    lemma OthersHold(k: PairKey, kept': map<PairKey, seq<Rec>>)
      requires StatesHold(kept) && k !in beacons
      requires forall l :: l != k ==> Get(kept', l) == Get(kept, l)
      ensures StatesHold(kept')
    {
      hide Holds; hide Get;
    }

    method AllocateState(k: PairKey, early: seq<Rec>, ghost kept: map<PairKey, seq<Rec>>, r: Rec)
      requires StatesHold(kept) && k !in beacons && |early| < LAZY_MIN && early == Get(kept, k)
      modifies `beacons
      ensures k in beacons && fresh(beacons[k]) && beacons == old(beacons)[k := beacons[k]]
      ensures StatesHold(kept[k := Get(kept, k) + [r]])
    {
      hide Holds; hide Get;
      GetUpdated(kept, k, Get(kept, k) + [r]);
      var st := NewState(dice(k), early, r);
      beacons := beacons[k := st];
    }

    method AdvanceState(k: PairKey, ghost kept: map<PairKey, seq<Rec>>, r: Rec)
      requires StatesHold(kept) && k in beacons
      modifies beacons[k]
      ensures StatesHold(kept[k := Get(kept, k) + [r]])
    {
      hide Holds; hide Get;
      ghost var kept' := kept[k := Get(kept, k) + [r]];
      GetUpdated(kept, k, Get(kept, k) + [r]);
      UpdateState(beacons[k], dice(k), Get(kept, k), r);
      forall l | l in beacons ensures Holds(beacons[l], dice(l), Get(kept', l)) {
        if l != k {
          assert old(Holds(beacons[l], dice(l), Get(kept, l)));
        }
      }
    }

    /** The books after a kept record; the states are untouched. */
    method Enter(k: PairKey, r: Rec)
      modifies `counts, `seen, `kept, `stash, `log
      ensures log == old(log) + [(k, r)] && Ledger() == old(Ledger()).Later(k, r)
    {
      log := log + [(k, r)];
      counts := counts[k := 1 + if k in counts then counts[k] else 0];
      seen := seen[k := Get(seen, k) + [r]];
      kept := kept[k := Get(kept, k) + [r]];
      stash := stash - {k};
    }
  }

  lemma GetUpdated(m: map<PairKey, seq<Rec>>, k: PairKey, v: seq<Rec>)
    ensures Get(m[k := v], k) == v
    ensures forall l :: l != k ==> Get(m[k := v], l) == Get(m, l)
  {
  }

  lemma SuffixGrows(part: seq<Rec>, whole: seq<Rec>, r: Rec)
    requires IsSuffix(part, whole)
    ensures IsSuffix(part + [r], whole + [r])
    ensures part == [] ==> IsSuffix([], whole + [r])
  {
  }

  lemma LiveIsNext(d: Dice, recs: seq<Rec>, r: Rec)
    ensures var b := Eager(d, recs);
      Eager(d, recs + [r]) == Beacon(AddSamples(d, b.samples, r), AddTrack(b.track, r), AddTotals(b.totals, r))
  {
    EagerSnoc(d, recs, r);
  }
}
