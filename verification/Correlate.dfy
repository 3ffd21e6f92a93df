/** Same-pair correlation: which roll-up rows a run emits, and how contributors are cross-linked. */
module Correlation {
  import opened Findings
  import opened TextOrder

  predicate EligibleType(kind: string) {
    !IsRollup(kind) && kind != "Zeek Notice" && kind != "Long Connection"
  }

  /** Findings that take part: an eligible type on a real pair of endpoints. */
  predicate Contributes(f: Finding) {
    && EligibleType(f.kind) && f.src != "" && f.dst != ""
    && f.dst != "(network)" && f.src != "(cert)" && f.src != "(escalation)" && f.src != "(TI)"
  }

  datatype PairKey = PairKey(sensor: string, src: string, dst: string)

  function KeyOf(f: Finding): PairKey {
    PairKey(f.sensor, f.src, f.dst)
  }

  /** This run's findings come first, then the stored ones. */
  datatype Obs = Obs(f: Finding, historical: bool)

  /** Stored findings are linked by their negated id. */
  function LinkId(o: Obs): int {
    if o.historical then -o.f.id else o.f.id
  }

  function Observations(recent: seq<Finding>, hist: seq<Finding>): (obs: seq<Obs>)
    ensures |obs| == |recent| + |hist|
  {
    seq(|recent|, i requires 0 <= i < |recent| => Obs(recent[i], false))
    + seq(|hist|, i requires 0 <= i < |hist| => Obs(hist[i], true))
  }

  lemma ObservedAt(recent: seq<Finding>, hist: seq<Finding>, i: nat)
    requires i < |recent| + |hist|
    ensures Observations(recent, hist)[i] == if i < |recent| then Obs(recent[i], false) else Obs(hist[i - |recent|], true)
  {
  }

  // ---- Gathering ----

  datatype PairData = PairData(types: set<string>, maxScore: int, earliest: string, ids: map<Fingerprint, int>)

  const BLANK: PairData := PairData({}, 0, "", map[])

  function Added(d: PairData, o: Obs): PairData {
    var fp := FingerprintOf(o.f);
    PairData(
      d.types + {o.f.kind},
      if o.f.score > d.maxScore then o.f.score else d.maxScore,
      if o.f.timestamp != "" && (d.earliest == "" || Less(o.f.timestamp, d.earliest)) then o.f.timestamp else d.earliest,
      if fp in d.ids then d.ids else d.ids[fp := LinkId(o)])
  }

  function Contribute(pairs: map<PairKey, PairData>, o: Obs): map<PairKey, PairData> {
    if !Contributes(o.f) then pairs
    else
      var k := KeyOf(o.f);
      pairs[k := Added(if k in pairs then pairs[k] else BLANK, o)]
  }

  function Gather(obs: seq<Obs>): map<PairKey, PairData> {
    if obs == [] then map[] else Contribute(Gather(obs[..|obs| - 1]), obs[|obs| - 1])
  }

  function Data(obs: seq<Obs>, k: PairKey): PairData {
    var pairs := Gather(obs);
    if k in pairs then pairs[k] else BLANK
  }

  // ---- What has been gathered, stated over the observations ----

  predicate At(obs: seq<Obs>, i: nat, k: PairKey)
    requires i < |obs|
  {
    Contributes(obs[i].f) && KeyOf(obs[i].f) == k
  }

  /** The first contributor with its fingerprint. */
  predicate FirstSeen(obs: seq<Obs>, i: nat)
    requires i < |obs|
  {
    && Contributes(obs[i].f)
    && forall j :: 0 <= j < i && Contributes(obs[j].f) ==> FingerprintOf(obs[j].f) != FingerprintOf(obs[i].f)
  }

  function TypesAt(obs: seq<Obs>, k: PairKey): set<string> {
    set i | 0 <= i < |obs| && At(obs, i, k) :: obs[i].f.kind
  }

  /** The ids that represent a pair's distinct findings. */
  function Linked(obs: seq<Obs>, k: PairKey): set<int> {
    set i | 0 <= i < |obs| && FirstSeen(obs, i) && KeyOf(obs[i].f) == k :: LinkId(obs[i])
  }

  function PrintsAt(obs: seq<Obs>, k: PairKey): set<Fingerprint> {
    set i | 0 <= i < |obs| && At(obs, i, k) :: FingerprintOf(obs[i].f)
  }

  /** The types a pair shows: those of all findings between its named endpoints that are no notice, long connection or roll-up. */
  lemma TypesAre(recent: seq<Finding>, hist: seq<Finding>, k: PairKey)
    ensures TypesAt(Observations(recent, hist), k) == Shown(recent, hist, k)
  {
    hide Contributes;
    var obs := Observations(recent, hist);
    assert forall f: Finding :: Between(f, k) <==> Contributes(f) && KeyOf(f) == k by {
      BetweenIff(k);
    }
    hide Between;
    forall kind | kind in TypesAt(obs, k)
      ensures kind in Shown(recent, hist, k)
    {
      var i :| 0 <= i < |obs| && At(obs, i, k) && obs[i].f.kind == kind;
      ObservedAt(recent, hist, i);
      assert obs[i].f in recent || obs[i].f in hist;
    }
    forall f | (f in recent || f in hist) && Between(f, k)
      ensures f.kind in TypesAt(obs, k)
    {
      var i: nat := if f in recent then PlaceOf(recent, f) else |recent| + PlaceOf(hist, f);
      ObservedAt(recent, hist, i);
      assert At(obs, i, k);
    }
  }

  predicate Between(f: Finding, k: PairKey) {
    && f.sensor == k.sensor && f.src == k.src && f.dst == k.dst
    && f.src !in {"", "(cert)", "(escalation)", "(TI)"} && f.dst !in {"", "(network)"}
    && f.kind !in {"Zeek Notice", "Long Connection", "Host Risk Score", "Correlated Activity", "Multi-Stage Beacon"}
  }

  lemma BetweenIff(k: PairKey)
    ensures forall f: Finding :: Between(f, k) <==> Contributes(f) && KeyOf(f) == k
  {
  }

  function Shown(recent: seq<Finding>, hist: seq<Finding>, k: PairKey): set<string> {
    (set f | f in recent && Between(f, k) :: f.kind) + set f | f in hist && Between(f, k) :: f.kind
  }

  ghost function PlaceOf(s: seq<Finding>, f: Finding): (i: nat)
    requires f in s
    ensures i < |s| && s[i] == f
  {
    var i :| 0 <= i < |s| && s[i] == f;
    i
  }

  lemma AtPrefix(obs: seq<Obs>, o: Obs, k: PairKey)
    ensures forall i :: 0 <= i < |obs| ==> At(obs + [o], i, k) == At(obs, i, k)
    ensures forall i :: 0 <= i < |obs| ==> FirstSeen(obs + [o], i) == FirstSeen(obs, i)
    ensures TypesAt(obs + [o], k) == TypesAt(obs, k) + if Contributes(o.f) && KeyOf(o.f) == k then {o.f.kind} else {}
    ensures PrintsAt(obs + [o], k) == PrintsAt(obs, k) + if Contributes(o.f) && KeyOf(o.f) == k then {FingerprintOf(o.f)} else {}
  {
    var all := obs + [o];
    assert forall i :: 0 <= i < |obs| ==> all[i] == obs[i];
    assert all[|obs|] == o;
    assert At(all, |obs|, k) <==> Contributes(o.f) && KeyOf(o.f) == k;
  }

  lemma LinkedSnoc(obs: seq<Obs>, o: Obs, k: PairKey)
    ensures Linked(obs + [o], k) == Linked(obs, k) +
              if Contributes(o.f) && KeyOf(o.f) == k && FingerprintOf(o.f) !in PrintsAt(obs, k) then {LinkId(o)} else {}
  {
    var all := obs + [o];
    AtPrefix(obs, o, k);
    assert all[|obs|] == o && forall i :: 0 <= i < |obs| ==> all[i] == obs[i];
    assert FirstSeen(all, |obs|) && KeyOf(o.f) == k <==>
      Contributes(o.f) && KeyOf(o.f) == k && FingerprintOf(o.f) !in PrintsAt(obs, k) by {
      assert forall i :: 0 <= i < |obs| && Contributes(obs[i].f) && FingerprintOf(obs[i].f) == FingerprintOf(o.f) ==>
        KeyOf(obs[i].f) == KeyOf(o.f);
    }
  }

  lemma DataSnoc(obs: seq<Obs>, o: Obs, k: PairKey)
    ensures var mine := Contributes(o.f) && KeyOf(o.f) == k;
      && Data(obs + [o], k) == (if mine then Added(Data(obs, k), o) else Data(obs, k))
      && (k in Gather(obs + [o]) <==> k in Gather(obs) || mine)
  {
    hide Added; hide Contributes;
    assert (obs + [o])[..|obs|] == obs;
  }

  /** What the gathered data of a pair says about its contributors. */
  ghost predicate Tells(d: PairData, obs: seq<Obs>, k: PairKey) {
    d.types == TypesAt(obs, k) && d.ids.Keys == PrintsAt(obs, k) && d.ids.Values == Linked(obs, k)
  }

  lemma TellsMore(d: PairData, obs: seq<Obs>, o: Obs, k: PairKey)
    requires Tells(d, obs, k)
    ensures Tells(if Contributes(o.f) && KeyOf(o.f) == k then Added(d, o) else d, obs + [o], k)
  {
    hide FingerprintOf; hide Contributes; hide TypesAt; hide PrintsAt; hide Linked;
    AtPrefix(obs, o, k);
    LinkedSnoc(obs, o, k);
    if FingerprintOf(o.f) !in d.ids {
      NewValue(d.ids, FingerprintOf(o.f), LinkId(o));
    }
  }

  /** Gathering collects exactly the types, fingerprints and link ids of each pair's contributors. */
  lemma {:induction false} Gathered(obs: seq<Obs>, k: PairKey)
    ensures Tells(Data(obs, k), obs, k)
    ensures k in Gather(obs) <==> TypesAt(obs, k) != {}
    decreases |obs|
  {
    hide Contributes; hide Data; hide Gather; hide Added; hide Tells;
    if obs == [] {
      NothingGathered(k);
    } else {
      var init, o := obs[..|obs| - 1], obs[|obs| - 1];
      assert obs == init + [o];
      Gathered(init, k);
      DataSnoc(init, o, k);
      TellsMore(Data(init, k), init, o, k);
      AtPrefix(init, o, k);
    }
  }

  lemma NothingGathered(k: PairKey)
    ensures Tells(Data([], k), [], k) && k !in Gather([]) && TypesAt([], k) == {}
  {
  }

  lemma NewValue(m: map<Fingerprint, int>, fp: Fingerprint, v: int)
    requires fp !in m
    ensures m[fp := v].Values == m.Values + {v}
  {
    var n := m[fp := v];
    assert n[fp] == v;
    assert forall q :: q in m ==> n[q] == m[q];
  }
}
