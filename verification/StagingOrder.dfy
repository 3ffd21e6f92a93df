/** Exactly when the order of the findings leaves the onsets of a cluster's hosts alone. */
module StagingOrder {
  import opened Findings
  import opened TextOrder
  import opened Staging
  import opened StagingRows

  /** A finding of the list that can be the one that counts for its fingerprint. */
  predicate Candidate(env: Env, recent: seq<Finding>, hist: seq<Finding>, f: Finding) {
    Takes(env, f) && (f in recent || (f in hist && forall g :: g in recent && Takes(env, g) ==> FingerprintOf(g) != FingerprintOf(f)))
  }

  predicate AtHost(f: Finding, k: ClusterKey, src: string) {
    KeyOf(f) == k && f.src == src
  }

  /** No candidate of the host is earlier. */
  ghost predicate Earliest(env: Env, recent: seq<Finding>, hist: seq<Finding>, k: ClusterKey, src: string, f: Finding) {
    && Candidate(env, recent, hist, f) && AtHost(f, k, src)
    && forall g :: Candidate(env, recent, hist, g) && AtHost(g, k, src) ==> NotAfter(f.timestamp, g.timestamp)
  }

  /** The host has no candidate, or some fingerprint carries its earliest time in every candidate. */
  ghost predicate Settled(env: Env, recent: seq<Finding>, hist: seq<Finding>, k: ClusterKey, src: string) {
    || (forall f :: Candidate(env, recent, hist, f) ==> !AtHost(f, k, src))
    || exists f :: Earliest(env, recent, hist, k, src, f)
         && forall g :: Candidate(env, recent, hist, g) && FingerprintOf(g) == FingerprintOf(f) ==> g.timestamp == f.timestamp
  }

  ghost predicate Reordered(recent: seq<Finding>, hist: seq<Finding>, recent': seq<Finding>, hist': seq<Finding>) {
    multiset(recent) == multiset(recent') && multiset(hist) == multiset(hist')
  }

  ghost predicate SameOnset(env: Env, recent: seq<Finding>, hist: seq<Finding>, recent': seq<Finding>, hist': seq<Finding>,
                            k: ClusterKey, src: string) {
    forall t :: IsOnset(Firsts(env, SeenOf(recent, hist)), k, src, t) <==> IsOnset(Firsts(env, SeenOf(recent', hist')), k, src, t)
  }

  // ---- Candidates and the findings that count ----

  lemma SeenAt(recent: seq<Finding>, hist: seq<Finding>, i: nat)
    requires i < |recent| + |hist|
    ensures SeenOf(recent, hist)[i].f == if i < |recent| then recent[i] else hist[i - |recent|]
  {
  }

  lemma CandidatesSame(env: Env, recent: seq<Finding>, hist: seq<Finding>, recent': seq<Finding>, hist': seq<Finding>, f: Finding)
    requires Reordered(recent, hist, recent', hist')
    ensures Candidate(env, recent, hist, f) <==> Candidate(env, recent', hist', f)
  {
    hide Takes; hide FingerprintOf;
    assert forall g :: g in recent <==> g in multiset(recent);
    assert forall g :: g in recent' <==> g in multiset(recent');
    assert forall g :: g in hist <==> g in multiset(hist);
    assert forall g :: g in hist' <==> g in multiset(hist');
  }

  /** What counts is a candidate. */
  lemma FirstIsCandidate(env: Env, recent: seq<Finding>, hist: seq<Finding>, i: nat)
    requires First(env, SeenOf(recent, hist), i)
    ensures Candidate(env, recent, hist, SeenOf(recent, hist)[i].f)
  {
    hide Takes; hide FingerprintOf; hide SeenOf;
    var obs := SeenOf(recent, hist);
    var f := obs[i].f;
    SeenAt(recent, hist, i);
    if i >= |recent| {
      forall g | g in recent && Takes(env, g)
        ensures FingerprintOf(g) != FingerprintOf(f)
      {
        var j :| 0 <= j < |recent| && recent[j] == g;
        SeenAt(recent, hist, j);
      }
    }
  }

  /** The first taken finding with the fingerprint of a given one. */
  lemma FirstOf(env: Env, obs: seq<Seen>, i: nat) returns (j: nat)
    requires i < |obs| && Takes(env, obs[i].f)
    ensures j <= i && First(env, obs, j) && FingerprintOf(obs[j].f) == FingerprintOf(obs[i].f)
    decreases i
  {
    hide Takes; hide FingerprintOf;
    j := i;
    if !First(env, obs, i) {
      var h :| 0 <= h < i && Takes(env, obs[h].f) && FingerprintOf(obs[h].f) == FingerprintOf(obs[i].f);
      j := FirstOf(env, obs, h);
    }
  }

  /** Every candidate's fingerprint is counted, and its fingerprint tells its cluster and host. */
  lemma CandidateCounts(env: Env, recent: seq<Finding>, hist: seq<Finding>, f: Finding) returns (i: nat, j: nat)
    requires Candidate(env, recent, hist, f)
    ensures i < |SeenOf(recent, hist)| && SeenOf(recent, hist)[i].f == f
    ensures j <= i && First(env, SeenOf(recent, hist), j) && FingerprintOf(SeenOf(recent, hist)[j].f) == FingerprintOf(f)
    ensures f in recent ==> i < |recent|
    ensures f !in recent ==> i >= |recent| && j >= |recent|
  {
    hide Takes; hide FingerprintOf; hide SeenOf;
    if f in recent {
      i :| 0 <= i < |recent| && recent[i] == f;
    } else {
      i :| 0 <= i < |hist| && hist[i] == f;
      i := i + |recent|;
    }
    SeenAt(recent, hist, i);
    j := FirstOf(env, SeenOf(recent, hist), i);
    SeenAt(recent, hist, j);
  }

  lemma SamePlace(f: Finding, g: Finding, k: ClusterKey, src: string)
    requires FingerprintOf(f) == FingerprintOf(g)
    ensures AtHost(f, k, src) <==> AtHost(g, k, src)
  {
  }

  // ---- Settled hosts keep their onset ----

  lemma SettledOnset(env: Env, recent: seq<Finding>, hist: seq<Finding>, k: ClusterKey, src: string, f: Finding)
    requires Earliest(env, recent, hist, k, src, f)
    requires forall g :: Candidate(env, recent, hist, g) && FingerprintOf(g) == FingerprintOf(f) ==> g.timestamp == f.timestamp
    ensures IsOnset(Firsts(env, SeenOf(recent, hist)), k, src, f.timestamp)
  {
    hide Takes; hide FingerprintOf; hide SeenOf; hide Candidate; hide NotAfter; hide First;
    var obs := SeenOf(recent, hist);
    var i, j := CandidateCounts(env, recent, hist, f);
    FirstIsCandidate(env, recent, hist, j);
    SamePlace(f, obs[j].f, k, src);
    CountsThen(env, obs, j);
    assert obs[j].f.timestamp == f.timestamp;
    forall g | g in Firsts(env, obs) && AtHost(g, k, src)
      ensures NotAfter(f.timestamp, g.timestamp)
    {
      var h :| 0 <= h < |obs| && First(env, obs, h) && obs[h].f == g;
      FirstIsCandidate(env, recent, hist, h);
    }
  }

  lemma CountsThen(env: Env, obs: seq<Seen>, j: nat)
    requires First(env, obs, j)
    ensures obs[j].f in Firsts(env, obs)
  {
    hide First;
    assert j < |obs| by { InRange(env, obs, j); }
  }

  lemma InRange(env: Env, obs: seq<Seen>, j: nat)
    requires First(env, obs, j)
    ensures j < |obs|
  {
  }

  lemma NoHostNoOnset(env: Env, recent: seq<Finding>, hist: seq<Finding>, k: ClusterKey, src: string, t: string)
    requires forall f :: Candidate(env, recent, hist, f) ==> !AtHost(f, k, src)
    ensures !IsOnset(Firsts(env, SeenOf(recent, hist)), k, src, t)
  {
    hide Takes; hide FingerprintOf; hide SeenOf; hide Candidate; hide First;
    var obs := SeenOf(recent, hist);
    forall f | f in Firsts(env, obs)
      ensures !AtHost(f, k, src)
    {
      var h :| 0 <= h < |obs| && First(env, obs, h) && obs[h].f == f;
      FirstIsCandidate(env, recent, hist, h);
    }
  }

  lemma SettledStays(env: Env, recent: seq<Finding>, hist: seq<Finding>, recent': seq<Finding>, hist': seq<Finding>,
                     k: ClusterKey, src: string)
    requires Reordered(recent, hist, recent', hist') && Settled(env, recent, hist, k, src)
    ensures SameOnset(env, recent, hist, recent', hist', k, src)
  {
    hide Candidate; hide FingerprintOf; hide IsOnset; hide Firsts; hide NotAfter; hide Takes; hide AtHost;
    forall f
      ensures Candidate(env, recent, hist, f) <==> Candidate(env, recent', hist', f)
    {
      CandidatesSame(env, recent, hist, recent', hist', f);
    }
    if forall f :: Candidate(env, recent, hist, f) ==> !AtHost(f, k, src) {
      forall t
        ensures !IsOnset(Firsts(env, SeenOf(recent, hist)), k, src, t) && !IsOnset(Firsts(env, SeenOf(recent', hist')), k, src, t)
      {
        NoHostNoOnset(env, recent, hist, k, src, t);
        NoHostNoOnset(env, recent', hist', k, src, t);
      }
    } else {
      var f :| Earliest(env, recent, hist, k, src, f)
        && forall g :: Candidate(env, recent, hist, g) && FingerprintOf(g) == FingerprintOf(f) ==> g.timestamp == f.timestamp;
      SettledOnset(env, recent, hist, k, src, f);
      SettledOnset(env, recent', hist', k, src, f);
      OnlyOnset(Firsts(env, SeenOf(recent, hist)), k, src, f.timestamp);
      OnlyOnset(Firsts(env, SeenOf(recent', hist')), k, src, f.timestamp);
    }
  }

  lemma OnlyOnset(firsts: set<Finding>, k: ClusterKey, src: string, t: string)
    requires IsOnset(firsts, k, src, t)
    ensures forall u :: IsOnset(firsts, k, src, u) <==> u == t
  {
    hide IsOnset;
    forall u | IsOnset(firsts, k, src, u)
      ensures u == t
    {
      OneOnset(firsts, k, src, t, u);
    }
  }

  // ---- An unsettled host has two onsets ----

  /** The findings that are (or are not) at the host with the given time. */
  function Picked(s: seq<Finding>, k: ClusterKey, src: string, t: string, want: bool): seq<Finding> {
    if s == [] then []
    else
      (if (AtHost(s[0], k, src) && s[0].timestamp == t) == want then [s[0]] else []) + Picked(s[1..], k, src, t, want)
  }

  /** Those findings first, or last. */
  function Moved(s: seq<Finding>, k: ClusterKey, src: string, t: string, ahead: bool): seq<Finding> {
    Picked(s, k, src, t, ahead) + Picked(s, k, src, t, !ahead)
  }

  lemma {:induction false} PickedSplit(s: seq<Finding>, k: ClusterKey, src: string, t: string, want: bool)
    ensures multiset(Picked(s, k, src, t, want)) + multiset(Picked(s, k, src, t, !want)) == multiset(s)
    ensures forall f :: f in Picked(s, k, src, t, want) <==> f in s && (AtHost(f, k, src) && f.timestamp == t) == want
    ensures forall f :: f in Picked(s, k, src, t, !want) <==> f in s && (AtHost(f, k, src) && f.timestamp == t) == !want
  {
    hide AtHost;
    if s != [] {
      PickedSplit(s[1..], k, src, t, want);
      assert s == [s[0]] + s[1..];
    }
  }

  lemma MovedSame(s: seq<Finding>, k: ClusterKey, src: string, t: string, ahead: bool)
    ensures multiset(Moved(s, k, src, t, ahead)) == multiset(s)
  {
    PickedSplit(s, k, src, t, ahead);
  }

  lemma MovedPart(s: seq<Finding>, k: ClusterKey, src: string, t: string, ahead: bool, i: nat)
    requires i < |Moved(s, k, src, t, ahead)|
    ensures var f := Moved(s, k, src, t, ahead)[i];
      i < |Picked(s, k, src, t, ahead)| <==> (AtHost(f, k, src) && f.timestamp == t) == ahead
    ensures Moved(s, k, src, t, ahead)[i] in s
  {
    hide AtHost;
    PickedSplit(s, k, src, t, ahead);
    var a, b := Picked(s, k, src, t, ahead), Picked(s, k, src, t, !ahead);
    assert if i < |a| then Moved(s, k, src, t, ahead)[i] in a else Moved(s, k, src, t, ahead)[i] in b;
  }

  /** Findings moved ahead come before the others. */
  lemma MovedOrder(s: seq<Finding>, k: ClusterKey, src: string, t: string, ahead: bool, i: nat, j: nat)
    requires i < |Moved(s, k, src, t, ahead)| && j < |Moved(s, k, src, t, ahead)|
    requires var m := Moved(s, k, src, t, ahead);
      (AtHost(m[i], k, src) && m[i].timestamp == t) == ahead && (AtHost(m[j], k, src) && m[j].timestamp == t) != ahead
    ensures i < j
  {
    hide AtHost; hide Moved;
    MovedPart(s, k, src, t, ahead, i);
    MovedPart(s, k, src, t, ahead, j);
  }

  /** With the earliest findings moved ahead the host's onset is the earliest time. */
  lemma AheadOnset(env: Env, recent: seq<Finding>, hist: seq<Finding>, k: ClusterKey, src: string, f: Finding)
    requires Earliest(env, recent, hist, k, src, f)
    ensures var recent', hist' := Moved(recent, k, src, f.timestamp, true), Moved(hist, k, src, f.timestamp, true);
      Reordered(recent, hist, recent', hist') && IsOnset(Firsts(env, SeenOf(recent', hist')), k, src, f.timestamp)
  {
    hide Takes; hide FingerprintOf; hide SeenOf; hide NotAfter; hide First; hide Moved; hide Candidate; hide AtHost; hide Firsts;
    var recent', hist' := Moved(recent, k, src, f.timestamp, true), Moved(hist, k, src, f.timestamp, true);
    MovedSame(recent, k, src, f.timestamp, true);
    MovedSame(hist, k, src, f.timestamp, true);
    CandidatesSame(env, recent, hist, recent', hist', f);
    var i, j := CandidateCounts(env, recent', hist', f);
    var obs := SeenOf(recent', hist');
    SamePlace(f, obs[j].f, k, src);
    AheadFirst(env, recent, hist, k, src, f, i, j);
    CountsThen(env, obs, j);
    EarliestOnset(env, recent, hist, recent', hist', k, src, f, obs[j].f);
  }

  /** The counting finding is in the part that was moved ahead. */
  lemma AheadFirst(env: Env, recent: seq<Finding>, hist: seq<Finding>, k: ClusterKey, src: string, f: Finding, i: nat, j: nat)
    requires AtHost(f, k, src)
    requires var recent', hist' := Moved(recent, k, src, f.timestamp, true), Moved(hist, k, src, f.timestamp, true);
      var obs := SeenOf(recent', hist');
      && j <= i < |obs| && obs[i].f == f && AtHost(obs[j].f, k, src) && (j < |recent'| <==> i < |recent'|)
    ensures SeenOf(Moved(recent, k, src, f.timestamp, true), Moved(hist, k, src, f.timestamp, true))[j].f.timestamp == f.timestamp
  {
    hide SeenOf; hide Moved; hide AtHost;
    var recent', hist' := Moved(recent, k, src, f.timestamp, true), Moved(hist, k, src, f.timestamp, true);
    SeenAt(recent', hist', i);
    SeenAt(recent', hist', j);
    if SeenOf(recent', hist')[j].f.timestamp != f.timestamp {
      if i < |recent'| {
        MovedOrder(recent, k, src, f.timestamp, true, i, j);
      } else {
        MovedOrder(hist, k, src, f.timestamp, true, i - |recent'|, j - |recent'|);
      }
    }
  }

  lemma EarliestOnset(env: Env, recent: seq<Finding>, hist: seq<Finding>, recent': seq<Finding>, hist': seq<Finding>,
                      k: ClusterKey, src: string, f: Finding, g: Finding)
    requires Reordered(recent, hist, recent', hist') && Earliest(env, recent, hist, k, src, f)
    requires g in Firsts(env, SeenOf(recent', hist')) && AtHost(g, k, src) && g.timestamp == f.timestamp
    ensures IsOnset(Firsts(env, SeenOf(recent', hist')), k, src, f.timestamp)
  {
    hide Takes; hide FingerprintOf; hide SeenOf; hide NotAfter; hide First; hide Candidate;
    var obs := SeenOf(recent', hist');
    forall h | h in Firsts(env, obs) && AtHost(h, k, src)
      ensures NotAfter(f.timestamp, h.timestamp)
    {
      var i :| 0 <= i < |obs| && First(env, obs, i) && obs[i].f == h;
      FirstIsCandidate(env, recent', hist', i);
      CandidatesSame(env, recent, hist, recent', hist', h);
    }
  }

  /** With them moved behind, an unsettled host is never counted at its earliest time. */
  lemma BehindOnset(env: Env, recent: seq<Finding>, hist: seq<Finding>, k: ClusterKey, src: string, t: string)
    requires !Settled(env, recent, hist, k, src)
    requires exists f :: Earliest(env, recent, hist, k, src, f) && f.timestamp == t
    ensures var recent', hist' := Moved(recent, k, src, t, false), Moved(hist, k, src, t, false);
      Reordered(recent, hist, recent', hist') && !IsOnset(Firsts(env, SeenOf(recent', hist')), k, src, t)
  {
    hide Takes; hide FingerprintOf; hide SeenOf; hide NotAfter; hide First; hide Moved; hide Candidate; hide AtHost; hide IsOnset;
    var recent', hist' := Moved(recent, k, src, t, false), Moved(hist, k, src, t, false);
    MovedSame(recent, k, src, t, false);
    MovedSame(hist, k, src, t, false);
    var obs := SeenOf(recent', hist');
    forall i | 0 <= i < |obs| && First(env, obs, i) && AtHost(obs[i].f, k, src)
      ensures obs[i].f.timestamp != t
    {
      NotFirstThere(env, recent, hist, k, src, t, i);
    }
    NoOnsetAt(env, obs, k, src, t);
  }

  lemma NoOnsetAt(env: Env, obs: seq<Seen>, k: ClusterKey, src: string, t: string)
    requires forall i :: 0 <= i < |obs| && First(env, obs, i) && AtHost(obs[i].f, k, src) ==> obs[i].f.timestamp != t
    ensures !IsOnset(Firsts(env, obs), k, src, t)
  {
    hide First; hide NotAfter;
    forall f | f in Firsts(env, obs) && AtHost(f, k, src)
      ensures f.timestamp != t
    {
      var i :| 0 <= i < |obs| && First(env, obs, i) && obs[i].f == f;
    }
  }

  lemma NotFirstThere(env: Env, recent: seq<Finding>, hist: seq<Finding>, k: ClusterKey, src: string, t: string, i: nat)
    requires !Settled(env, recent, hist, k, src)
    requires exists f :: Earliest(env, recent, hist, k, src, f) && f.timestamp == t
    requires Reordered(recent, hist, Moved(recent, k, src, t, false), Moved(hist, k, src, t, false))
    requires First(env, SeenOf(Moved(recent, k, src, t, false), Moved(hist, k, src, t, false)), i)
    requires AtHost(SeenOf(Moved(recent, k, src, t, false), Moved(hist, k, src, t, false))[i].f, k, src)
    ensures SeenOf(Moved(recent, k, src, t, false), Moved(hist, k, src, t, false))[i].f.timestamp != t
  {
    hide Takes; hide FingerprintOf; hide SeenOf; hide NotAfter; hide Moved; hide Candidate; hide AtHost; hide First;
    var recent', hist' := Moved(recent, k, src, t, false), Moved(hist, k, src, t, false);
    var obs := SeenOf(recent', hist');
    InRange(env, obs, i);
    var g := obs[i].f;
    FirstIsCandidate(env, recent', hist', i);
    CandidatesSame(env, recent, hist, recent', hist', g);
    if g.timestamp == t {
      assert Earliest(env, recent, hist, k, src, g);
      var h :| Candidate(env, recent, hist, h) && FingerprintOf(h) == FingerprintOf(g) && h.timestamp != g.timestamp;
      CandidatesSame(env, recent, hist, recent', hist', h);
      RivalAhead(env, recent, hist, k, src, t, i, h);
    }
  }

  /** A candidate of the same fingerprint and another time comes before it. */
  lemma RivalAhead(env: Env, recent: seq<Finding>, hist: seq<Finding>, k: ClusterKey, src: string, t: string, i: nat, h: Finding)
    requires var recent', hist' := Moved(recent, k, src, t, false), Moved(hist, k, src, t, false);
      && i < |SeenOf(recent', hist')| && Candidate(env, recent', hist', h)
      && var g := SeenOf(recent', hist')[i].f;
         && Candidate(env, recent', hist', g) && AtHost(g, k, src) && g.timestamp == t
         && FingerprintOf(h) == FingerprintOf(g) && h.timestamp != t
    ensures !First(env, SeenOf(Moved(recent, k, src, t, false), Moved(hist, k, src, t, false)), i)
  {
    hide Takes; hide FingerprintOf; hide SeenOf; hide Moved; hide Candidate; hide AtHost; hide First;
    var recent', hist' := Moved(recent, k, src, t, false), Moved(hist, k, src, t, false);
    var obs := SeenOf(recent', hist');
    SamePlace(obs[i].f, h, k, src);
    var j, _ := CandidateCounts(env, recent', hist', h);
    CandidateTakes(env, recent', hist', h);
    if First(env, obs, i) {
      OneList(env, recent', hist', i, j);
      SeenAt(recent', hist', i);
      SeenAt(recent', hist', j);
      if i < |recent'| {
        MovedOrder(recent, k, src, t, false, j, i);
      } else {
        MovedOrder(hist, k, src, t, false, j - |recent'|, i - |recent'|);
      }
      EarlierOne(env, obs, j, i);
    }
  }

  /** Candidates of one fingerprint are in one list. */
  lemma OneList(env: Env, recent: seq<Finding>, hist: seq<Finding>, i: nat, j: nat)
    requires i < |SeenOf(recent, hist)| && j < |SeenOf(recent, hist)|
    requires var g, h := SeenOf(recent, hist)[i].f, SeenOf(recent, hist)[j].f;
      && Candidate(env, recent, hist, g) && Candidate(env, recent, hist, h) && FingerprintOf(g) == FingerprintOf(h)
      && (h in recent ==> j < |recent|) && First(env, SeenOf(recent, hist), i)
    ensures i < |recent| <==> j < |recent|
  {
    hide Takes; hide FingerprintOf; hide SeenOf;
    SeenAt(recent, hist, i);
    SeenAt(recent, hist, j);
  }

  lemma CandidateTakes(env: Env, recent: seq<Finding>, hist: seq<Finding>, f: Finding)
    requires Candidate(env, recent, hist, f)
    ensures Takes(env, f)
  {
  }

  lemma EarlierOne(env: Env, obs: seq<Seen>, j: nat, i: nat)
    requires j < i < |obs| && Takes(env, obs[j].f) && FingerprintOf(obs[j].f) == FingerprintOf(obs[i].f)
    ensures !First(env, obs, i)
  {
    hide Takes; hide FingerprintOf;
  }

  /** A host with candidates has an earliest one. */
  lemma SomeEarliest(env: Env, recent: seq<Finding>, hist: seq<Finding>, k: ClusterKey, src: string, f: Finding) returns (e: Finding)
    requires Candidate(env, recent, hist, f) && AtHost(f, k, src)
    ensures Earliest(env, recent, hist, k, src, e)
  {
    hide Takes; hide FingerprintOf; hide NotAfter;
    var all := set g | g in recent + hist && Candidate(env, recent, hist, g);
    assert f in all;
    var t := OnsetExists(all, k, f);
    e :| e in all && KeyOf(e) == k && e.src == src && e.timestamp == t;
  }

  /**
   The exact condition. A host's onset is the same in every order of the findings if and only
   if the host has none, or some fingerprint carries its earliest time in every finding that
   can count for it.
   */
  lemma OnsetOrderFreeIff(env: Env, recent: seq<Finding>, hist: seq<Finding>, k: ClusterKey, src: string)
    ensures Settled(env, recent, hist, k, src) <==>
      forall recent', hist' :: Reordered(recent, hist, recent', hist') ==> SameOnset(env, recent, hist, recent', hist', k, src)
  {
    hide Candidate; hide Reordered; hide AtHost; hide IsOnset; hide Moved; hide Firsts; hide SeenOf;
    if Settled(env, recent, hist, k, src) {
      forall recent', hist' | Reordered(recent, hist, recent', hist')
        ensures SameOnset(env, recent, hist, recent', hist', k, src)
      {
        SettledStays(env, recent, hist, recent', hist', k, src);
      }
    } else {
      var f :| Candidate(env, recent, hist, f) && AtHost(f, k, src);
      var e := SomeEarliest(env, recent, hist, k, src, f);
      AheadOnset(env, recent, hist, k, src, e);
      BehindOnset(env, recent, hist, k, src, e.timestamp);
    }
  }

  // ---- What follows for the rows ----

  lemma SameHosts(firsts: set<Finding>, firsts': set<Finding>, k: ClusterKey)
    requires forall src, t :: IsOnset(firsts, k, src, t) <==> IsOnset(firsts', k, src, t)
    ensures Hosts(firsts, k) == Hosts(firsts', k)
  {
    hide IsOnset; hide Hosts;
    forall src
      ensures src in Hosts(firsts, k) <==> exists t :: IsOnset(firsts, k, src, t)
      ensures src in Hosts(firsts', k) <==> exists t :: IsOnset(firsts', k, src, t)
    {
      HostHasOnset(firsts, k, src);
      HostHasOnset(firsts', k, src);
    }
  }

  lemma HostHasOnset(firsts: set<Finding>, k: ClusterKey, src: string)
    ensures src in Hosts(firsts, k) <==> exists t :: IsOnset(firsts, k, src, t)
  {
    hide NotAfter;
    if f :| f in firsts && KeyOf(f) == k && f.src == src {
      var t := OnsetExists(firsts, k, f);
    }
  }

  /**
   A cluster whose hosts are all settled is staged in every order or in none, and its row
   says the same but for which of a host's ids is linked.
   */
  lemma SettledOrderFree(env: Env, params: Params, recent: seq<Finding>, hist: seq<Finding>, recent': seq<Finding>, hist': seq<Finding>,
                         related: seq<Finding>, related': seq<Finding>, k: ClusterKey, row: Finding, row': Finding)
    requires Reordered(recent, hist, recent', hist') && multiset(related) == multiset(related')
    requires forall src :: Settled(env, recent, hist, k, src)
    ensures Stages(env, params, Firsts(env, SeenOf(recent, hist)), k) <==> Stages(env, params, Firsts(env, SeenOf(recent', hist')), k)
    ensures IsRow(row, env, params, SeenOf(recent, hist), related, k) && IsRow(row', env, params, SeenOf(recent', hist'), related', k) ==>
      row' == row.(correlations := row'.correlations)
  {
    hide Firsts; hide SeenOf; hide Hosts; hide LinksOk; hide Corroborated; hide Settled; hide IsOnset; hide Reordered; hide WithinWindow;
    var firsts, firsts' := Firsts(env, SeenOf(recent, hist)), Firsts(env, SeenOf(recent', hist'));
    forall src, t
      ensures IsOnset(firsts, k, src, t) <==> IsOnset(firsts', k, src, t)
    {
      SettledStays(env, recent, hist, recent', hist', k, src);
    }
    SameHosts(firsts, firsts', k);
    SameSeeds(firsts, firsts', k);
    hide Seed; hide Latest;
    SameVerdict(related, related', k, Hosts(firsts, k));
    if IsRow(row, env, params, SeenOf(recent, hist), related, k) && IsRow(row', env, params, SeenOf(recent', hist'), related', k) {
      OneSeed(firsts, k, row.src, row.timestamp, row'.src, row'.timestamp);
    }
  }

  lemma SameSeeds(firsts: set<Finding>, firsts': set<Finding>, k: ClusterKey)
    requires forall src, t :: IsOnset(firsts, k, src, t) <==> IsOnset(firsts', k, src, t)
    ensures forall src, t :: Seed(firsts, k, src, t) <==> Seed(firsts', k, src, t)
    ensures forall t :: Latest(firsts, k, t) <==> Latest(firsts', k, t)
  {
    hide IsOnset; hide Less; hide NotAfter;
  }
}
