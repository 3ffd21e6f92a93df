/** Internal hosts that start beaconing to one external destination, one after another. */
module Staging {
  import opened Text
  import opened Findings
  import opened TextOrder

  /** What the phase asks of code outside this model: address ranges, prevalence and lenient date parsing. */
  datatype Env = Env(private: string -> bool, sources: (string, string) -> int, lenient: string -> Option<int>)

  datatype ClusterKey = ClusterKey(sensor: string, dst: string)

  datatype Participant = Participant(src: string, onset: string, freshId: int)

  datatype Seen = Seen(f: Finding, isNew: bool)

  function KeyOf(f: Finding): ClusterKey {
    ClusterKey(f.sensor, f.dst)
  }

  /** Beacon findings between named endpoints, stamped, towards an external destination. */
  predicate Takes(env: Env, f: Finding) {
    IsBeacon(f.kind) && f.src != "" && f.dst != "" && f.timestamp != "" && !env.private(f.dst)
  }

  /** This run's findings come before the stored ones. */
  function SeenOf(recent: seq<Finding>, hist: seq<Finding>): (obs: seq<Seen>)
    ensures |obs| == |recent| + |hist|
  {
    seq(|recent|, i requires 0 <= i < |recent| => Seen(recent[i], true))
    + seq(|hist|, i requires 0 <= i < |hist| => Seen(hist[i], false))
  }

  // ---- Collecting clusters ----

  datatype Table = Table(clusters: map<ClusterKey, map<string, Participant>>, seen: set<Fingerprint>)

  function PartsOf(table: Table, k: ClusterKey): map<string, Participant> {
    if k in table.clusters then table.clusters[k] else map[]
  }

  function Join(parts: map<string, Participant>, o: Seen): map<string, Participant> {
    var p := if o.f.src in parts then parts[o.f.src] else Participant(o.f.src, o.f.timestamp, 0);
    parts[o.f.src := Participant(
            p.src,
            if Less(o.f.timestamp, p.onset) then o.f.timestamp else p.onset,
            if o.isNew && p.freshId == 0 then o.f.id else p.freshId)]
  }

  function Put(env: Env, table: Table, o: Seen): Table {
    if !Takes(env, o.f) || FingerprintOf(o.f) in table.seen then table
    else
      Table(table.clusters[KeyOf(o.f) := Join(PartsOf(table, KeyOf(o.f)), o)], table.seen + {FingerprintOf(o.f)})
  }

  function TableOf(env: Env, obs: seq<Seen>): Table {
    if obs == [] then Table(map[], {}) else Put(env, TableOf(env, obs[..|obs| - 1]), obs[|obs| - 1])
  }

  lemma TableSnoc(env: Env, obs: seq<Seen>, o: Seen)
    ensures TableOf(env, obs + [o]) == Put(env, TableOf(env, obs), o)
  {
    hide Put;
    assert (obs + [o])[..|obs|] == obs;
  }

  lemma SeenSnoc(recent: seq<Finding>, hist: seq<Finding>, i: nat)
    requires i < |recent| + |hist|
    ensures SeenOf(recent, hist)[..i + 1]
         == SeenOf(recent, hist)[..i] + [if i < |recent| then Seen(recent[i], true) else Seen(hist[i - |recent|], false)]
  {
  }

  method Collect(env: Env, recent: seq<Finding>, hist: seq<Finding>) returns (table: Table)
    ensures table == TableOf(env, SeenOf(recent, hist))
  {
    hide Put; hide TableOf; hide SeenOf;
    ghost var obs := SeenOf(recent, hist);
    NothingTaken(env);
    table := Table(map[], {});
    assert obs[..0] == [];
    for i := 0 to |recent|
      invariant table == TableOf(env, obs[..i])
    {
      SeenSnoc(recent, hist, i);
      TableSnoc(env, obs[..i], Seen(recent[i], true));
      table := Put(env, table, Seen(recent[i], true));
    }
    for i := 0 to |hist|
      invariant table == TableOf(env, obs[..|recent| + i])
    {
      SeenSnoc(recent, hist, |recent| + i);
      TableSnoc(env, obs[..|recent| + i], Seen(hist[i], false));
      table := Put(env, table, Seen(hist[i], false));
    }
    assert obs[..|obs|] == obs;
  }

  lemma NothingTaken(env: Env)
    ensures TableOf(env, []) == Table(map[], {})
  {
  }

  // ---- What has been collected ----

  /** The first taken finding with its fingerprint: the only one that counts. */
  predicate First(env: Env, obs: seq<Seen>, i: nat) {
    && i < |obs| && Takes(env, obs[i].f)
    && forall j :: 0 <= j < i && Takes(env, obs[j].f) ==> FingerprintOf(obs[j].f) != FingerprintOf(obs[i].f)
  }

  function Firsts(env: Env, obs: seq<Seen>): set<Finding> {
    set i | 0 <= i < |obs| && First(env, obs, i) :: obs[i].f
  }

  function Prints(env: Env, obs: seq<Seen>): set<Fingerprint> {
    set i | 0 <= i < |obs| && Takes(env, obs[i].f) :: FingerprintOf(obs[i].f)
  }

  /** The ids of this run's findings that count for a host of a cluster. */
  function NewIds(env: Env, obs: seq<Seen>, k: ClusterKey, src: string): set<int> {
    set i | 0 <= i < |obs| && First(env, obs, i) && obs[i].isNew && KeyOf(obs[i].f) == k && obs[i].f.src == src :: obs[i].f.id
  }

  function Hosts(firsts: set<Finding>, k: ClusterKey): set<string> {
    set f | f in firsts && KeyOf(f) == k :: f.src
  }

  /** The earliest time a host of the cluster is seen beaconing. */
  ghost predicate IsOnset(firsts: set<Finding>, k: ClusterKey, src: string, t: string) {
    && (exists f :: f in firsts && KeyOf(f) == k && f.src == src && f.timestamp == t)
    && forall f :: f in firsts && KeyOf(f) == k && f.src == src ==> NotAfter(t, f.timestamp)
  }

  ghost predicate TellsHost(p: Participant, firsts: set<Finding>, ids: set<int>, k: ClusterKey, src: string) {
    && p.src == src && IsOnset(firsts, k, src, p.onset)
    && (p.freshId != 0 ==> p.freshId in ids)
    && (p.freshId == 0 ==> forall id :: id in ids ==> id == 0)
  }

  ghost predicate Tells(parts: map<string, Participant>, env: Env, obs: seq<Seen>, k: ClusterKey) {
    && parts.Keys == Hosts(Firsts(env, obs), k)
    && forall src :: src in parts ==> TellsHost(parts[src], Firsts(env, obs), NewIds(env, obs, k, src), k, src)
  }

  lemma FirstPrefix(env: Env, obs: seq<Seen>, o: Seen, i: nat)
    requires i < |obs|
    ensures First(env, obs + [o], i) == First(env, obs, i)
  {
    hide Takes; hide FingerprintOf;
    assert forall j :: 0 <= j <= i ==> (obs + [o])[j] == obs[j];
  }

  lemma FirstLast(env: Env, obs: seq<Seen>, o: Seen)
    ensures First(env, obs + [o], |obs|) <==> Takes(env, o.f) && FingerprintOf(o.f) !in Prints(env, obs)
  {
    hide Takes; hide FingerprintOf;
    var all := obs + [o];
    assert forall j :: 0 <= j < |obs| ==> all[j] == obs[j];
    assert all[|obs|] == o;
  }

  lemma FirstsSnoc(env: Env, obs: seq<Seen>, o: Seen)
    ensures Firsts(env, obs + [o]) == Firsts(env, obs) + if First(env, obs + [o], |obs|) then {o.f} else {}
  {
    hide First;
    var all := obs + [o];
    forall i | 0 <= i < |obs|
      ensures First(env, all, i) == First(env, obs, i) && all[i] == obs[i]
    {
      FirstPrefix(env, obs, o, i);
    }
  }

  lemma PrintsSnoc(env: Env, obs: seq<Seen>, o: Seen)
    ensures Prints(env, obs + [o]) == Prints(env, obs) + if Takes(env, o.f) then {FingerprintOf(o.f)} else {}
  {
    hide Takes; hide FingerprintOf;
    var all := obs + [o];
    assert forall i :: 0 <= i < |obs| ==> all[i] == obs[i];
    assert all[|obs|] == o;
  }

  lemma NewIdsSnoc(env: Env, obs: seq<Seen>, o: Seen, k: ClusterKey, src: string)
    ensures NewIds(env, obs + [o], k, src) == NewIds(env, obs, k, src) +
      if First(env, obs + [o], |obs|) && o.isNew && KeyOf(o.f) == k && o.f.src == src then {o.f.id} else {}
  {
    hide First;
    var all := obs + [o];
    forall i | 0 <= i < |obs|
      ensures First(env, all, i) == First(env, obs, i) && all[i] == obs[i]
    {
      FirstPrefix(env, obs, o, i);
    }
    assert all[|obs|] == o;
  }

  lemma HostElsewhere(p: Participant, firsts: set<Finding>, f: Finding, ids: set<int>, k: ClusterKey, src: string)
    requires TellsHost(p, firsts, ids, k, src) && (KeyOf(f) != k || f.src != src)
    ensures TellsHost(p, firsts + {f}, ids, k, src)
  {
    hide NotAfter;
  }

  /** One more counting finding of a host: its onset can only move earlier, its id only be filled in. */
  lemma HostAgain(p: Participant, firsts: set<Finding>, o: Seen, ids: set<int>, k: ClusterKey, src: string)
    requires TellsHost(p, firsts, ids, k, src) && KeyOf(o.f) == k && o.f.src == src
    ensures TellsHost(Participant(p.src, if Less(o.f.timestamp, p.onset) then o.f.timestamp else p.onset,
                                  if o.isNew && p.freshId == 0 then o.f.id else p.freshId),
                      firsts + {o.f}, ids + (if o.isNew then {o.f.id} else {}), k, src)
  {
    hide Less; hide NotAfter;
    var t := if Less(o.f.timestamp, p.onset) then o.f.timestamp else p.onset;
    var more := firsts + {o.f};
    var was :| was in firsts && KeyOf(was) == k && was.src == src && was.timestamp == p.onset;
    assert was in more && o.f in more;
    forall f | f in more && KeyOf(f) == k && f.src == src
      ensures NotAfter(t, f.timestamp)
    {
      EarlierOf(o.f.timestamp, p.onset, f.timestamp);
    }
  }

  lemma EarlierOf(t: string, onset: string, u: string)
    ensures Less(t, onset) && NotAfter(onset, u) ==> NotAfter(t, u)
    ensures NotAfter(t, t)
    ensures !Less(t, onset) ==> NotAfter(onset, t)
  {
    hide Less;
    LessTotal(t, t);
    LessTotal(t, onset);
    if Less(t, onset) && NotAfter(onset, u) {
      NotAfterTransitive(t, onset, u);
    }
  }

  lemma HostOnce(firsts: set<Finding>, o: Seen, k: ClusterKey, src: string)
    requires KeyOf(o.f) == k && o.f.src == src && src !in Hosts(firsts, k)
    ensures TellsHost(Participant(src, o.f.timestamp, if o.isNew then o.f.id else 0),
                      firsts + {o.f}, if o.isNew then {o.f.id} else {}, k, src)
  {
    hide Less;
    EarlierOf(o.f.timestamp, o.f.timestamp, o.f.timestamp);
    assert o.f in firsts + {o.f};
    assert forall f :: f in firsts && KeyOf(f) == k && f.src == src ==> f.src in Hosts(firsts, k);
  }

  lemma NoIds(env: Env, obs: seq<Seen>, k: ClusterKey, src: string)
    requires src !in Hosts(Firsts(env, obs), k)
    ensures NewIds(env, obs, k, src) == {}
  {
    hide First;
    assert forall i :: 0 <= i < |obs| && First(env, obs, i) ==> obs[i].f in Firsts(env, obs);
  }

  lemma HostsMore(firsts: set<Finding>, f: Finding, k: ClusterKey)
    ensures Hosts(firsts + {f}, k) == Hosts(firsts, k) + if KeyOf(f) == k then {f.src} else {}
  {
    forall src | src in Hosts(firsts, k)
      ensures src in Hosts(firsts + {f}, k)
    {
      var g :| g in firsts && KeyOf(g) == k && g.src == src;
      assert g in firsts + {f};
    }
    assert f in firsts + {f};
  }

  /** A finding that counts, joined to its cluster. */
  lemma JoinTells(parts: map<string, Participant>, env: Env, obs: seq<Seen>, o: Seen, k: ClusterKey)
    requires Tells(parts, env, obs, k) && First(env, obs + [o], |obs|) && KeyOf(o.f) == k
    ensures Tells(Join(parts, o), env, obs + [o], k)
  {
    hide First; hide Firsts; hide NewIds; hide TellsHost; hide Less; hide Hosts;
    var firsts := Firsts(env, obs);
    FirstsSnoc(env, obs, o);
    HostsMore(firsts, o.f, k);
    var after := Join(parts, o);
    forall src | src in after
      ensures TellsHost(after[src], Firsts(env, obs + [o]), NewIds(env, obs + [o], k, src), k, src)
    {
      NewIdsSnoc(env, obs, o, k, src);
      assert NewIds(env, obs, k, src) + {} == NewIds(env, obs, k, src);
      if src != o.f.src {
        HostElsewhere(parts[src], firsts, o.f, NewIds(env, obs, k, src), k, src);
      } else if src in parts {
        SameSrc(parts[src], firsts, NewIds(env, obs, k, src), k, src);
        HostAgain(parts[src], firsts, o, NewIds(env, obs, k, src), k, src);
      } else {
        NoIds(env, obs, k, src);
        HostOnce(firsts, o, k, src);
        NotEarlier(o.f.timestamp);
        assert NewIds(env, obs + [o], k, src) == if o.isNew then {o.f.id} else {};
      }
    }
  }

  lemma SameSrc(p: Participant, firsts: set<Finding>, ids: set<int>, k: ClusterKey, src: string)
    requires TellsHost(p, firsts, ids, k, src)
    ensures p.src == src
  {
  }

  lemma NotEarlier(t: string)
    ensures !Less(t, t)
  {
    LessTotal(t, t);
  }

  /** A finding that does not count, or belongs elsewhere, leaves the cluster as it was. */
  lemma OthersTell(parts: map<string, Participant>, env: Env, obs: seq<Seen>, o: Seen, k: ClusterKey)
    requires Tells(parts, env, obs, k) && !(First(env, obs + [o], |obs|) && KeyOf(o.f) == k)
    ensures Tells(parts, env, obs + [o], k)
  {
    hide First; hide Firsts; hide NewIds; hide TellsHost; hide Hosts;
    var firsts := Firsts(env, obs);
    FirstsSnoc(env, obs, o);
    HostsMore(firsts, o.f, k);
    assert firsts + {} == firsts;
    forall src | src in parts
      ensures TellsHost(parts[src], Firsts(env, obs + [o]), NewIds(env, obs + [o], k, src), k, src)
    {
      NewIdsSnoc(env, obs, o, k, src);
      assert NewIds(env, obs, k, src) + {} == NewIds(env, obs, k, src);
      if First(env, obs + [o], |obs|) {
        HostElsewhere(parts[src], firsts, o.f, NewIds(env, obs, k, src), k, src);
      }
    }
  }

  /** The table holds, for every cluster, its hosts with their onsets and one id of this run each. */
  lemma {:induction false} Collected(env: Env, obs: seq<Seen>, k: ClusterKey)
    ensures TableOf(env, obs).seen == Prints(env, obs)
    ensures Tells(PartsOf(TableOf(env, obs), k), env, obs, k)
    ensures k in TableOf(env, obs).clusters <==> Hosts(Firsts(env, obs), k) != {}
    decreases |obs|
  {
    hide First; hide Firsts; hide Tells; hide TableOf; hide Prints; hide Join; hide Takes; hide Hosts;
    if obs == [] {
      NothingCollected(env, k);
    } else {
      var init, o := obs[..|obs| - 1], obs[|obs| - 1];
      assert obs == init + [o];
      Collected(env, init, k);
      TableSnoc(env, init, o);
      PrintsSnoc(env, init, o);
      FirstLast(env, init, o);
      FirstsSnoc(env, init, o);
      HostsMore(Firsts(env, init), o.f, k);
      assert Firsts(env, init) + {} == Firsts(env, init);
      if First(env, init + [o], |init|) && KeyOf(o.f) == k {
        JoinTells(PartsOf(TableOf(env, init), k), env, init, o, k);
      } else {
        OthersTell(PartsOf(TableOf(env, init), k), env, init, o, k);
      }
    }
  }

  lemma NothingCollected(env: Env, k: ClusterKey)
    ensures TableOf(env, []) == Table(map[], {}) && Prints(env, []) == {} && Hosts(Firsts(env, []), k) == {}
    ensures Tells(map[], env, [], k)
  {
  }
}
