/** Which clusters become a multi-stage row, and what the row says. */
module StagingRows {
  import opened Text
  import opened Findings
  import opened TextOrder
  import opened Calendar
  import opened IntOrder
  import opened Staging

  datatype Params = Params(minHosts: int, maxDstSources: int, windowHours: real, score: int, scoreCorrob: int)

  /** The fixed layout means calendar time; what the parser makes of other text is left open. */
  function ParseTime(env: Env, s: string): Option<int> {
    if WellFormed(s) then Some(Seconds(MomentOf(s))) else env.lenient(s)
  }

  function OnsetSpreadHours(env: Env, earliest: string, latest: string): Option<real> {
    var e, l := ParseTime(env, earliest), ParseTime(env, latest);
    if e.None? || l.None? then None else Some((l.value - e.value) as real / 3600.0)
  }

  predicate WithinWindow(env: Env, params: Params, earliest: string, latest: string) {
    var spread := OnsetSpreadHours(env, earliest, latest);
    spread.Some? && spread.value <= params.windowHours
  }

  // ---- Participants in order of onset ----

  predicate Before(p: Participant, q: Participant) {
    Less(p.onset, q.onset) || (p.onset == q.onset && Less(p.src, q.src))
  }

  function Place(p: Participant, s: seq<Participant>): seq<Participant> {
    if s == [] || !Before(s[0], p) then [p] + s else [s[0]] + Place(p, s[1..])
  }

  function ByOnset(s: seq<Participant>): seq<Participant> {
    if s == [] then [] else Place(s[0], ByOnset(s[1..]))
  }

  predicate InOrder(s: seq<Participant>) {
    forall i, j :: 0 <= i < j < |s| ==> !Before(s[j], s[i])
  }

  lemma BeforeOrder(p: Participant, q: Participant, r: Participant)
    ensures !Before(p, p)
    ensures !Before(p, q) && !Before(q, r) ==> !Before(p, r)
    ensures Before(p, q) ==> !Before(q, p)
  {
    hide Less;
    LessTotal(p.onset, p.onset);
    LessTotal(p.src, p.src);
    LessTotal(p.onset, q.onset);
    LessTotal(p.src, q.src);
    if !Before(p, q) && !Before(q, r) {
      LessTotal(q.onset, r.onset);
      NotAfterTransitive(r.onset, q.onset, p.onset);
      if r.onset == q.onset == p.onset {
        NotAfterTransitive(r.src, q.src, p.src);
      }
    }
  }

  lemma OrderCons(p: Participant, s: seq<Participant>)
    requires InOrder(s) && (s != [] ==> !Before(s[0], p))
    ensures InOrder([p] + s)
  {
    hide Before;
    forall j | 0 <= j < |s|
      ensures !Before(s[j], p)
    {
      BeforeOrder(s[j], s[0], p);
    }
  }

  lemma {:induction false} PlaceOrders(p: Participant, s: seq<Participant>)
    requires InOrder(s)
    ensures InOrder(Place(p, s)) && multiset(Place(p, s)) == multiset(s) + multiset{p}
    ensures Place(p, s)[0] == if s == [] || !Before(s[0], p) then p else s[0]
  {
    hide Before;
    if s == [] || !Before(s[0], p) {
      OrderCons(p, s);
    } else {
      PlaceOrders(p, s[1..]);
      BeforeOrder(s[0], p, p);
      OrderCons(s[0], Place(p, s[1..]));
      assert s == [s[0]] + s[1..];
    }
  }

  lemma {:induction false} ByOnsetOrders(s: seq<Participant>)
    ensures InOrder(ByOnset(s)) && multiset(ByOnset(s)) == multiset(s)
  {
    hide Place; hide Before;
    if s != [] {
      ByOnsetOrders(s[1..]);
      PlaceOrders(s[0], ByOnset(s[1..]));
      assert s == [s[0]] + s[1..];
    }
  }

  /** The participants of a cluster, earliest onset first, ties by source. */
  method Order(parts: map<string, Participant>) returns (ordered: seq<Participant>)
    ensures InOrder(ordered) && |ordered| == |parts|
    ensures forall p :: p in ordered <==> p in parts.Values
  {
    var list: seq<Participant> := [];
    ghost var done: set<string> := {};
    var left := parts.Keys;
    while left != {}
      invariant done + left == parts.Keys && done !! left && |list| == |done|
      invariant forall p :: p in list <==> exists src :: src in done && parts[src] == p
      decreases |left|
    {
      var src :| src in left;
      list := list + [parts[src]];
      left := left - {src};
      done := done + {src};
    }
    assert done == parts.Keys;
    ByOnsetOrders(list);
    ordered := ByOnset(list);
    forall p
      ensures p in ordered <==> p in list
    {
      assert p in multiset(ordered) <==> p in multiset(list);
    }
  }

  // ---- What a row must say ----

  /** Patient zero: the host whose onset comes first, ties by name. */
  ghost predicate Seed(firsts: set<Finding>, k: ClusterKey, src: string, t: string) {
    && IsOnset(firsts, k, src, t)
    && forall h, u :: IsOnset(firsts, k, h, u) ==> Less(t, u) || (t == u && NotAfter(src, h))
  }

  ghost predicate Latest(firsts: set<Finding>, k: ClusterKey, t: string) {
    && (exists h :: IsOnset(firsts, k, h, t))
    && forall h, u :: IsOnset(firsts, k, h, u) ==> NotAfter(u, t)
  }

  /** Enough hosts, a destination rare enough, and onsets close enough together. */
  ghost predicate Stages(env: Env, params: Params, firsts: set<Finding>, k: ClusterKey) {
    && Hosts(firsts, k) != {} && |Hosts(firsts, k)| >= params.minHosts
    && env.sources(k.sensor, k.dst) <= params.maxDstSources
    && exists src, t, last ::
         Seed(firsts, k, src, t) && Latest(firsts, k, last) && WithinWindow(env, params, t, last)
  }

  /** A lateral hop between two participants, or a verdict on the destination itself. */
  predicate Corroborates(r: Finding, k: ClusterKey, hosts: set<string>) {
    if r.kind == "Lateral Movement" then r.sensor == k.sensor && r.src in hosts && r.dst in hosts
    else if r.kind == "TI Hit (IP)" then r.dst == k.dst || r.src == k.dst
    else (r.kind == "Malicious JA3" || r.kind == "Malicious JA4") && r.dst == k.dst
  }

  predicate Corroborated(related: seq<Finding>, k: ClusterKey, hosts: set<string>) {
    exists i :: 0 <= i < |related| && Corroborates(related[i], k, hosts)
  }

  /** Exactly a hop seen by the same sensor, an indicator at either end, or a malicious client towards the destination. */
  lemma CorroboratedIff(related: seq<Finding>, k: ClusterKey, hosts: set<string>)
    ensures Corroborated(related, k, hosts) <==>
      || (exists r :: r in related && r.kind == "Lateral Movement" && r.sensor == k.sensor && {r.src, r.dst} <= hosts)
      || (exists r :: r in related && r.kind == "TI Hit (IP)" && k.dst in {r.src, r.dst})
      || (exists r :: r in related && r.kind in {"Malicious JA3", "Malicious JA4"} && r.dst == k.dst)
  {
    assert Corroborated(related, k, hosts) <==> exists r :: r in related && Corroborates(r, k, hosts);
    assert "Lateral Movement"[0] == 'L' && "TI Hit (IP)"[0] == 'T' && "Malicious JA3"[0] == "Malicious JA4"[0] == 'M';
  }

  /** One id of this run for every host that has one, in ascending order. */
  ghost predicate LinksOk(ids: seq<int>, env: Env, obs: seq<Seen>, k: ClusterKey) {
    && NonDescending(ids) && |ids| <= |Hosts(Firsts(env, obs), k)|
    && (forall x :: x in ids ==> x != 0 && exists src :: src in Hosts(Firsts(env, obs), k) && x in NewIds(env, obs, k, src))
    && forall src :: src in Hosts(Firsts(env, obs), k) && (exists id :: id in NewIds(env, obs, k, src) && id != 0) ==>
         exists x :: x in ids && x in NewIds(env, obs, k, src)
  }

  ghost predicate IsRow(row: Finding, env: Env, params: Params, obs: seq<Seen>, related: seq<Finding>, k: ClusterKey) {
    var firsts := Firsts(env, obs);
    && row == Finding(0, MULTI_STAGE, row.score, row.src, k.dst, "", k.sensor, "", "", "", row.timestamp, row.correlations)
    && Seed(firsts, k, row.src, row.timestamp)
    && row.score == (if Corroborated(related, k, Hosts(firsts, k)) then params.scoreCorrob else params.score)
    && LinksOk(row.correlations, env, obs, k)
  }

  // ---- From the participants to the row ----

  lemma OneOnset(firsts: set<Finding>, k: ClusterKey, src: string, t: string, u: string)
    requires IsOnset(firsts, k, src, t) && IsOnset(firsts, k, src, u)
    ensures t == u
  {
    hide Less;
    LessTotal(t, u);
  }

  lemma OnsetOf(parts: map<string, Participant>, env: Env, obs: seq<Seen>, k: ClusterKey, src: string)
    requires Tells(parts, env, obs, k) && src in parts
    ensures parts[src].src == src && IsOnset(Firsts(env, obs), k, src, parts[src].onset)
  {
    hide Firsts; hide IsOnset; hide Hosts; hide NewIds;
    assert TellsHost(parts[src], Firsts(env, obs), NewIds(env, obs, k, src), k, src);
  }

  lemma HostOfOnset(firsts: set<Finding>, k: ClusterKey, src: string, t: string)
    requires IsOnset(firsts, k, src, t)
    ensures src in Hosts(firsts, k)
  {
  }

  /** Every host's onset is its participant's. */
  lemma ParticipantOf(parts: map<string, Participant>, env: Env, obs: seq<Seen>, k: ClusterKey, h: string, u: string)
    requires Tells(parts, env, obs, k) && IsOnset(Firsts(env, obs), k, h, u)
    ensures h in parts && parts[h].src == h && parts[h].onset == u
  {
    hide Firsts; hide IsOnset;
    HostOfOnset(Firsts(env, obs), k, h, u);
    OnsetOf(parts, env, obs, k, h);
    OneOnset(Firsts(env, obs), k, h, u, parts[h].onset);
  }

  lemma EndsFrame(parts: map<string, Participant>, ordered: seq<Participant>, env: Env, obs: seq<Seen>, k: ClusterKey)
    requires Tells(parts, env, obs, k) && ordered != [] && InOrder(ordered)
    requires forall p :: p in ordered <==> p in parts.Values
    ensures Seed(Firsts(env, obs), k, ordered[0].src, ordered[0].onset)
    ensures Latest(Firsts(env, obs), k, ordered[|ordered| - 1].onset)
  {
    hide Firsts; hide IsOnset; hide Tells; hide Less;
    var firsts, first, last := Firsts(env, obs), ordered[0], ordered[|ordered| - 1];
    assert first in parts.Values && last in parts.Values;
    ValueTells(parts, first, env, obs, k);
    ValueTells(parts, last, env, obs, k);
    forall h, u | IsOnset(firsts, k, h, u)
      ensures (Less(first.onset, u) || (first.onset == u && NotAfter(first.src, h))) && NotAfter(u, last.onset)
    {
      ParticipantOf(parts, env, obs, k, h, u);
      assert parts[h] in parts.Values;
      var at :| 0 <= at < |ordered| && ordered[at] == parts[h];
      BeforeOrder(first, first, first);
      BeforeOrder(last, last, last);
      assert !Before(ordered[at], first) && !Before(last, ordered[at]);
      LessTotal(u, first.onset);
    }
  }

  lemma ValueTells(parts: map<string, Participant>, p: Participant, env: Env, obs: seq<Seen>, k: ClusterKey)
    requires Tells(parts, env, obs, k) && p in parts.Values
    ensures IsOnset(Firsts(env, obs), k, p.src, p.onset)
  {
    hide Firsts; hide IsOnset; hide Tells;
    var src :| src in parts && parts[src] == p;
    OnsetOf(parts, env, obs, k, src);
  }

  lemma OneSeed(firsts: set<Finding>, k: ClusterKey, src: string, t: string, src': string, t': string)
    requires Seed(firsts, k, src, t) && Seed(firsts, k, src', t')
    ensures src == src' && t == t'
  {
    hide IsOnset; hide Less;
    LessTotal(t, t');
    LessTotal(src, src');
  }

  lemma OneLatest(firsts: set<Finding>, k: ClusterKey, t: string, t': string)
    requires Latest(firsts, k, t) && Latest(firsts, k, t')
    ensures t == t'
  {
    hide IsOnset; hide Less;
    LessTotal(t, t');
  }

  /** The window test on the two ends decides for the cluster. */
  lemma WindowDecides(env: Env, params: Params, firsts: set<Finding>, k: ClusterKey, src: string, t: string, last: string)
    requires Seed(firsts, k, src, t) && Latest(firsts, k, last)
    ensures Stages(env, params, firsts, k) <==>
      && Hosts(firsts, k) != {} && |Hosts(firsts, k)| >= params.minHosts
      && env.sources(k.sensor, k.dst) <= params.maxDstSources && WithinWindow(env, params, t, last)
  {
    hide Seed; hide Latest; hide WithinWindow; hide Hosts;
    forall s, u, l | Seed(firsts, k, s, u) && Latest(firsts, k, l)
      ensures u == t && l == last
    {
      OneSeed(firsts, k, s, u, src, t);
      OneLatest(firsts, k, l, last);
    }
  }

  method StagingCorroboration(related: seq<Finding>, k: ClusterKey, hosts: set<string>) returns (corroborated: bool)
    ensures corroborated == Corroborated(related, k, hosts)
  {
    hide Corroborates;
    for i := 0 to |related|
      invariant forall j :: 0 <= j < i ==> !Corroborates(related[j], k, hosts)
    {
      if Corroborates(related[i], k, hosts) {
        return true;
      }
    }
    corroborated := false;
  }

  /** The ids of this run to link, in ascending order. */
  method Links(ordered: seq<Participant>) returns (ids: seq<int>)
    ensures NonDescending(ids) && |ids| <= |ordered|
    ensures forall x :: x in ids ==> x != 0 && exists p :: p in ordered && p.freshId == x
    ensures forall p :: p in ordered && p.freshId != 0 ==> p.freshId in ids
  {
    var corr: seq<int> := [];
    for i := 0 to |ordered|
      invariant |corr| <= i
      invariant forall x :: x in corr ==> x != 0 && exists p :: p in ordered && p.freshId == x
      invariant forall j :: 0 <= j < i && ordered[j].freshId != 0 ==> ordered[j].freshId in corr
    {
      if ordered[i].freshId != 0 {
        assert ordered[i] in ordered;
        corr := corr + [ordered[i].freshId];
      }
    }
    SortedOrders(corr);
    ids := Sorted(corr);
    assert |ids| == |multiset(ids)| && |corr| == |multiset(corr)|;
    forall x
      ensures x in ids <==> x in corr
    {
      assert x in multiset(ids) <==> x in multiset(corr);
    }
  }

  lemma LinksRight(ids: seq<int>, ordered: seq<Participant>, parts: map<string, Participant>, env: Env, obs: seq<Seen>, k: ClusterKey)
    requires Tells(parts, env, obs, k) && |ordered| == |parts|
    requires forall p :: p in ordered <==> p in parts.Values
    requires NonDescending(ids) && |ids| <= |ordered|
    requires forall x :: x in ids ==> x != 0 && exists p :: p in ordered && p.freshId == x
    requires forall p :: p in ordered && p.freshId != 0 ==> p.freshId in ids
    ensures LinksOk(ids, env, obs, k)
  {
    hide Firsts; hide Hosts; hide NewIds; hide NonDescending; hide IsOnset;
    assert |parts.Keys| == |parts|;
    forall x | x in ids
      ensures exists src :: src in Hosts(Firsts(env, obs), k) && x in NewIds(env, obs, k, src)
    {
      var p :| p in ordered && p.freshId == x;
      var src :| src in parts && parts[src] == p;
      assert TellsHost(parts[src], Firsts(env, obs), NewIds(env, obs, k, src), k, src);
    }
    forall src | src in Hosts(Firsts(env, obs), k) && (exists id :: id in NewIds(env, obs, k, src) && id != 0)
      ensures exists x :: x in ids && x in NewIds(env, obs, k, src)
    {
      assert TellsHost(parts[src], Firsts(env, obs), NewIds(env, obs, k, src), k, src);
      assert parts[src] in parts.Values;
      assert parts[src].freshId in ids;
    }
  }

  /** Decides one cluster and builds its row. */
  method StageCluster(env: Env, params: Params, k: ClusterKey, parts: map<string, Participant>, related: seq<Finding>, ghost obs: seq<Seen>)
    returns (row: Option<Finding>)
    requires Tells(parts, env, obs, k) && Hosts(Firsts(env, obs), k) != {}
    ensures row.Some? <==> Stages(env, params, Firsts(env, obs), k)
    ensures row.Some? ==> IsRow(row.value, env, params, obs, related, k)
  {
    hide Firsts; hide IsOnset; hide WithinWindow; hide Corroborated; hide LinksOk;
    assert parts.Keys == Hosts(Firsts(env, obs), k);
    assert |parts| == |parts.Keys|;
    ghost var hosts := Hosts(Firsts(env, obs), k);
    hide Hosts;
    if |parts| < params.minHosts || env.sources(k.sensor, k.dst) > params.maxDstSources {
      return None;
    }
    var ordered := Order(parts);
    EndsFrame(parts, ordered, env, obs, k);
    var seed, last := ordered[0], ordered[|ordered| - 1];
    WindowDecides(env, params, Firsts(env, obs), k, seed.src, seed.onset, last.onset);
    hide Seed; hide Latest; hide Stages;
    if !WithinWindow(env, params, seed.onset, last.onset) {
      return None;
    }
    var corroborated := StagingCorroboration(related, k, parts.Keys);
    var corr := Links(ordered);
    LinksRight(corr, ordered, parts, env, obs, k);
    row := Some(Finding(0, MULTI_STAGE, if corroborated then params.scoreCorrob else params.score,
                        seed.src, k.dst, "", k.sensor, "", "", "", seed.onset, corr));
  }

  predicate HasRow(rows: seq<Finding>, k: ClusterKey) {
    exists i :: 0 <= i < |rows| && KeyOf(rows[i]) == k
  }

  lemma RowAdded(rows: seq<Finding>, row: Finding, k: ClusterKey)
    ensures HasRow(rows + [row], k) <==> HasRow(rows, k) || k == KeyOf(row)
  {
    var more := rows + [row];
    assert more[|rows|] == row;
    if HasRow(rows, k) {
      var i :| 0 <= i < |rows| && KeyOf(rows[i]) == k;
      assert more[i] == rows[i];
    }
  }

  lemma NoRows()
    ensures forall k :: !HasRow([], k)
  {
  }

  lemma RowKey(row: Finding, env: Env, params: Params, obs: seq<Seen>, related: seq<Finding>, k: ClusterKey)
    requires IsRow(row, env, params, obs, related, k)
    ensures KeyOf(row) == k
  {
  }

  /** A row of this phase is never evidence for it. */
  lemma RowIsNoEvidence(row: Finding, env: Env, params: Params, obs: seq<Seen>, related: seq<Finding>, k: ClusterKey)
    requires IsRow(row, env, params, obs, related, k)
    ensures IsRollup(row.kind) && !Takes(env, row)
  {
    hide LinksOk; hide Seed; hide Corroborated; hide Firsts; hide Hosts;
  }

  /** One row for each cluster that qualifies, and for no other. */
  method ComputeStaging(env: Env, params: Params, recent: seq<Finding>, hist: seq<Finding>, related: seq<Finding>)
    returns (rows: seq<Finding>)
    ensures forall i, j :: 0 <= i < j < |rows| ==> KeyOf(rows[i]) != KeyOf(rows[j])
    ensures forall k :: HasRow(rows, k) <==> Stages(env, params, Firsts(env, SeenOf(recent, hist)), k)
    ensures forall i :: 0 <= i < |rows| ==> IsRow(rows[i], env, params, SeenOf(recent, hist), related, KeyOf(rows[i]))
  {
    hide IsRow; hide Tells; hide TableOf; hide Prints; hide Firsts; hide Hosts; hide Seed; hide Latest; hide SeenOf; hide Stages;
    hide HasRow;
    ghost var obs := SeenOf(recent, hist);
    var table := Collect(env, recent, hist);
    rows := [];
    NoRows();
    var left := table.clusters.Keys;
    while left != {}
      invariant left <= table.clusters.Keys
      invariant forall i, j :: 0 <= i < j < |rows| ==> KeyOf(rows[i]) != KeyOf(rows[j])
      invariant forall i :: 0 <= i < |rows| ==> KeyOf(rows[i]) !in left
      invariant forall k :: HasRow(rows, k) <==>
        k in table.clusters && k !in left && Stages(env, params, Firsts(env, obs), k)
      invariant forall i :: 0 <= i < |rows| ==> IsRow(rows[i], env, params, obs, related, KeyOf(rows[i]))
      decreases |left|
    {
      var k :| k in left;
      left := left - {k};
      Collected(env, obs, k);
      var row := StageCluster(env, params, k, table.clusters[k], related, obs);
      if row.Some? {
        RowKey(row.value, env, params, obs, related, k);
        forall l
          ensures HasRow(rows + [row.value], l) <==> HasRow(rows, l) || l == k
        {
          RowAdded(rows, row.value, l);
        }
        rows := rows + [row.value];
      }
    }
    forall k | Stages(env, params, Firsts(env, obs), k)
      ensures k in table.clusters
    {
      Collected(env, obs, k);
      StagesHasHosts(env, params, Firsts(env, obs), k);
    }
  }

  /** A finding about somebody beaconing to an external destination, whether or not an earlier one repeats it. */
  predicate Beacons(env: Env, f: Finding, k: ClusterKey) {
    && f.kind in {"Beacon", "HTTP Beacon", "DNS Beacon", "Port-Hopping Beacon"}
    && f.src != "" && f.dst == k.dst != "" && f.sensor == k.sensor && f.timestamp != "" && !env.private(f.dst)
  }

  /** Dropping repeats loses no host: a cluster's hosts are the sources of all findings about beaconing to it. */
  lemma HostsBeacon(env: Env, recent: seq<Finding>, hist: seq<Finding>, k: ClusterKey, src: string)
    ensures src in Hosts(Firsts(env, SeenOf(recent, hist)), k)
      <==> exists f :: (f in recent || f in hist) && Beacons(env, f, k) && f.src == src
  {
    var obs := SeenOf(recent, hist);
    BeaconsIff(env, k);
    hide Takes; hide Beacons; hide FingerprintOf;
    forall f | (f in recent || f in hist) && Beacons(env, f, k) && f.src == src
      ensures src in Hosts(Firsts(env, obs), k)
    {
      var i := Observed(recent, hist, f);
      var j := FirstLike(env, obs, i);
      SameEnds(obs[j].f, f);
      assert obs[j].f in Firsts(env, obs);
    }
    hide SeenOf;
    if src in Hosts(Firsts(env, obs), k) {
      var i :| 0 <= i < |obs| && First(env, obs, i) && KeyOf(obs[i].f) == k && obs[i].f.src == src;
      ObservedBack(recent, hist, i);
    }
  }

  lemma BeaconsIff(env: Env, k: ClusterKey)
    ensures forall f: Finding :: Beacons(env, f, k) <==> Takes(env, f) && KeyOf(f) == k
  {
  }

  lemma SameEnds(f: Finding, g: Finding)
    requires FingerprintOf(f) == FingerprintOf(g)
    ensures KeyOf(f) == KeyOf(g) && f.src == g.src
  {
  }

  lemma Observed(recent: seq<Finding>, hist: seq<Finding>, f: Finding) returns (i: nat)
    requires f in recent || f in hist
    ensures i < |SeenOf(recent, hist)| && SeenOf(recent, hist)[i].f == f
  {
    if f in recent {
      i :| 0 <= i < |recent| && recent[i] == f;
    } else {
      var j :| 0 <= j < |hist| && hist[j] == f;
      i := |recent| + j;
    }
  }

  lemma ObservedBack(recent: seq<Finding>, hist: seq<Finding>, i: nat)
    requires i < |SeenOf(recent, hist)|
    ensures SeenOf(recent, hist)[i].f in recent || SeenOf(recent, hist)[i].f in hist
  {
  }

  /** A taken finding is, or repeats, one that counts. */
  lemma {:induction false} FirstLike(env: Env, obs: seq<Seen>, i: nat) returns (j: nat)
    requires i < |obs| && Takes(env, obs[i].f)
    ensures First(env, obs, j) && FingerprintOf(obs[j].f) == FingerprintOf(obs[i].f)
  {
    hide Takes; hide FingerprintOf;
    j := i;
    if !First(env, obs, i) {
      var h :| 0 <= h < i && Takes(env, obs[h].f) && FingerprintOf(obs[h].f) == FingerprintOf(obs[i].f);
      j := FirstLike(env, obs, h);
    }
  }

  lemma StagesHasHosts(env: Env, params: Params, firsts: set<Finding>, k: ClusterKey)
    requires Stages(env, params, firsts, k)
    ensures Hosts(firsts, k) != {}
  {
  }

  // ---- The rows do not depend on the order of the findings ----

  predicate DistinctPrints(env: Env, s: seq<Finding>) {
    forall i, j :: 0 <= i < j < |s| && Takes(env, s[i]) && Takes(env, s[j]) ==> FingerprintOf(s[i]) != FingerprintOf(s[j])
  }

  /** The findings that count when no list repeats a fingerprint: all of this run's, and the stored ones it does not repeat. */
  function Counted(env: Env, recent: multiset<Finding>, hist: multiset<Finding>): set<Finding> {
    (set f | f in recent && Takes(env, f))
    + set f | f in hist && Takes(env, f) && (forall g :: g in recent && Takes(env, g) ==> FingerprintOf(g) != FingerprintOf(f))
  }

  lemma RecentAt(env: Env, recent: seq<Finding>, hist: seq<Finding>, i: nat)
    requires DistinctPrints(env, recent) && i < |recent|
    ensures SeenOf(recent, hist)[i].f == recent[i]
    ensures First(env, SeenOf(recent, hist), i) <==> Takes(env, recent[i])
  {
    hide Takes; hide FingerprintOf;
  }

  lemma StoredAt(env: Env, recent: seq<Finding>, hist: seq<Finding>, i: nat)
    requires DistinctPrints(env, hist) && i < |hist|
    ensures SeenOf(recent, hist)[i + |recent|] == Seen(hist[i], false)
    ensures First(env, SeenOf(recent, hist), i + |recent|) <==>
      Takes(env, hist[i]) && forall g :: g in recent && Takes(env, g) ==> FingerprintOf(g) != FingerprintOf(hist[i])
  {
    hide Takes; hide FingerprintOf;
    var obs := SeenOf(recent, hist);
    forall j | 0 <= j < i + |recent|
      ensures obs[j].f == if j < |recent| then recent[j] else hist[j - |recent|]
    {
      if j >= |recent| {
        assert obs[(j - |recent|) + |recent|] == Seen(hist[j - |recent|], false);
      }
    }
    if First(env, obs, i + |recent|) {
      forall g | g in recent && Takes(env, g)
        ensures FingerprintOf(g) != FingerprintOf(hist[i])
      {
        var j :| 0 <= j < |recent| && recent[j] == g;
        assert obs[j].f == g;
      }
    }
  }

  lemma FirstsAreCounted(env: Env, recent: seq<Finding>, hist: seq<Finding>)
    requires DistinctPrints(env, recent) && DistinctPrints(env, hist)
    ensures Firsts(env, SeenOf(recent, hist)) == Counted(env, multiset(recent), multiset(hist))
  {
    hide Takes; hide FingerprintOf; hide First; hide DistinctPrints; hide SeenOf;
    var obs, firsts, counted := SeenOf(recent, hist), Firsts(env, SeenOf(recent, hist)), Counted(env, multiset(recent), multiset(hist));
    forall f | f in firsts
      ensures f in counted
    {
      var i :| 0 <= i < |obs| && First(env, obs, i) && obs[i].f == f;
      if i < |recent| {
        RecentAt(env, recent, hist, i);
      } else {
        StoredAt(env, recent, hist, i - |recent|);
      }
    }
    forall f | f in counted
      ensures f in firsts
    {
      if f in recent && Takes(env, f) {
        var i :| 0 <= i < |recent| && recent[i] == f;
        RecentAt(env, recent, hist, i);
      } else {
        var i :| 0 <= i < |hist| && hist[i] == f;
        StoredAt(env, recent, hist, i);
      }
    }
  }

  /**
   Reordering either list changes neither which clusters are staged nor what their rows
   say, apart from which of a host's ids is linked.
   */
  lemma OrderIrrelevant(env: Env, params: Params, recent: seq<Finding>, hist: seq<Finding>, recent': seq<Finding>, hist': seq<Finding>,
                        related: seq<Finding>, related': seq<Finding>, k: ClusterKey, row: Finding, row': Finding)
    requires multiset(recent) == multiset(recent') && multiset(hist) == multiset(hist') && multiset(related) == multiset(related')
    requires DistinctPrints(env, recent) && DistinctPrints(env, hist)
    requires DistinctPrints(env, recent') && DistinctPrints(env, hist')
    ensures Stages(env, params, Firsts(env, SeenOf(recent, hist)), k) <==> Stages(env, params, Firsts(env, SeenOf(recent', hist')), k)
    ensures IsRow(row, env, params, SeenOf(recent, hist), related, k) && IsRow(row', env, params, SeenOf(recent', hist'), related', k) ==>
      row' == row.(correlations := row'.correlations)
  {
    hide Firsts; hide SeenOf; hide Counted; hide Seed; hide Latest; hide Hosts; hide LinksOk; hide Corroborated; hide DistinctPrints;
    FirstsAreCounted(env, recent, hist);
    FirstsAreCounted(env, recent', hist');
    var firsts := Firsts(env, SeenOf(recent, hist));
    SameVerdict(related, related', k, Hosts(firsts, k));
    if IsRow(row, env, params, SeenOf(recent, hist), related, k) && IsRow(row', env, params, SeenOf(recent', hist'), related', k) {
      OneSeed(firsts, k, row.src, row.timestamp, row'.src, row'.timestamp);
    }
  }

  lemma SameVerdict(related: seq<Finding>, related': seq<Finding>, k: ClusterKey, hosts: set<string>)
    requires multiset(related) == multiset(related')
    ensures Corroborated(related, k, hosts) == Corroborated(related', k, hosts)
  {
    hide Corroborates;
    assert forall r :: r in related <==> r in multiset(related);
    assert forall r :: r in related' <==> r in multiset(related');
    assert Corroborated(related, k, hosts) <==> exists r :: r in related && Corroborates(r, k, hosts);
    assert Corroborated(related', k, hosts) <==> exists r :: r in related' && Corroborates(r, k, hosts);
  }

  // ---- In calendar time ----

  function TimeOf(f: Finding): int
    requires WellFormed(f.timestamp)
  {
    Seconds(MomentOf(f.timestamp))
  }

  lemma NotAfterIsTime(s: string, t: string)
    requires WellFormed(s) && WellFormed(t)
    ensures NotAfter(s, t) <==> Seconds(MomentOf(s)) <= Seconds(MomentOf(t))
  {
    hide WellFormed; hide Less; hide Seconds;
    TextOrderIsTime(t, s);
  }

  /** Some host's onset is at or before each of its findings. */
  lemma {:induction false} OnsetExists(firsts: set<Finding>, k: ClusterKey, f: Finding) returns (t: string)
    requires f in firsts && KeyOf(f) == k
    ensures IsOnset(firsts, k, f.src, t) && NotAfter(t, f.timestamp)
    decreases |firsts|
  {
    hide NotAfter;
    NotAfterSelf(f.timestamp);
    t := f.timestamp;
    if g :| g in firsts && KeyOf(g) == k && g.src == f.src && !NotAfter(f.timestamp, g.timestamp) {
      var rest := firsts - {f};
      assert g in rest;
      t := OnsetExists(rest, k, g);
      LaterIsAfter(t, g.timestamp, f.timestamp);
      assert firsts == rest + {f};
      forall h | h in firsts && KeyOf(h) == k && h.src == f.src
        ensures NotAfter(t, h.timestamp)
      {
        assert h in rest || h == f;
      }
      var at :| at in rest && KeyOf(at) == k && at.src == f.src && at.timestamp == t;
      assert at in firsts;
    }
  }

  lemma NotAfterSelf(t: string)
    ensures NotAfter(t, t)
  {
    NotEarlier(t);
  }

  lemma LaterIsAfter(t: string, g: string, f: string)
    requires NotAfter(t, g) && !NotAfter(f, g)
    ensures NotAfter(t, f)
  {
    LessTotal(g, f);
    NotAfterTransitive(t, g, f);
  }

  /** Patient zero's time is the earliest of any counting finding towards the destination, leap years included. */
  lemma PatientZeroIsEarliest(firsts: set<Finding>, k: ClusterKey, src: string, t: string, f: Finding)
    requires Seed(firsts, k, src, t) && f in firsts && KeyOf(f) == k
    requires forall g :: g in firsts && KeyOf(g) == k ==> WellFormed(g.timestamp)
    ensures WellFormed(t) && Seconds(MomentOf(t)) <= TimeOf(f)
  {
    hide WellFormed; hide Seconds; hide Less;
    var u := OnsetExists(firsts, k, f);
    LessTotal(t, u);
    assert NotAfter(t, u);
    NotAfterTransitive(t, u, f.timestamp);
    NotAfterIsTime(t, f.timestamp);
  }

  /** A staged cluster's onsets, from first to last, span no more than the window of calendar time. */
  lemma WindowIsCalendarTime(env: Env, params: Params, firsts: set<Finding>, k: ClusterKey, src: string, t: string, last: string)
    requires Seed(firsts, k, src, t) && Latest(firsts, k, last)
    requires forall g :: g in firsts && KeyOf(g) == k ==> WellFormed(g.timestamp)
    ensures WellFormed(t) && WellFormed(last) && Seconds(MomentOf(t)) <= Seconds(MomentOf(last))
    ensures Stages(env, params, firsts, k) <==>
      && Hosts(firsts, k) != {} && |Hosts(firsts, k)| >= params.minHosts && env.sources(k.sensor, k.dst) <= params.maxDstSources
      && (Seconds(MomentOf(last)) - Seconds(MomentOf(t))) as real <= params.windowHours * 3600.0
  {
    WindowDecides(env, params, firsts, k, src, t, last);
    hide Seconds; hide Stages; hide Hosts; hide WellFormed;
    assert NotAfter(t, last) by {
      hide NotAfter;
      assert IsOnset(firsts, k, src, t);
    }
    NotAfterIsTime(t, last);
    InHours(Seconds(MomentOf(last)) - Seconds(MomentOf(t)), params.windowHours);
  }

  lemma InHours(seconds: int, hours: real)
    ensures seconds as real / 3600.0 <= hours <==> seconds as real <= hours * 3600.0
  {
  }
}
