/** From feed hits and observations to the findings of the threat-intelligence phase. */
module ThreatIntelRows {
  import opened Text
  import opened Findings
  import opened ThreatIntel
  import opened ThreatIntelOrder

  // ---- The two sweeps read records alike ----

  /** A destination the first sweep collects is the one the second attributes. */
  lemma SweepsAgree(env: Env, r: Record)
    ensures SweptTarget(env, r).Some? ==>
      ContactOf(env, r).Some? && ContactOf(env, r).value.target == SweptTarget(env, r).value
  {
  }

  /** Records the first sweep passes over: ssl, internal or infrastructure addresses, lookups of addresses, placeholders. */
  predicate PassedOver(env: Env, r: Record) {
    || r.Ssl?
    || (r.Conn? && !env.isIp(r.dst))
    || (r.Dns? && (env.queryName(r.query) == "" || env.isIp(env.queryName(r.query))))
    || (r.Known? && r.dst in {"(network)", "(escalation)", "(cert)"})
    || ((r.Conn? || r.Known?) && (r.dst == "" || env.private(r.dst) || env.localInfra(r.dst)))
  }

  /** The first sweep collects exactly the targets of the contacts it does not pass over. */
  lemma SweptIff(env: Env, records: seq<Record>, t: Target)
    ensures t in Swept(env, records) <==>
      exists r :: r in records && !PassedOver(env, r) && ContactOf(env, r).Some? && ContactOf(env, r).value.target == t
  {
    forall r: Record
      ensures SweptTarget(env, r).Some? <==> !PassedOver(env, r) && ContactOf(env, r).Some?
    {
    }
    forall r: Record | SweptTarget(env, r).Some?
      ensures ContactOf(env, r).Some? && ContactOf(env, r).value.target == SweptTarget(env, r).value
    {
      SweepsAgree(env, r);
    }
    hide SweptTarget; hide ContactOf; hide PassedOver;
    assert t in Swept(env, records) <==> exists r :: r in records && SweptTarget(env, r) == Some(t);
  }

  /** Hits name only their destination; its kind is recovered by parsing it again. */
  function TargetOf(env: Env, dst: string): Target {
    Target(env.isIp(dst), dst)
  }

  /** ... which gives back the target the first sweep had, provided lower-casing never makes or breaks an address. */
  lemma HitsNameTargets(env: Env, records: seq<Record>, t: Target)
    requires t in Swept(env, records) && forall s :: env.isIp(env.lower(s)) == env.isIp(s)
    ensures TargetOf(env, t.name) == t
  {
    var i :| 0 <= i < |records| && SweptTarget(env, records[i]).Some? && SweptTarget(env, records[i]).value == t;
    assert records[i].Known? ==> env.isIp(env.lower(records[i].dst)) == env.isIp(records[i].dst);
  }

  // ---- The targeted sweep, log by log ----

  function StageOf(r: Record): nat {
    match r
    case Conn(_, _, _, _) => CONN
    case Ssl(_, _, _, _) => SSL
    case Dns(_, _, _, _) => DNS
    case Http(_, _, _, _, _) => HTTP
    case Known(_, _, _) => KNOWN
  }

  predicate OfStage(files: seq<seq<Record>>, stage: nat) {
    forall i, j :: 0 <= i < |files| && 0 <= j < |files[i]| ==> StageOf(files[i][j]) == stage
  }

  lemma {:induction false} ContactsStage(env: Env, records: seq<Record>, stage: nat, c: Contact)
    requires forall j :: 0 <= j < |records| ==> StageOf(records[j]) == stage
    requires c in ContactsOf(env, records)
    ensures c.stage == stage
  {
    if records != [] && c !in OneContact(env, records[0]) {
      ContactsStage(env, records[1..], stage, c);
    }
  }

  lemma {:induction false} PoolStage(env: Env, files: seq<seq<Record>>, stage: nat, c: Contact)
    requires OfStage(files, stage) && c in Pool(env, files)
    ensures c.stage == stage
  {
    if files != [] {
      if c in ContactsOf(env, files[0]) {
        ContactsStage(env, files[0], stage, c);
      } else {
        PoolStage(env, files[1..], stage, c);
      }
    }
  }

  /** What the sweep has recorded after some of its logs. */
  ghost predicate SweptSoFar(table: Table, filter: Filter, order: seq<Contact>, pool: multiset<Contact>, stage: int) {
    && table == AllNoted(filter, map[], order) && Barriered(order) && multiset(order) == pool
    && forall c :: c in order ==> c.stage <= stage
  }

  lemma NextLog(env: Env, filter: Filter, before: Table, order: seq<Contact>, pool: multiset<Contact>, stage: int,
                files: seq<seq<Record>>, next: nat, more: seq<Contact>)
    requires SweptSoFar(before, filter, order, pool, stage) && stage < next && OfStage(files, next)
    requires multiset(more) == Pool(env, files)
    ensures SweptSoFar(AllNoted(filter, before, more), filter, order + more, pool + Pool(env, files), next)
  {
    hide AllNoted; hide Pool;
    NotedConcat(filter, map[], order, more);
    forall c | c in more
      ensures c.stage == next
    {
      assert c in multiset(more);
      PoolStage(env, files, next, c);
    }
    assert forall i :: 0 <= i < |order| ==> order[i] in order;
    assert forall i :: 0 <= i < |more| ==> more[i] in more;
  }

  lemma NothingSwept(filter: Filter)
    ensures SweptSoFar(map[], filter, [], multiset{}, -1)
  {
  }

  /** An order in which the contacts of the logs can be recorded: log by log, freely mixed within each. */
  ghost predicate SweepOrder(env: Env, order: seq<Contact>, conns: seq<seq<Record>>, ssls: seq<seq<Record>>, dns: seq<seq<Record>>,
                             https: seq<seq<Record>>, known: seq<Record>) {
    && Barriered(order)
    && multiset(order) == Pool(env, conns) + Pool(env, ssls) + Pool(env, dns) + Pool(env, https) + Pool(env, [known])
  }

  /** The logs one after another, each with all its workers; the findings already made come last. */
  method TargetedSweep(env: Env, filter: Filter, conns: seq<seq<Record>>, ssls: seq<seq<Record>>, dns: seq<seq<Record>>,
                       https: seq<seq<Record>>, known: seq<Record>)
    returns (table: Table)
    requires OfStage(conns, CONN) && OfStage(ssls, SSL) && OfStage(dns, DNS) && OfStage(https, HTTP) && OfStage([known], KNOWN)
    ensures exists order :: SweepOrder(env, order, conns, ssls, dns, https, known) && table == AllNoted(filter, map[], order)
  {
    NothingSwept(filter);
    hide SweptSoFar; hide Pool; hide AllNoted; hide OfStage; hide Barriered;
    ghost var order: seq<Contact> := [];
    ghost var pool: multiset<Contact> := multiset{};
    var collector := new Collector(filter);
    var more := collector.Scan(env, conns);
    NextLog(env, filter, map[], order, pool, -1, conns, CONN, more);
    order, pool := order + more, pool + Pool(env, conns);
    ghost var was := collector.table;
    more := collector.Scan(env, ssls);
    NextLog(env, filter, was, order, pool, CONN, ssls, SSL, more);
    order, pool, was := order + more, pool + Pool(env, ssls), collector.table;
    more := collector.Scan(env, dns);
    NextLog(env, filter, was, order, pool, SSL, dns, DNS, more);
    order, pool, was := order + more, pool + Pool(env, dns), collector.table;
    more := collector.Scan(env, https);
    NextLog(env, filter, was, order, pool, DNS, https, HTTP, more);
    order, pool, was := order + more, pool + Pool(env, https), collector.table;
    more := collector.Scan(env, [known]);
    NextLog(env, filter, was, order, pool, HTTP, [known], KNOWN, more);
    order, pool := order + more, pool + Pool(env, [known]);
    table := collector.table;
    SweptMeans(table, filter, order, pool, KNOWN);
    assert pool == Pool(env, conns) + Pool(env, ssls) + Pool(env, dns) + Pool(env, https) + Pool(env, [known]);
    assert SweepOrder(env, order, conns, ssls, dns, https, known);
  }

  lemma SweptMeans(table: Table, filter: Filter, order: seq<Contact>, pool: multiset<Contact>, stage: int)
    requires SweptSoFar(table, filter, order, pool, stage)
    ensures table == AllNoted(filter, map[], order) && Barriered(order) && multiset(order) == pool
  {
  }

  // ---- Merging hits ----

  datatype Hit = Hit(dst: string, score: int, severity: string)

  /** One entry per destination, with the highest score and that hit's severity. */
  ghost predicate MergedOf(merged: map<string, Hit>, hits: seq<Hit>) {
    && (forall dst :: dst in merged ==>
          && merged[dst].dst == dst
          && (exists h :: h in hits && h == merged[dst])
          && forall h :: h in hits && h.dst == dst ==> h.score <= merged[dst].score)
    && forall h :: h in hits ==> h.dst in merged
  }

  method MergeHits(hits: seq<Hit>) returns (merged: map<string, Hit>)
    ensures MergedOf(merged, hits)
  {
    merged := map[];
    for i := 0 to |hits|
      invariant MergedOf(merged, hits[..i])
    {
      var h := hits[i];
      assert hits[..i + 1] == hits[..i] + [h];
      assert forall g :: g in hits[..i + 1] <==> g in hits[..i] || g == h;
      if h.dst !in merged {
        merged := merged[h.dst := h];
      } else if h.score > merged[h.dst].score {
        merged := merged[h.dst := merged[h.dst].(score := h.score, severity := h.severity)];
      }
    }
    assert hits[..|hits|] == hits;
  }

  // ---- Emitting ----

  datatype Clock = Clock(now: string, format: real -> string)

  function PortOf(isIp: bool, o: Observation): string {
    if isIp || o.port != "" then o.port
    else if o.proto == "dns" then "53"
    else if o.proto == "http" then "80"
    else ""
  }

  function RowOf(env: Env, clock: Clock, h: Hit, src: string, o: Observation): Finding {
    var isIp := env.isIp(h.dst);
    Finding(0, if isIp then "TI Hit (IP)" else "TI Hit (Domain)", h.score, src, h.dst, PortOf(isIp, o), "", "", "", "",
            if o.ts > 0.0 then clock.format(o.ts) else clock.now, [])
  }

  /** The placeholder source of a hit nobody was seen to contact. */
  const NOBODY: string := "(TI)"

  function Unattributed(env: Env, clock: Clock, h: Hit): Finding {
    Finding(0, if env.isIp(h.dst) then "TI Hit (IP)" else "TI Hit (Domain)", h.score, NOBODY, h.dst, "", "", "", "", "", clock.now, [])
  }

  /** The row a finding may be: one per hit destination and source, or the placeholder when there is no source. */
  ghost predicate IsRow(row: Finding, env: Env, clock: Clock, merged: map<string, Hit>, table: Table) {
    && row.dst in merged
    && var bySrc := BySource(table, TargetOf(env, row.dst));
       if bySrc == map[] then row == Unattributed(env, clock, merged[row.dst])
       else row.src in bySrc && row == RowOf(env, clock, merged[row.dst], row.src, bySrc[row.src])
  }

  predicate DistinctPairs(rows: seq<Finding>) {
    forall i, j :: 0 <= i < j < |rows| ==> rows[i].dst != rows[j].dst || rows[i].src != rows[j].src
  }

  predicate HasPair(rows: seq<Finding>, dst: string, src: string) {
    exists i :: 0 <= i < |rows| && rows[i].dst == dst && rows[i].src == src
  }

  /** A hit's sources are all there, or its placeholder. */
  ghost predicate Covers(rows: seq<Finding>, env: Env, table: Table, dst: string) {
    var bySrc := BySource(table, TargetOf(env, dst));
    if bySrc == map[] then HasPair(rows, dst, NOBODY) else forall src :: src in bySrc ==> HasPair(rows, dst, src)
  }

  ghost predicate RowsOfHit(rows: seq<Finding>, env: Env, clock: Clock, merged: map<string, Hit>, table: Table, dst: string) {
    && (forall i :: 0 <= i < |rows| ==> rows[i].dst == dst && IsRow(rows[i], env, clock, merged, table))
    && DistinctPairs(rows) && Covers(rows, env, table, dst)
  }

  /** The rows of one hit: one for each source that contacted it, or the placeholder alone. */
  method EmitHit(env: Env, clock: Clock, merged: map<string, Hit>, table: Table, dst: string) returns (rows: seq<Finding>)
    requires dst in merged && merged[dst].dst == dst
    ensures RowsOfHit(rows, env, clock, merged, table, dst)
  {
    hide PortOf;
    var h, bySrc := merged[dst], BySource(table, TargetOf(env, dst));
    if bySrc == map[] {
      rows := [Unattributed(env, clock, h)];
      assert rows[0].dst == dst;
      return;
    }
    rows := [];
    var left := bySrc.Keys;
    while left != {}
      invariant left <= bySrc.Keys && DistinctPairs(rows)
      invariant forall i :: 0 <= i < |rows| ==>
        rows[i].dst == dst && rows[i].src !in left && IsRow(rows[i], env, clock, merged, table)
      invariant forall src :: src in bySrc && src !in left ==> HasPair(rows, dst, src)
      decreases |left|
    {
      var src :| src in left;
      left := left - {src};
      PairsGrow(rows, RowOf(env, clock, h, src, bySrc[src]));
      rows := rows + [RowOf(env, clock, h, src, bySrc[src])];
    }
    assert exists src :: src in bySrc;
  }

  lemma PairsGrow(rows: seq<Finding>, row: Finding)
    ensures HasPair(rows + [row], row.dst, row.src)
    ensures forall dst, src :: HasPair(rows, dst, src) ==> HasPair(rows + [row], dst, src)
  {
    var more := rows + [row];
    assert more[|rows|] == row;
    forall dst, src | HasPair(rows, dst, src)
      ensures HasPair(more, dst, src)
    {
      var i :| 0 <= i < |rows| && rows[i].dst == dst && rows[i].src == src;
      assert more[i] == rows[i];
    }
  }

  lemma PairsJoin(rows: seq<Finding>, more: seq<Finding>, dst: string)
    requires DistinctPairs(rows) && DistinctPairs(more)
    requires forall i :: 0 <= i < |rows| ==> rows[i].dst != dst
    requires forall i :: 0 <= i < |more| ==> more[i].dst == dst
    ensures DistinctPairs(rows + more)
  {
  }

  lemma PairKept(rows: seq<Finding>, more: seq<Finding>, dst: string, src: string)
    requires HasPair(rows, dst, src) || HasPair(more, dst, src)
    ensures HasPair(rows + more, dst, src)
  {
    var all := rows + more;
    if HasPair(rows, dst, src) {
      var i :| 0 <= i < |rows| && rows[i].dst == dst && rows[i].src == src;
      assert all[i] == rows[i];
    } else {
      var i :| 0 <= i < |more| && more[i].dst == dst && more[i].src == src;
      assert all[|rows| + i] == more[i];
    }
  }

  lemma CoversKept(rows: seq<Finding>, more: seq<Finding>, env: Env, table: Table, dst: string)
    requires Covers(rows, env, table, dst) || Covers(more, env, table, dst)
    ensures Covers(rows + more, env, table, dst)
  {
    hide HasPair;
    var bySrc := BySource(table, TargetOf(env, dst));
    if bySrc == map[] {
      PairKept(rows, more, dst, NOBODY);
    } else {
      forall src | src in bySrc
        ensures HasPair(rows + more, dst, src)
      {
        PairKept(rows, more, dst, src);
      }
    }
  }

  /** The rows of every hit destination but those left. */
  ghost predicate Emitted(rows: seq<Finding>, env: Env, clock: Clock, merged: map<string, Hit>, table: Table, left: set<string>) {
    && DistinctPairs(rows)
    && (forall i :: 0 <= i < |rows| ==> rows[i].dst !in left && IsRow(rows[i], env, clock, merged, table))
    && forall dst :: dst in merged && dst !in left ==> Covers(rows, env, table, dst)
  }

  lemma EmittedMore(rows: seq<Finding>, more: seq<Finding>, env: Env, clock: Clock, merged: map<string, Hit>, table: Table,
                    left: set<string>, dst: string)
    requires Emitted(rows, env, clock, merged, table, left) && dst in left
    requires RowsOfHit(more, env, clock, merged, table, dst)
    ensures Emitted(rows + more, env, clock, merged, table, left - {dst})
  {
    hide IsRow; hide DistinctPairs; hide Covers;
    PairsJoin(rows, more, dst);
    forall d | d in merged && d !in left - {dst}
      ensures Covers(rows + more, env, table, d)
    {
      CoversKept(rows, more, env, table, d);
    }
  }

  lemma NothingEmitted(env: Env, clock: Clock, merged: map<string, Hit>, table: Table)
    ensures Emitted([], env, clock, merged, table, merged.Keys)
  {
  }

  lemma AllEmitted(rows: seq<Finding>, env: Env, clock: Clock, merged: map<string, Hit>, table: Table, hits: seq<Hit>)
    requires Emitted(rows, env, clock, merged, table, {}) && forall h :: h in hits ==> h.dst in merged
    ensures DistinctPairs(rows)
    ensures forall i :: 0 <= i < |rows| ==> IsRow(rows[i], env, clock, merged, table)
    ensures forall h :: h in hits ==> Covers(rows, env, table, h.dst)
  {
    hide IsRow; hide DistinctPairs; hide Covers;
  }

  lemma MergedKeys(merged: map<string, Hit>, hits: seq<Hit>)
    requires MergedOf(merged, hits)
    ensures forall dst :: dst in merged ==> merged[dst].dst == dst
    ensures forall h :: h in hits ==> h.dst in merged
  {
  }

  /**
   One finding for each hit destination and each source that contacted it, a placeholder
   for a destination nobody contacted, and no two findings for the same pair.
   */
  method EmitRows(env: Env, clock: Clock, hits: seq<Hit>, table: Table) returns (rows: seq<Finding>, ghost merged: map<string, Hit>)
    ensures MergedOf(merged, hits) && DistinctPairs(rows)
    ensures forall i :: 0 <= i < |rows| ==> IsRow(rows[i], env, clock, merged, table)
    ensures forall h :: h in hits ==> Covers(rows, env, table, h.dst)
  {
    hide IsRow; hide HasPair; hide DistinctPairs; hide Covers; hide TargetOf; hide BySource; hide Emitted; hide RowsOfHit; hide MergedOf;
    var byDst := MergeHits(hits);
    MergedKeys(byDst, hits);
    merged := byDst;
    rows := [];
    NothingEmitted(env, clock, byDst, table);
    var left := byDst.Keys;
    while left != {}
      invariant left <= byDst.Keys && Emitted(rows, env, clock, byDst, table, left)
      decreases |left|
    {
      var dst :| dst in left;
      var more := EmitHit(env, clock, byDst, table, dst);
      EmittedMore(rows, more, env, clock, byDst, table, left, dst);
      rows, left := rows + more, left - {dst};
    }
    AllEmitted(rows, env, clock, byDst, table, hits);
  }

  /** No two emitted findings share an identity, so storing them can never collide. */
  lemma FingerprintsDistinct(rows: seq<Finding>, i: nat, j: nat)
    requires DistinctPairs(rows) && i < j < |rows|
    ensures FingerprintOf(rows[i]) != FingerprintOf(rows[j])
  {
  }

  // ---- What the rows say of the records ----

  /** The records of all five logs. */
  function Records(conns: seq<seq<Record>>, ssls: seq<seq<Record>>, dns: seq<seq<Record>>, https: seq<seq<Record>>,
                   known: seq<Record>): seq<Record> {
    Joined(conns) + Joined(ssls) + Joined(dns) + Joined(https) + known
  }

  function Joined(files: seq<seq<Record>>): seq<Record> {
    if files == [] then [] else files[0] + Joined(files[1..])
  }

  predicate Placeholder(src: string) {
    src == "(TI)" || src == "(network)" || src == "(escalation)" || src == "(cert)"
  }

  /**
   A record in which the source contacts the destination: the responder of a connection or an
   encrypted one, the name looked up, the host asked for, or the other end of a finding.
   */
  predicate Contacted(env: Env, r: Record, dst: string, src: string) {
    src != "" && match r
      case Conn(responder, originator, _, _) => env.isIp(dst) && responder == dst && originator == src
      case Ssl(responder, originator, _, _) => env.isIp(dst) && responder == dst && originator == src
      case Dns(query, originator, _, _) => !env.isIp(dst) && env.queryName(query) == dst && originator == src
      case Http(host, originator, _, _, _) => host != "" && dst != "" && env.hostName(host) == dst && originator == src
      case Known(other, reporter, _) =>
        && other != "" && !Placeholder(reporter) && reporter == src
        && if env.isIp(other) then other == dst else env.lower(other) == dst && !env.isIp(dst)
  }

  function WhenOf(r: Record): real {
    if r.Known? then 0.0 else r.ts
  }

  /** The port a record gives for its destination: a lookup has the port of its protocol. */
  function PortSeen(env: Env, r: Record, dst: string): string {
    match r
    case Conn(_, _, port, _) => port
    case Ssl(_, _, port, _) => port
    case Dns(_, _, _, _) => "53"
    case Http(_, _, port, _, _) => if port == "" && !env.isIp(dst) then "80" else port
    case Known(_, _, port) => if env.isIp(dst) then port else ""
  }

  function TimesSeen(env: Env, records: seq<Record>, dst: string, src: string): nat {
    if records == [] then 0 else (if Contacted(env, records[0], dst, src) then 1 else 0) + TimesSeen(env, records[1..], dst, src)
  }

  /** A record's contact is with whom it contacted. */
  lemma ContactIs(env: Env, r: Record, dst: string, src: string)
    requires src != ""
    ensures Contacted(env, r, dst, src) <==> ContactOf(env, r).Some? && Match(ContactOf(env, r).value, TargetOf(env, dst), src)
    ensures Contacted(env, r, dst, src) ==>
      var c := ContactOf(env, r).value;
      c.ts == WhenOf(r) && c.stage == StageOf(r) && PortSeen(env, r, dst) == PortOf(env.isIp(dst), Observed(c))
  {
  }

  // ---- From contacts back to records ----

  function ContactSeq(env: Env, records: seq<Record>): seq<Contact> {
    if records == [] then []
    else (if ContactOf(env, records[0]).Some? then [ContactOf(env, records[0]).value] else []) + ContactSeq(env, records[1..])
  }

  lemma {:induction false} ContactSeqIs(env: Env, records: seq<Record>)
    ensures multiset(ContactSeq(env, records)) == ContactsOf(env, records)
    ensures forall c :: c in ContactSeq(env, records) <==> exists r :: r in records && ContactOf(env, r) == Some(c)
  {
    hide ContactOf;
    if records != [] {
      ContactSeqIs(env, records[1..]);
      assert records == [records[0]] + records[1..];
    }
  }

  lemma {:induction false} ContactsConcat(env: Env, a: seq<Record>, b: seq<Record>)
    ensures ContactsOf(env, a + b) == ContactsOf(env, a) + ContactsOf(env, b)
  {
    hide OneContact;
    if a == [] {
      assert a + b == b;
    } else {
      assert (a + b)[1..] == a[1..] + b;
      ContactsConcat(env, a[1..], b);
    }
  }

  lemma {:induction false} PoolJoined(env: Env, files: seq<seq<Record>>)
    ensures Pool(env, files) == ContactsOf(env, Joined(files))
  {
    hide ContactsOf;
    if files == [] {
      assert ContactsOf(env, []) == multiset{} by { NoContacts(env); }
    } else {
      PoolJoined(env, files[1..]);
      ContactsConcat(env, files[0], Joined(files[1..]));
    }
  }

  lemma NoContacts(env: Env)
    ensures ContactsOf(env, []) == multiset{}
  {
  }

  lemma SweepsRecords(env: Env, order: seq<Contact>, conns: seq<seq<Record>>, ssls: seq<seq<Record>>, dns: seq<seq<Record>>,
                      https: seq<seq<Record>>, known: seq<Record>)
    requires SweepOrder(env, order, conns, ssls, dns, https, known)
    ensures multiset(order) == multiset(ContactSeq(env, Records(conns, ssls, dns, https, known)))
  {
    hide Pool; hide ContactsOf; hide ContactSeq; hide Joined; hide Barriered;
    PoolJoined(env, conns);
    PoolJoined(env, ssls);
    PoolJoined(env, dns);
    PoolJoined(env, https);
    PoolJoined(env, [known]);
    OneFile(known);
    var a, b, c, d := Joined(conns), Joined(ssls), Joined(dns), Joined(https);
    ContactsConcat(env, a, b);
    ContactsConcat(env, a + b, c);
    ContactsConcat(env, a + b + c, d);
    ContactsConcat(env, a + b + c + d, known);
    ContactSeqIs(env, Records(conns, ssls, dns, https, known));
  }

  lemma OneFile(known: seq<Record>)
    ensures Joined([known]) == known
  {
    assert Joined([known]) == known + Joined([]) == known;
  }

  /** A pair has as many contacts as there are records of it. */
  lemma {:induction false} MatchesSeen(env: Env, records: seq<Record>, dst: string, src: string)
    requires src != ""
    ensures |Matching(ContactSeq(env, records), TargetOf(env, dst), src)| == TimesSeen(env, records, dst, src)
  {
    hide ContactOf; hide Contacted; hide TargetOf; hide Matching;
    var t := TargetOf(env, dst);
    if records == [] {
      NothingMatches(t, src);
    } else {
      var c, rest := ContactOf(env, records[0]), ContactSeq(env, records[1..]);
      MatchesSeen(env, records[1..], dst, src);
      ContactIs(env, records[0], dst, src);
      if c.Some? {
        MatchingFirst(c.value, rest, t, src);
      } else {
        assert ContactSeq(env, records) == rest;
      }
    }
  }

  lemma NothingMatches(t: Target, src: string)
    ensures Matching([], t, src) == []
  {
  }

  lemma {:induction false} MatchingFirst(c: Contact, rest: seq<Contact>, t: Target, src: string)
    ensures |Matching([c] + rest, t, src)| == |Matching(rest, t, src)| + if Match(c, t, src) then 1 else 0
    decreases |rest|
  {
    hide Matching; hide Match;
    if rest == [] {
      NothingMatches(t, src);
      assert [c] + rest == [] + [c];
      MatchingSnoc([], c, t, src);
    } else {
      var init, last := rest[..|rest| - 1], rest[|rest| - 1];
      MatchingFirst(c, init, t, src);
      MatchingSnoc(init, last, t, src);
      MatchingSnoc([c] + init, last, t, src);
      assert rest == init + [last] && [c] + rest == ([c] + init) + [last];
    }
  }

  /** Every contact of a pair comes from a record of it. */
  lemma RecordOf(env: Env, records: seq<Record>, dst: string, src: string, order: seq<Contact>, c: Contact) returns (r: Record)
    requires src != "" && multiset(order) == multiset(ContactSeq(env, records)) && c in Matching(order, TargetOf(env, dst), src)
    ensures r in records && ContactOf(env, r) == Some(c) && Contacted(env, r, dst, src)
  {
    hide ContactOf; hide ContactSeq; hide Contacted;
    ContactSeqIs(env, records);
    assert c in order;
    assert c in multiset(order);
    assert c in ContactSeq(env, records);
    r :| r in records && ContactOf(env, r) == Some(c);
    ContactIs(env, r, dst, src);
  }

  lemma ContactFrom(env: Env, records: seq<Record>, dst: string, src: string, order: seq<Contact>, r: Record)
    requires src != "" && multiset(order) == multiset(ContactSeq(env, records)) && r in records && Contacted(env, r, dst, src)
    ensures ContactOf(env, r).Some? && ContactOf(env, r).value in Matching(order, TargetOf(env, dst), src)
  {
    hide ContactOf; hide ContactSeq; hide Contacted;
    ContactSeqIs(env, records);
    ContactIs(env, r, dst, src);
    var c := ContactOf(env, r).value;
    assert c in ContactSeq(env, records);
    assert c in multiset(order);
  }

  // ---- The rows of a hit ----

  /** The earliest positive time of the records of a pair, or none when they have no time. */
  ghost predicate Stamped(stamp: string, clock: Clock, env: Env, records: seq<Record>, dst: string, src: string) {
    if forall r :: r in records && Contacted(env, r, dst, src) ==> WhenOf(r) == 0.0 then stamp == clock.now
    else
      exists r ::
        && r in records && Contacted(env, r, dst, src) && WhenOf(r) > 0.0 && stamp == clock.format(WhenOf(r))
        && forall q :: q in records && Contacted(env, q, dst, src) && WhenOf(q) > 0.0 ==> WhenOf(r) <= WhenOf(q)
  }

  /** The port is that of a record of the first log to see the pair. */
  ghost predicate Ported(port: string, env: Env, records: seq<Record>, dst: string, src: string) {
    exists r ::
      && r in records && Contacted(env, r, dst, src) && port == PortSeen(env, r, dst)
      && forall q :: q in records && Contacted(env, q, dst, src) ==> StageOf(r) <= StageOf(q)
  }

  /** What a row says, told from the hits and the records alone. */
  ghost predicate Tells(row: Finding, env: Env, clock: Clock, hits: seq<Hit>, records: seq<Record>) {
    && (exists h :: h in hits && h.dst == row.dst && h.score == row.score)
    && (forall h :: h in hits && h.dst == row.dst ==> h.score <= row.score)
    && row.kind == (if env.isIp(row.dst) then "TI Hit (IP)" else "TI Hit (Domain)")
    && if forall src :: TimesSeen(env, records, row.dst, src) == 0
       then row.src == "(TI)" && row.port == "" && row.timestamp == clock.now
       else
         && TimesSeen(env, records, row.dst, row.src) > 0
         && Ported(row.port, env, records, row.dst, row.src)
         && ((forall r :: r in records ==> WhenOf(r) >= 0.0) ==> Stamped(row.timestamp, clock, env, records, row.dst, row.src))
  }

  /** What the sweep recorded of a pair, in terms of the records. */
  lemma RecordedOf(env: Env, hits: seq<Hit>, records: seq<Record>, order: seq<Contact>, dst: string, src: string)
    requires Barriered(order) && multiset(order) == multiset(ContactSeq(env, records)) && src != ""
    requires exists h :: h in hits && h.dst == dst
    ensures var o := Lookup(AllNoted(Only(set h | h in hits :: TargetOf(env, h.dst)), map[], order), TargetOf(env, dst), src);
      && Facts(o, Matching(order, TargetOf(env, dst), src), env.isIp(dst))
      && |Matching(order, TargetOf(env, dst), src)| == TimesSeen(env, records, dst, src)
      && (o.Some? <==> TimesSeen(env, records, dst, src) > 0)
  {
    hide AllNoted; hide Barriered; hide ContactSeq; hide Matching; hide IsTime; hide IsLabel;
    var winners := set h | h in hits :: TargetOf(env, h.dst);
    assert TargetOf(env, dst) in winners;
    RecordedFacts(Only(winners), order, TargetOf(env, dst), src);
    MatchingSize(order, ContactSeq(env, records), TargetOf(env, dst), src);
    MatchesSeen(env, records, dst, src);
  }

  lemma StampedRow(env: Env, clock: Clock, records: seq<Record>, order: seq<Contact>, dst: string, src: string, o: Observation, isIp: bool)
    requires multiset(order) == multiset(ContactSeq(env, records)) && src != ""
    requires Facts(Some(o), Matching(order, TargetOf(env, dst), src), isIp)
    requires forall r :: r in records ==> WhenOf(r) >= 0.0
    ensures Stamped(if o.ts > 0.0 then clock.format(o.ts) else clock.now, clock, env, records, dst, src)
  {
    hide ContactOf; hide ContactSeq; hide Contacted; hide Matching; hide IsLabel; hide TargetOf; hide WhenOf;
    var m := Matching(order, TargetOf(env, dst), src);
    forall r | r in records && Contacted(env, r, dst, src)
      ensures ContactOf(env, r).Some? && ContactOf(env, r).value in m && ContactOf(env, r).value.ts == WhenOf(r)
    {
      ContactFrom(env, records, dst, src, order, r);
      ContactIs(env, r, dst, src);
    }
    forall c | c in m
      ensures exists r :: r in records && Contacted(env, r, dst, src) && c.ts == WhenOf(r)
    {
      var r := RecordOf(env, records, dst, src, order, c);
      ContactIs(env, r, dst, src);
    }
    assert m[0] in m;
    assert m[0].ts >= 0.0 && IsEarliest(o.ts, m);
  }

  lemma PortedRow(env: Env, records: seq<Record>, order: seq<Contact>, dst: string, src: string, o: Observation)
    requires Barriered(order) && multiset(order) == multiset(ContactSeq(env, records)) && src != ""
    requires Facts(Some(o), Matching(order, TargetOf(env, dst), src), env.isIp(dst))
    ensures Ported(PortOf(env.isIp(dst), o), env, records, dst, src)
  {
    hide ContactOf; hide ContactSeq; hide Contacted; hide Matching; hide Barriered; hide IsTime; hide IsLabel; hide TargetOf; hide StageOf; hide PortOf; hide PortSeen;
    var m := Matching(order, TargetOf(env, dst), src);
    assert m[0] in m;
    FirstIsLowest(order, TargetOf(env, dst), src);
    var r := RecordOf(env, records, dst, src, order, m[0]);
    ContactIs(env, r, dst, src);
    SamePort(env.isIp(dst), o, m);
    forall q | q in records && Contacted(env, q, dst, src)
      ensures StageOf(r) <= StageOf(q)
    {
      ContactFrom(env, records, dst, src, order, q);
      ContactIs(env, q, dst, src);
    }
  }

  /** Only the first contact's port and log matter to the port shown. */
  lemma SamePort(isIp: bool, o: Observation, m: seq<Contact>)
    requires Facts(Some(o), m, isIp) && Lowest(m[0], m)
    ensures PortOf(isIp, o) == PortOf(isIp, Observed(m[0]))
  {
    hide Proto; hide IsTime;
    if !isIp {
      var stage :| FirstStage(stage, m) && o.proto == Proto(stage);
      assert stage == m[0].stage;
    }
  }

  /** The rows of a run tell of its records; every record of a named source contacting a hit has its row. */
  lemma RowsTell(env: Env, clock: Clock, hits: seq<Hit>, records: seq<Record>, order: seq<Contact>, merged: map<string, Hit>,
                 table: Table, rows: seq<Finding>)
    requires Barriered(order) && multiset(order) == multiset(ContactSeq(env, records))
    requires table == AllNoted(Only(set h | h in hits :: TargetOf(env, h.dst)), map[], order)
    requires MergedOf(merged, hits) && (forall i :: 0 <= i < |rows| ==> IsRow(rows[i], env, clock, merged, table))
    requires forall h :: h in hits ==> Covers(rows, env, table, h.dst)
    ensures forall h, src :: h in hits && TimesSeen(env, records, h.dst, src) > 0 ==> HasPair(rows, h.dst, src)
    ensures forall h, src :: h in hits && TimesSeen(env, records, h.dst, src) > 0 ==>
      Counted(table, TargetOf(env, h.dst), src, TimesSeen(env, records, h.dst, src))
    ensures forall i :: 0 <= i < |rows| ==> Tells(rows[i], env, clock, hits, records)
  {
    hide AllNoted; hide Barriered; hide ContactSeq; hide Facts; hide Matching; hide TargetOf; hide TimesSeen; hide HasPair; hide Tells;
    hide IsRow; hide MergedOf;
    forall h, src | h in hits && TimesSeen(env, records, h.dst, src) > 0
      ensures HasPair(rows, h.dst, src) && Counted(table, TargetOf(env, h.dst), src, TimesSeen(env, records, h.dst, src))
    {
      NamedSource(env, records, h.dst, src);
      RecordedOf(env, hits, records, order, h.dst, src);
      FactsCount(Lookup(table, TargetOf(env, h.dst), src), Matching(order, TargetOf(env, h.dst), src), env.isIp(h.dst));
      assert src in BySource(table, TargetOf(env, h.dst));
    }
    forall i | 0 <= i < |rows|
      ensures Tells(rows[i], env, clock, hits, records)
    {
      RowTells(env, clock, hits, records, order, merged, table, rows[i]);
    }
  }

  /** The evidence text counts this many contacts of the pair. */
  predicate Counted(table: Table, t: Target, src: string, n: nat) {
    Lookup(table, t, src).Some? && Lookup(table, t, src).value.count == n
  }

  lemma FactsCount(o: Option<Observation>, contacts: seq<Contact>, isIp: bool)
    requires Facts(o, contacts, isIp) && o.Some?
    ensures o.value.count == |contacts|
  {
  }

  lemma {:induction false} NamedSource(env: Env, records: seq<Record>, dst: string, src: string)
    requires TimesSeen(env, records, dst, src) > 0
    ensures src != ""
  {
    if records != [] && !Contacted(env, records[0], dst, src) {
      NamedSource(env, records[1..], dst, src);
    }
  }

  lemma RowTells(env: Env, clock: Clock, hits: seq<Hit>, records: seq<Record>, order: seq<Contact>, merged: map<string, Hit>,
                 table: Table, row: Finding)
    requires Barriered(order) && multiset(order) == multiset(ContactSeq(env, records))
    requires table == AllNoted(Only(set h | h in hits :: TargetOf(env, h.dst)), map[], order)
    requires MergedOf(merged, hits) && IsRow(row, env, clock, merged, table)
    ensures Tells(row, env, clock, hits, records)
  {
    hide AllNoted; hide Barriered; hide ContactSeq; hide Facts; hide Matching; hide TimesSeen; hide PortOf; hide Ported; hide Stamped;
    var dst, bySrc := row.dst, BySource(table, TargetOf(env, row.dst));
    assert exists h :: h in hits && h.dst == dst && h.score == merged[dst].score;
    forall src
      ensures src != "" ==> (src in bySrc <==> TimesSeen(env, records, dst, src) > 0)
    {
      if src != "" {
        RecordedOf(env, hits, records, order, dst, src);
      }
    }
    BlankUnseen(env, records, dst);
    BlankUnrecorded(Only(set h | h in hits :: TargetOf(env, h.dst)), order, TargetOf(env, dst));
    if bySrc != map[] {
      assert row.src in bySrc && row.src != "";
      RecordedOf(env, hits, records, order, dst, row.src);
      PortedRow(env, records, order, dst, row.src, bySrc[row.src]);
      if forall r :: r in records ==> WhenOf(r) >= 0.0 {
        StampedRow(env, clock, records, order, dst, row.src, bySrc[row.src], env.isIp(dst));
      }
    } else {
      assert forall src :: TimesSeen(env, records, dst, src) == 0;
    }
  }

  lemma BlankUnseen(env: Env, records: seq<Record>, dst: string)
    ensures TimesSeen(env, records, dst, "") == 0
  {
    if TimesSeen(env, records, dst, "") > 0 {
      NamedSource(env, records, dst, "");
    }
  }

  lemma {:induction false} BlankUnrecorded(filter: Filter, order: seq<Contact>, t: Target)
    ensures "" !in BySource(AllNoted(filter, map[], order), t)
    decreases |order|
  {
    if order != [] {
      BlankUnrecorded(filter, order[..|order| - 1], t);
    }
  }

  /** The whole phase: given the hits among the swept destinations, attribute and emit them. */
  method CheckTI(env: Env, clock: Clock, conns: seq<seq<Record>>, ssls: seq<seq<Record>>, dns: seq<seq<Record>>,
                 https: seq<seq<Record>>, known: seq<Record>, hits: seq<Hit>)
    returns (rows: seq<Finding>, ghost merged: map<string, Hit>, ghost table: Table, ghost order: seq<Contact>)
    requires OfStage(conns, CONN) && OfStage(ssls, SSL) && OfStage(dns, DNS) && OfStage(https, HTTP) && OfStage([known], KNOWN)
    ensures SweepOrder(env, order, conns, ssls, dns, https, known)
    ensures table == AllNoted(Only(set h | h in hits :: TargetOf(env, h.dst)), map[], order)
    ensures MergedOf(merged, hits) && DistinctPairs(rows)
    ensures forall i :: 0 <= i < |rows| ==> IsRow(rows[i], env, clock, merged, table)
    ensures forall h :: h in hits ==> Covers(rows, env, table, h.dst)
    ensures forall h, src :: h in hits && TimesSeen(env, Records(conns, ssls, dns, https, known), h.dst, src) > 0 ==>
      HasPair(rows, h.dst, src)
      && Counted(table, TargetOf(env, h.dst), src, TimesSeen(env, Records(conns, ssls, dns, https, known), h.dst, src))
    ensures forall i :: 0 <= i < |rows| ==> Tells(rows[i], env, clock, hits, Records(conns, ssls, dns, https, known))
  {
    hide Counted;
    hide IsRow; hide DistinctPairs; hide AllNoted; hide OfStage; hide Covers; hide MergedOf; hide TargetOf; hide SweepOrder;
    hide TimesSeen; hide HasPair; hide Tells; hide Records; hide ContactSeq; hide Barriered;
    var winners := set h | h in hits :: TargetOf(env, h.dst);
    var observations := TargetedSweep(env, Only(winners), conns, ssls, dns, https, known);
    order :| SweepOrder(env, order, conns, ssls, dns, https, known) && observations == AllNoted(Only(winners), map[], order);
    table := observations;
    rows, merged := EmitRows(env, clock, hits, observations);
    SweepsRecords(env, order, conns, ssls, dns, https, known);
    SweepBarriered(env, order, conns, ssls, dns, https, known);
    RowsTell(env, clock, hits, Records(conns, ssls, dns, https, known), order, merged, table, rows);
  }

  lemma SweepBarriered(env: Env, order: seq<Contact>, conns: seq<seq<Record>>, ssls: seq<seq<Record>>, dns: seq<seq<Record>>,
                       https: seq<seq<Record>>, known: seq<Record>)
    requires SweepOrder(env, order, conns, ssls, dns, https, known)
    ensures Barriered(order)
  {
  }

  /** A contact by a named source with a hit destination is always attributed, never left to the placeholder. */
  lemma ContactsAreAttributed(env: Env, hits: seq<Hit>, order: seq<Contact>, c: Contact)
    requires c in order && c.src != ""
    requires exists h :: h in hits && TargetOf(env, h.dst) == c.target
    ensures var table := AllNoted(Only(set h | h in hits :: TargetOf(env, h.dst)), map[], order);
      c.src in BySource(table, c.target)
  {
    hide AllNoted;
    var winners := set h | h in hits :: TargetOf(env, h.dst);
    ContactsRecorded(Only(winners), order, c);
  }
}
