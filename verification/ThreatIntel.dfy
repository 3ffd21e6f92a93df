/** Who contacted the destinations that threat feeds flag: a cheap sweep first, a targeted one for the hits. */
module ThreatIntel {
  import opened Text

  /** Address parsing, address classes and name normalisation come from outside this model. */
  datatype Env = Env(isIp: string -> bool, private: string -> bool, localInfra: string -> bool,
                     queryName: string -> string, hostName: string -> string, lower: string -> string)

  /** The records the sweeps read, one kind per log, and the findings already made. */
  datatype Record =
    | Conn(dst: string, src: string, port: string, ts: real)
    | Ssl(dst: string, src: string, port: string, ts: real)
    | Dns(query: string, src: string, qtype: string, ts: real)
    | Http(host: string, src: string, port: string, uri: string, ts: real)
    | Known(dst: string, src: string, port: string)

  /** An address or a domain; the two kinds are kept in separate tables. */
  datatype Target = Target(isIp: bool, name: string)

  // ---- The first sweep: destinations only ----

  function SweptTarget(env: Env, r: Record): Option<Target> {
    match r
    case Conn(dst, _, _, _) =>
      if dst != "" && !env.private(dst) && !env.localInfra(dst) && env.isIp(dst) then Some(Target(true, dst)) else None
    case Ssl(_, _, _, _) => None
    case Dns(query, _, _, _) =>
      var q := env.queryName(query);
      if q != "" && !env.isIp(q) then Some(Target(false, q)) else None
    case Http(host, _, _, _, _) =>
      if host == "" || env.hostName(host) == "" then None
      else Some(Target(env.isIp(env.hostName(host)), env.hostName(host)))
    case Known(dst, _, _) =>
      if dst == "" || env.private(dst) || env.localInfra(dst) || dst == "(network)" || dst == "(escalation)" || dst == "(cert)" then None
      else if env.isIp(dst) then Some(Target(true, dst))
      else Some(Target(false, env.lower(dst)))
  }

  function Swept(env: Env, records: seq<Record>): set<Target> {
    set i | 0 <= i < |records| && SweptTarget(env, records[i]).Some? :: SweptTarget(env, records[i]).value
  }

  // ---- The second sweep: one observation per target and source ----

  /** What a record says about the source that contacted a target. */
  datatype Contact = Contact(target: Target, src: string, stage: nat, port: string, qtype: string, uri: string, ts: real)

  const CONN: nat := 0
  const SSL: nat := 1
  const DNS: nat := 2
  const HTTP: nat := 3
  const KNOWN: nat := 4

  function Proto(stage: nat): string {
    if stage == CONN then "conn" else if stage == SSL then "ssl" else if stage == DNS then "dns"
    else if stage == HTTP then "http" else "finding"
  }

  function Attributed(src: string): string {
    if src == "(TI)" || src == "(network)" || src == "(escalation)" || src == "(cert)" then "" else src
  }

  function ContactOf(env: Env, r: Record): Option<Contact> {
    match r
    case Conn(dst, src, port, ts) => Some(Contact(Target(true, dst), src, CONN, port, "", "", ts))
    case Ssl(dst, src, port, ts) => Some(Contact(Target(true, dst), src, SSL, port, "", "", ts))
    case Dns(query, src, qtype, ts) => Some(Contact(Target(false, env.queryName(query)), src, DNS, "", qtype, "", ts))
    case Http(host, src, port, uri, ts) =>
      if host == "" || env.hostName(host) == "" then None
      else if env.isIp(env.hostName(host)) then Some(Contact(Target(true, env.hostName(host)), src, HTTP, port, "", "", ts))
      else Some(Contact(Target(false, env.hostName(host)), src, HTTP, port, "", uri, ts))
    case Known(dst, src, port) =>
      if dst == "" then None
      else if env.isIp(dst) then Some(Contact(Target(true, dst), Attributed(src), KNOWN, port, "", "", 0.0))
      else Some(Contact(Target(false, env.lower(dst)), Attributed(src), KNOWN, "", "", "", 0.0))
  }

  datatype Observation = Observation(count: nat, ts: real, proto: string, port: string, qtype: string, uri: string)

  function Observed(c: Contact): Observation {
    Observation(1, c.ts, Proto(c.stage), c.port, c.qtype, c.uri)
  }

  /** A repeated contact: counted, its time kept if earlier, its label or path filled in. */
  function Again(o: Observation, c: Contact): Observation {
    Observation(
      o.count + 1,
      if c.ts > 0.0 && (o.ts == 0.0 || c.ts < o.ts) then c.ts else o.ts,
      if c.target.isIp && Proto(c.stage) == "ssl" && o.proto == "conn" then "ssl" else o.proto,
      o.port, o.qtype,
      if !c.target.isIp && o.uri == "" then c.uri else o.uri)
  }

  type Table = map<Target, map<string, Observation>>

  function BySource(table: Table, t: Target): map<string, Observation> {
    if t in table then table[t] else map[]
  }

  /** Which targets a sweep records: the winners, or everything in the one-phase collector. */
  datatype Filter = Everything | Only(winners: set<Target>)

  predicate Passes(filter: Filter, t: Target) {
    filter.Everything? || t in filter.winners
  }

  function Noted(filter: Filter, table: Table, c: Contact): Table {
    if !Passes(filter, c.target) || c.src == "" then table
    else
      var bySrc := BySource(table, c.target);
      table[c.target := bySrc[c.src := if c.src in bySrc then Again(bySrc[c.src], c) else Observed(c)]]
  }

  function AllNoted(filter: Filter, table: Table, order: seq<Contact>): Table {
    if order == [] then table else Noted(filter, AllNoted(filter, table, order[..|order| - 1]), order[|order| - 1])
  }

  lemma NotedSnoc(filter: Filter, table: Table, order: seq<Contact>, c: Contact)
    ensures AllNoted(filter, table, order + [c]) == Noted(filter, AllNoted(filter, table, order), c)
  {
    hide Noted;
    assert (order + [c])[..|order|] == order;
  }

  lemma {:induction false} NotedConcat(filter: Filter, table: Table, xs: seq<Contact>, ys: seq<Contact>)
    ensures AllNoted(filter, table, xs + ys) == AllNoted(filter, AllNoted(filter, table, xs), ys)
    decreases |ys|
  {
    hide Noted;
    if ys == [] {
      assert xs + ys == xs;
    } else {
      NotedConcat(filter, table, xs, ys[..|ys| - 1]);
      assert xs + ys == (xs + ys[..|ys| - 1]) + [ys[|ys| - 1]];
      NotedSnoc(filter, table, xs + ys[..|ys| - 1], ys[|ys| - 1]);
    }
  }

  // ---- Scanning one kind of log with many workers ----

  function ContactsOf(env: Env, records: seq<Record>): multiset<Contact> {
    if records == [] then multiset{} else OneContact(env, records[0]) + ContactsOf(env, records[1..])
  }

  function OneContact(env: Env, r: Record): multiset<Contact> {
    var c := ContactOf(env, r);
    if c.Some? then multiset{c.value} else multiset{}
  }

  /** All the contacts of a list of files, in no particular order. */
  function Pool(env: Env, files: seq<seq<Record>>): multiset<Contact> {
    if files == [] then multiset{} else ContactsOf(env, files[0]) + Pool(env, files[1..])
  }

  function Pending(files: seq<seq<Record>>): nat {
    if files == [] then 0 else |files[0]| + Pending(files[1..])
  }

  /** Reading the next record of one file. */
  function Popped(files: seq<seq<Record>>, i: nat): seq<seq<Record>>
    requires i < |files| && files[i] != []
  {
    files[i := files[i][1..]]
  }

  lemma {:induction false} PopTakes(env: Env, files: seq<seq<Record>>, i: nat)
    requires i < |files| && files[i] != []
    ensures Pool(env, files) == OneContact(env, files[i][0]) + Pool(env, Popped(files, i))
    ensures Pending(Popped(files, i)) == Pending(files) - 1
  {
    hide OneContact;
    var after := Popped(files, i);
    if i > 0 {
      PopTakes(env, files[1..], i - 1);
      assert after[1..] == Popped(files[1..], i - 1);
    } else {
      assert after[1..] == files[1..];
    }
  }

  lemma {:induction false} NothingPending(env: Env, files: seq<seq<Record>>)
    requires forall i :: 0 <= i < |files| ==> files[i] == []
    ensures Pool(env, files) == multiset{}
  {
    if files != [] {
      NothingPending(env, files[1..]);
    }
  }

  /** The observations shared by the workers, and how one of them records a contact. */
  class Collector {
    const filter: Filter
    var table: Table

    constructor (filter: Filter)
      ensures this.filter == filter && table == map[]
    {
      this.filter := filter;
      table := map[];
    }

    method Add(c: Contact)
      modifies this
      ensures table == Noted(filter, old(table), c)
    {
      if !Passes(filter, c.target) || c.src == "" {
        return;
      }
      var bySrc := BySource(table, c.target);
      if c.src in bySrc {
        var cur := bySrc[c.src];
        cur := cur.(count := cur.count + 1);
        if c.ts > 0.0 && (cur.ts == 0.0 || c.ts < cur.ts) {
          cur := cur.(ts := c.ts);
        }
        if c.target.isIp {
          if Proto(c.stage) == "ssl" && cur.proto == "conn" {
            cur := cur.(proto := "ssl");
          }
        } else if cur.uri == "" && c.uri != "" {
          cur := cur.(uri := c.uri);
        }
        table := table[c.target := bySrc[c.src := cur]];
        return;
      }
      table := table[c.target := bySrc[c.src := Observed(c)]];
    }

    /** Workers take the files' records in any interleaving; the mutex makes each recording atomic. */
    method Scan(env: Env, files: seq<seq<Record>>) returns (ghost order: seq<Contact>)
      modifies this
      ensures multiset(order) == Pool(env, files)
      ensures table == AllNoted(filter, old(table), order)
    {
      hide Noted; hide ContactOf; hide Pool; hide Popped; hide AllNoted;
      order := [];
      StartsEmpty(filter, table);
      var left := files;
      while exists i :: 0 <= i < |left| && left[i] != []
        invariant multiset(order) + Pool(env, left) == Pool(env, files)
        invariant table == AllNoted(filter, old(table), order)
        decreases Pending(left)
      {
        var i :| 0 <= i < |left| && left[i] != [];
        PopTakes(env, left, i);
        var c := ContactOf(env, left[i][0]);
        left := Popped(left, i);
        if c.Some? {
          NotedSnoc(filter, old(table), order, c.value);
          Add(c.value);
          order := order + [c.value];
        }
      }
      NothingPending(env, left);
    }
  }

  lemma StartsEmpty(filter: Filter, table: Table)
    ensures AllNoted(filter, table, []) == table
  {
  }
}
