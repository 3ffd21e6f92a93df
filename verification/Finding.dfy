/** Findings, their identity, and the history key that must never confuse two of them. */
module Findings {

  datatype Finding = Finding(
    id: int, kind: string, score: int, src: string, dst: string, port: string, sensor: string,
    hostname: string, uri: string, channel: string, timestamp: string, correlations: seq<int>)

  datatype Fingerprint = Fingerprint(
    kind: string, src: string, dst: string, port: string, sensor: string,
    hostname: string, uri: string, channel: string)

  const HOST_RISK: string := "Host Risk Score"
  const CORRELATED: string := "Correlated Activity"
  const MULTI_STAGE: string := "Multi-Stage Beacon"

  predicate IsRollup(kind: string) {
    kind == HOST_RISK || kind == CORRELATED || kind == MULTI_STAGE
  }

  predicate IsBeacon(kind: string) {
    kind == "Beacon" || kind == "HTTP Beacon" || kind == "DNS Beacon" || kind == "Port-Hopping Beacon"
  }

  /** Host and path identify only HTTP beacons; the channel is empty for a blended finding. */
  function FingerprintOf(f: Finding): Fingerprint {
    var http := f.kind == "HTTP Beacon";
    Fingerprint(f.kind, f.src, f.dst, f.port, f.sensor,
                if http then f.hostname else "", if http then f.uri else "", f.channel)
  }

  /** Two findings are one when they agree on all that identifies their kind: the host and path of an HTTP beacon, and of no other. */
  lemma SameIdentityIff(f: Finding, g: Finding)
    ensures FingerprintOf(f) == FingerprintOf(g) <==>
      && f.kind == g.kind && f.src == g.src && f.dst == g.dst && f.port == g.port && f.sensor == g.sensor && f.channel == g.channel
      && (f.kind == "HTTP Beacon" ==> f.hostname == g.hostname && f.uri == g.uri)
  {
  }

  // ---- The history key ----

  const SEPARATOR: char := '\U{1f}'
  const SCRUBBED: char := '\U{1e}'

  function Scrub(s: string): (r: string)
    ensures |r| == |s| && SEPARATOR !in r
    ensures forall i :: 0 <= i < |s| ==> r[i] == if s[i] == SEPARATOR then SCRUBBED else s[i]
  {
    seq(|s|, i requires 0 <= i < |s| => if s[i] == SEPARATOR then SCRUBBED else s[i])
  }

  function JoinFields(fields: seq<string>): string
    requires fields != []
  {
    if |fields| == 1 then fields[0] else fields[0] + ([SEPARATOR] + JoinFields(fields[1..]))
  }

  /** The identity fields, with the channel appended only when there is one. */
  function KeyFields(f: Finding): (fields: seq<string>)
    ensures |fields| == if f.channel == "" then 7 else 8
    ensures forall i :: 0 <= i < |fields| ==> SEPARATOR !in fields[i]
  {
    [Scrub(f.kind), Scrub(f.src), Scrub(f.dst), Scrub(f.port), Scrub(f.hostname), Scrub(f.uri), Scrub(f.sensor)]
    + if f.channel == "" then [] else [Scrub(f.channel)]
  }

  function HistoryKey(f: Finding): string {
    JoinFields(KeyFields(f))
  }

  predicate Clean(fields: seq<string>) {
    forall i :: 0 <= i < |fields| ==> SEPARATOR !in fields[i]
  }

  /** The first field ends at the first separator, whatever follows. */
  lemma FirstFieldEnds(a: string, x: string, b: string, y: string)
    requires SEPARATOR !in a && SEPARATOR !in b
    requires a + ([SEPARATOR] + x) == b + ([SEPARATOR] + y)
    ensures a == b && x == y
  {
    var s, t := a + ([SEPARATOR] + x), b + ([SEPARATOR] + y);
    assert s[|a|] == SEPARATOR && t[|b|] == SEPARATOR;
    assert forall j :: 0 <= j < |a| ==> s[j] == a[j];
    assert forall j :: 0 <= j < |b| ==> t[j] == b[j];
    assert |a| == |b|;
    assert a == s[..|a|] && b == t[..|b|];
    assert x == s[|a| + 1..] && y == t[|b| + 1..];
  }

  lemma JoinHasSeparator(fields: seq<string>)
    requires |fields| > 1
    ensures SEPARATOR in JoinFields(fields)
  {
    assert JoinFields(fields)[|fields[0]|] == SEPARATOR;
  }

  /** Joining separator-free fields loses nothing, not even how many there were. */
  lemma {:induction false} JoinInjective(xs: seq<string>, ys: seq<string>)
    requires xs != [] && ys != [] && Clean(xs) && Clean(ys)
    requires JoinFields(xs) == JoinFields(ys)
    ensures xs == ys
    decreases |xs|
  {
    if |xs| > 1 {
      JoinHasSeparator(xs);
    }
    if |ys| > 1 {
      JoinHasSeparator(ys);
    }
    if |xs| > 1 && |ys| > 1 {
      FirstFieldEnds(xs[0], JoinFields(xs[1..]), ys[0], JoinFields(ys[1..]));
      JoinInjective(xs[1..], ys[1..]);
      assert xs == [xs[0]] + xs[1..] && ys == [ys[0]] + ys[1..];
    }
  }

  /**
   Two findings share a history key exactly when their scrubbed identity fields
   and their optional channel agree: no embedded separator can shift a field, and
   a finding with a channel never meets one without.
   */
  lemma HistoryKeyInjective(f: Finding, g: Finding)
    ensures HistoryKey(f) == HistoryKey(g) <==>
              (&& Scrub(f.kind) == Scrub(g.kind) && Scrub(f.src) == Scrub(g.src) && Scrub(f.dst) == Scrub(g.dst)
               && Scrub(f.port) == Scrub(g.port) && Scrub(f.hostname) == Scrub(g.hostname)
               && Scrub(f.uri) == Scrub(g.uri) && Scrub(f.sensor) == Scrub(g.sensor)
               && Scrub(f.channel) == Scrub(g.channel))
  {
    hide Scrub;
    var xs, ys := KeyFields(f), KeyFields(g);
    if HistoryKey(f) == HistoryKey(g) {
      JoinInjective(xs, ys);
      assert xs[0] == ys[0] && xs[1] == ys[1] && xs[2] == ys[2] && xs[3] == ys[3]
          && xs[4] == ys[4] && xs[5] == ys[5] && xs[6] == ys[6];
      if f.channel != "" {
        assert xs[7] == ys[7];
      } else {
        assert f.channel == g.channel;
      }
    }
    assert Scrub(f.channel) == Scrub(g.channel) ==> |f.channel| == |g.channel|;
  }

  /** On separator-free fields the key tells findings apart by the fields themselves. */
  lemma HistoryKeyOnCleanFields(f: Finding, g: Finding)
    requires SEPARATOR !in f.kind + f.src + f.dst + f.port + f.hostname + f.uri + f.sensor + f.channel
    requires SEPARATOR !in g.kind + g.src + g.dst + g.port + g.hostname + g.uri + g.sensor + g.channel
    requires HistoryKey(f) == HistoryKey(g)
    ensures FingerprintOf(f) == FingerprintOf(g) && f.hostname == g.hostname && f.uri == g.uri
  {
    hide HistoryKey;
    HistoryKeyInjective(f, g);
    CleanScrub(f);
    CleanScrub(g);
  }

  lemma ScrubKeeps(s: string)
    requires SEPARATOR !in s
    ensures Scrub(s) == s
  {
  }

  lemma CleanScrub(f: Finding)
    requires SEPARATOR !in f.kind + f.src + f.dst + f.port + f.hostname + f.uri + f.sensor + f.channel
    ensures Scrub(f.kind) == f.kind && Scrub(f.src) == f.src && Scrub(f.dst) == f.dst && Scrub(f.port) == f.port
    ensures Scrub(f.hostname) == f.hostname && Scrub(f.uri) == f.uri
    ensures Scrub(f.sensor) == f.sensor && Scrub(f.channel) == f.channel
  {
    hide Scrub;
    ScrubKeeps(f.kind);
    ScrubKeeps(f.src);
    ScrubKeeps(f.dst);
    ScrubKeeps(f.port);
    ScrubKeeps(f.hostname);
    ScrubKeeps(f.uri);
    ScrubKeeps(f.sensor);
    ScrubKeeps(f.channel);
  }
}
