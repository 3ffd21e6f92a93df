/** Redaction: internal values become HOST_n tokens in two passes, and expansion undoes it. */
module Redaction {
  import opened Text
  import opened Expansion
  import opened Swallowing
  import Decimal

  /** A text cut by a regular expression into its matches and what lies between them. */
  datatype Chunk = Kept(text: string) | Found(text: string)

  /** A pattern reduced to how it cuts a text, and the test that picks the internal matches. */
  datatype Scanner = Scanner(cut: string -> seq<Chunk>, internal: string -> bool)
  {
    ghost predicate Faithful() {
      forall s :: Join(cut(s)) == s
    }

    predicate Replaces(c: Chunk) {
      c.Found? && internal(c.text)
    }
  }

  function Join(chunks: seq<Chunk>): string {
    if chunks == [] then "" else chunks[0].text + Join(chunks[1..])
  }

  // ---- The token table ----

  /** The values in the order their tokens were given out; token n stands for the n-th. */
  function Known(reals: seq<string>, v: string): (rs: seq<string>)
    ensures v in rs && reals <= rs
  {
    if v in reals then reals else reals + [v]
  }

  function TokenOf(reals: seq<string>, v: string): (n: nat)
    requires v in reals
    ensures 1 <= n <= |reals| && reals[n - 1] == v
  {
    if reals[0] == v then 1 else 1 + TokenOf(reals[1..], v)
  }

  predicate Distinct(reals: seq<string>) {
    forall i, j :: 0 <= i < j < |reals| ==> reals[i] != reals[j]
  }

  function Vals(reals: seq<string>): (m: map<nat, string>)
    ensures forall n: nat :: n in m <==> 1 <= n <= |reals|
    ensures forall n :: n in m ==> m[n] == ValueAt(reals, n)
  {
    map n: nat | 1 <= n <= |reals| :: ValueAt(reals, n)
  }

  function ValueAt(reals: seq<string>, n: nat): string
    requires 1 <= n <= |reals|
  {
    reals[n - 1]
  }

  /** The two maps are inverse to each other and agree with the order of assignment. */
  ghost predicate TableOk(realToToken: map<string, string>, tokenToReal: map<string, string>, reals: seq<string>) {
    && Distinct(reals)
    && (forall v :: v in realToToken <==> v in reals)
    && (forall n: nat :: 1 <= n <= |reals| ==> realToToken[ValueAt(reals, n)] == TokenName(n))
    && Names(tokenToReal, Vals(reals))
  }

  lemma TableGrows(realToToken: map<string, string>, tokenToReal: map<string, string>, reals: seq<string>, v: string)
    requires TableOk(realToToken, tokenToReal, reals) && v !in reals
    ensures var tok := TokenName(|reals| + 1);
      TableOk(realToToken[v := tok], tokenToReal[tok := v], reals + [v])
  {
    hide TokenName; hide Names; hide Vals;
    var rs := reals + [v];
    var more := realToToken[v := TokenName(|reals| + 1)];
    AddName(tokenToReal, reals, v);
    assert Distinct(rs);
    hide Distinct;
    forall n: nat | 1 <= n <= |rs| ensures more[ValueAt(rs, n)] == TokenName(n) {
      if n <= |reals| {
        assert ValueAt(rs, n) == ValueAt(reals, n);
        assert ValueAt(reals, n) in reals;
      }
    }
  }

  class TokenTable {
    var realToToken: map<string, string>
    var tokenToReal: map<string, string>
    var next: nat
    ghost var reals: seq<string>

    ghost predicate Valid()
      reads this
    {
      next == |reals| && TableOk(realToToken, tokenToReal, reals)
    }

    constructor ()
      ensures Valid() && reals == []
    {
      realToToken, tokenToReal, next, reals := map[], map[], 0, [];
    }

    /** The token of a value: the one it already has, or the next free one. */
    method Assign(v: string) returns (tok: string)
      requires Valid()
      modifies this
      ensures Valid()
      ensures reals == Known(old(reals), v) && tok == TokenName(TokenOf(reals, v))
    {
      hide TokenName; hide Names;
      if v in realToToken {
        assert ValueAt(reals, TokenOf(reals, v)) == v;
        return realToToken[v];
      }
      next := next + 1;
      tok := TokenName(next);
      realToToken := realToToken[v := tok];
      tokenToReal := tokenToReal[tok := v];
      TableGrows(old(realToToken), old(tokenToReal), reals, v);
      LastToken(reals, v);
      reals := reals + [v];
    }

    /** ReplaceAllStringFunc with the assigning callback. */
    method Rewrite(scanner: Scanner, chunks: seq<Chunk>) returns (out: string)
      requires Valid()
      modifies this
      ensures Valid()
      ensures (out, reals) == Rewritten(scanner, chunks, old(reals))
    {
      hide TokenName; hide TableOk;
      out := "";
      ghost var goal := Rewritten(scanner, chunks, reals);
      PrependEnds("", goal);
      assert chunks[0..] == chunks;
      for i := 0 to |chunks|
        invariant Valid()
        invariant Prepend(out, Rewritten(scanner, chunks[i..], reals)) == goal
      {
        assert chunks[i..][0] == chunks[i] && chunks[i..][1..] == chunks[i + 1..];
        var piece := chunks[i].text;
        if scanner.Replaces(chunks[i]) {
          piece := Assign(chunks[i].text);
        }
        PrependTwice(out, piece, Rewritten(scanner, chunks[i + 1..], reals));
        out := out + piece;
      }
      PrependEnds(out, ("", reals));
    }
  }

  /** A text put in front of what a pass has still to produce. */
  function Prepend(done: string, rest: (string, seq<string>)): (string, seq<string>) {
    (done + rest.0, rest.1)
  }

  lemma PrependEnds(a: string, rest: (string, seq<string>))
    ensures Prepend("", rest) == rest
    ensures rest.0 == "" ==> Prepend(a, rest) == (a, rest.1)
  {
    assert "" + rest.0 == rest.0;
    assert a + "" == a;
  }

  lemma PrependTwice(a: string, b: string, rest: (string, seq<string>))
    ensures Prepend(a, Prepend(b, rest)) == Prepend(a + b, rest)
  {
    assert a + (b + rest.0) == a + b + rest.0;
  }

  lemma LastToken(reals: seq<string>, v: string)
    requires v !in reals
    ensures TokenOf(reals + [v], v) == |reals| + 1
  {
    assert forall i :: 0 <= i < |reals| ==> (reals + [v])[i] == reals[i];
  }

  lemma AddName(mapping: map<string, string>, reals: seq<string>, v: string)
    requires Names(mapping, Vals(reals))
    ensures Names(mapping[TokenName(|reals| + 1) := v], Vals(reals + [v]))
  {
    hide TokenName;
    var old', new' := Vals(reals), Vals(reals + [v]);
    var k := |reals| + 1;
    var more := mapping[TokenName(k) := v];
    forall n | n in new' ensures TokenName(n) in more && more[TokenName(n)] == new'[n] {
      if n != k {
        assert n in old';
        if TokenName(n) == TokenName(k) {
          TokenNamesDiffer(n, k);
        }
      }
    }
    forall t | t in more ensures IsName(t, new') {
      if t == TokenName(k) {
        assert k in new';
      } else {
        assert IsName(t, old');
        var n :| n in old' && TokenName(n) == t;
        assert n in new';
      }
    }
  }

  /** What one pass makes of its chunks: the new text and the values known afterwards. */
  function Rewritten(scanner: Scanner, chunks: seq<Chunk>, reals: seq<string>): (string, seq<string>) {
    if chunks == [] then ("", reals)
    else if scanner.Replaces(chunks[0]) then
      var rs := Known(reals, chunks[0].text);
      Prepend(TokenName(TokenOf(rs, chunks[0].text)), Rewritten(scanner, chunks[1..], rs))
    else Prepend(chunks[0].text, Rewritten(scanner, chunks[1..], reals))
  }

  /** Both passes; the second runs only when internal domains are configured. */
  function Redacted(ips: Scanner, hosts: Option<Scanner>, text: string): (string, seq<string>) {
    var (first, reals) := Rewritten(ips, ips.cut(text), []);
    match hosts
    case None => (first, reals)
    case Some(h) => Rewritten(h, h.cut(first), reals)
  }

  method Redact(ips: Scanner, hosts: Option<Scanner>, text: string)
    returns (out: string, mapping: map<string, string>)
    ensures out == Redacted(ips, hosts, text).0
    ensures Names(mapping, Vals(Redacted(ips, hosts, text).1)) && "" !in mapping
  {
    hide Rewritten;
    var table := new TokenTable();
    out := table.Rewrite(ips, ips.cut(text));
    if hosts.Some? {
      out := table.Rewrite(hosts.value, hosts.value.cut(out));
    }
    mapping := table.tokenToReal;
    NoEmptyName(mapping, Vals(table.reals));
  }

  lemma NoEmptyName(mapping: map<string, string>, vals: map<nat, string>)
    requires Names(mapping, vals)
    ensures "" !in mapping
  {
    assert !IsName("", vals);
  }

  // ---- The redacted text as pieces ----

  function FirstPieces(ips: Scanner, chunks: seq<Chunk>, reals: seq<string>): seq<Piece> {
    if chunks == [] then []
    else if ips.Replaces(chunks[0]) then
      var rs := Known(reals, chunks[0].text);
      [Tok(TokenOf(rs, chunks[0].text))] + FirstPieces(ips, chunks[1..], rs)
    else Lits(chunks[0].text) + FirstPieces(ips, chunks[1..], reals)
  }

  /**
   The second pass sees the tokens of the first as ordinary text. Its chunks end between
   pieces, and `inside` holds the pieces of each host name that is replaced.
   */
  predicate Aligned(hosts: Scanner, ps: seq<Piece>, chunks: seq<Chunk>, cuts: seq<nat>, reals: seq<string>,
                    inside: map<nat, seq<Piece>>)
  {
    |cuts| == |chunks|
    && if chunks == [] then ps == []
       else
         && cuts[0] <= |ps| && Written(ps[..cuts[0]]) == chunks[0].text
         && if hosts.Replaces(chunks[0]) then
              var rs := Known(reals, chunks[0].text);
              && Holds(inside, TokenOf(rs, chunks[0].text), ps[..cuts[0]])
              && Aligned(hosts, ps[cuts[0]..], chunks[1..], cuts[1..], rs, inside)
            else Aligned(hosts, ps[cuts[0]..], chunks[1..], cuts[1..], reals, inside)
  }

  predicate Holds(inside: map<nat, seq<Piece>>, n: nat, w: seq<Piece>) {
    n in inside && inside[n] == w
  }

  function SecondPieces(hosts: Scanner, ps: seq<Piece>, chunks: seq<Chunk>, cuts: seq<nat>, reals: seq<string>,
                        inside: map<nat, seq<Piece>>): seq<Piece>
    requires Aligned(hosts, ps, chunks, cuts, reals, inside)
  {
    if chunks == [] then []
    else if hosts.Replaces(chunks[0]) then
      var rs := Known(reals, chunks[0].text);
      [Tok(TokenOf(rs, chunks[0].text))] + SecondPieces(hosts, ps[cuts[0]..], chunks[1..], cuts[1..], rs, inside)
    else ps[..cuts[0]] + SecondPieces(hosts, ps[cuts[0]..], chunks[1..], cuts[1..], reals, inside)
  }

  lemma {:induction false} RealsGrow(scanner: Scanner, chunks: seq<Chunk>, reals: seq<string>)
    ensures reals <= Rewritten(scanner, chunks, reals).1
    ensures Distinct(reals) ==> Distinct(Rewritten(scanner, chunks, reals).1)
  {
    hide TokenName; hide TokenOf;
    if chunks != [] {
      RealsGrow(scanner, chunks[1..], if scanner.Replaces(chunks[0]) then Known(reals, chunks[0].text) else reals);
    }
  }

  /** The tokens of these values stand for them. */
  ghost predicate Records(full: map<nat, string>, reals: seq<string>) {
    forall n: nat :: 1 <= n <= |reals| ==> n in full && full[n] == ValueAt(reals, n)
  }

  /** Every token is among the first so many. */
  ghost predicate Within(ps: seq<Piece>, count: nat) {
    forall n: nat :: Tok(n) in ps ==> 1 <= n <= count
  }

  /** The pieces show what the pass wrote, and stand for what it read. */
  ghost predicate Pictures(ps: seq<Piece>, before: string, after: string, full: map<nat, string>) {
    Written(ps) == after && Original(ps, full) == before
  }

  lemma PicturesMore(a: seq<Piece>, ps: seq<Piece>, x: string, y: string, before: string, after: string, full: map<nat, string>)
    requires Pictures(a, x, y, full) && Pictures(ps, before, after, full)
    ensures Pictures(a + ps, x + before, y + after, full)
  {
    hide Original; hide Written;
    OriginalConcat(a, ps, full);
    WrittenConcat(a, ps);
  }

  lemma TokenPictures(n: nat, full: map<nat, string>)
    requires n in full
    ensures Pictures([Tok(n)], full[n], TokenName(n), full)
  {
    assert TokenName(n) + "" == TokenName(n) && full[n] + "" == full[n];
  }

  lemma {:induction false} FirstPictures(ips: Scanner, chunks: seq<Chunk>, reals: seq<string>, full: map<nat, string>)
    requires Records(full, Rewritten(ips, chunks, reals).1)
    ensures Pictures(FirstPieces(ips, chunks, reals), Join(chunks), Rewritten(ips, chunks, reals).0, full)
    ensures Within(FirstPieces(ips, chunks, reals), |Rewritten(ips, chunks, reals).1|)
  {
    hide TokenName; hide Pictures; hide Written;
    if chunks == [] {
      assert Pictures([], "", "", full) by { NothingPictured(full); }
    } else {
      var c, rest := chunks[0], chunks[1..];
      var rs := if ips.Replaces(c) then Known(reals, c.text) else reals;
      FirstPictures(ips, rest, rs, full);
      RealsGrow(ips, rest, rs);
      var ps, after := FirstPieces(ips, rest, rs), Rewritten(ips, rest, rs);
      if ips.Replaces(c) {
        var n := TokenOf(rs, c.text);
        assert ValueAt(after.1, n) == c.text;
        TokenPictures(n, full);
        PicturesMore([Tok(n)], ps, c.text, TokenName(n), Join(rest), after.0, full);
      } else {
        LitsPictured(c.text, full);
        PicturesMore(Lits(c.text), ps, c.text, c.text, Join(rest), after.0, full);
      }
    }
  }

  lemma NothingPictured(full: map<nat, string>)
    ensures Pictures([], "", "", full)
  {
  }

  lemma LitsPictured(s: string, full: map<nat, string>)
    ensures Pictures(Lits(s), s, s, full)
  {
    LitsStand(s, full);
  }

  /** Every token means what its pieces mean. */
  ghost predicate Meaning(full: map<nat, string>, inside: map<nat, seq<Piece>>) {
    forall n :: n in inside ==> n in full && full[n] == Original(inside[n], full)
  }

  lemma {:induction false} SecondPictures(hosts: Scanner, ps: seq<Piece>, chunks: seq<Chunk>, cuts: seq<nat>,
                                          reals: seq<string>, inside: map<nat, seq<Piece>>, full: map<nat, string>)
    requires Aligned(hosts, ps, chunks, cuts, reals, inside) && Meaning(full, inside)
    ensures Pictures(SecondPieces(hosts, ps, chunks, cuts, reals, inside), Original(ps, full), Rewritten(hosts, chunks, reals).0, full)
    decreases |chunks|
  {
    hide TokenName; hide Pictures; hide Original; hide Written;
    if chunks == [] {
      NothingPictured(full);
      assert Original(ps, full) == "" by { NothingMeant(full); }
    } else {
      var c, rest, k := chunks[0], chunks[1..], cuts[0];
      var a, tail := ps[..k], ps[k..];
      var rs := if hosts.Replaces(c) then Known(reals, c.text) else reals;
      SecondPictures(hosts, tail, rest, cuts[1..], rs, inside, full);
      var qs, after := SecondPieces(hosts, tail, rest, cuts[1..], rs, inside), Rewritten(hosts, rest, rs);
      assert ps == a + tail;
      OriginalConcat(a, tail, full);
      if hosts.Replaces(c) {
        var n := TokenOf(rs, c.text);
        TokenPictures(n, full);
        PicturesMore([Tok(n)], qs, Original(a, full), TokenName(n), Original(tail, full), after.0, full);
      } else {
        assert Pictures(a, Original(a, full), c.text, full) by { PiecesPictured(a, full); }
        PicturesMore(a, qs, Original(a, full), c.text, Original(tail, full), after.0, full);
      }
    }
  }

  lemma NothingMeant(full: map<nat, string>)
    ensures Original([], full) == ""
  {
  }

  lemma PiecesPictured(ps: seq<Piece>, full: map<nat, string>)
    ensures Pictures(ps, Original(ps, full), Written(ps), full)
  {
  }

  lemma {:induction false} SecondWithin(hosts: Scanner, ps: seq<Piece>, chunks: seq<Chunk>, cuts: seq<nat>, reals: seq<string>,
                                        inside: map<nat, seq<Piece>>)
    requires Aligned(hosts, ps, chunks, cuts, reals, inside) && Within(ps, |reals|)
    ensures Within(SecondPieces(hosts, ps, chunks, cuts, reals, inside), |Rewritten(hosts, chunks, reals).1|)
    decreases |chunks|
  {
    hide TokenName; hide Written;
    if chunks != [] {
      var c, rest, k := chunks[0], chunks[1..], cuts[0];
      var rs := if hosts.Replaces(c) then Known(reals, c.text) else reals;
      assert forall p :: p in ps[..k] || p in ps[k..] ==> p in ps;
      SecondWithin(hosts, ps[k..], rest, cuts[1..], rs, inside);
      RealsGrow(hosts, rest, rs);
    }
  }

  /** The token stands among the pieces, and holds the pieces of its host name. */
  ghost predicate HeldAt(n: nat, ps: seq<Piece>, inside: map<nat, seq<Piece>>, all: seq<string>, first: nat)
    requires 1 <= n <= |all|
  {
    Tok(n) in ps && n in inside && Written(inside[n]) == ValueAt(all, n) && Within(inside[n], first)
  }

  lemma {:induction false} HostsHeld(hosts: Scanner, ps: seq<Piece>, chunks: seq<Chunk>, cuts: seq<nat>, reals: seq<string>,
                                     inside: map<nat, seq<Piece>>, first: nat)
    requires Aligned(hosts, ps, chunks, cuts, reals, inside) && Within(ps, first)
    ensures var all := Rewritten(hosts, chunks, reals).1;
      forall n: nat :: |reals| < n <= |all| ==> HeldAt(n, SecondPieces(hosts, ps, chunks, cuts, reals, inside), inside, all, first)
    decreases |chunks|
  {
    hide TokenName; hide Written; hide HeldAt; hide TokenOf;
    if chunks != [] {
      var c, rest, k := chunks[0], chunks[1..], cuts[0];
      var rs := if hosts.Replaces(c) then Known(reals, c.text) else reals;
      assert forall p :: p in ps[..k] || p in ps[k..] ==> p in ps;
      HostsHeld(hosts, ps[k..], rest, cuts[1..], rs, inside, first);
      RealsGrow(hosts, rest, rs);
      var all, qs := Rewritten(hosts, rest, rs).1, SecondPieces(hosts, ps[k..], rest, cuts[1..], rs, inside);
      var x := if hosts.Replaces(c) then [Tok(TokenOf(rs, c.text))] else ps[..k];
      forall n: nat | |reals| < n <= |all|
        ensures HeldAt(n, x + qs, inside, all, first)
      {
        if n > |rs| {
          HeldLater(n, x, qs, inside, all, first);
        } else {
          LastToken(reals, c.text);
          HeldFirst(n, x, qs, inside, all, first, c.text);
        }
      }
    }
  }

  lemma HeldLater(n: nat, x: seq<Piece>, qs: seq<Piece>, inside: map<nat, seq<Piece>>, all: seq<string>, first: nat)
    requires 1 <= n <= |all| && HeldAt(n, qs, inside, all, first)
    ensures HeldAt(n, x + qs, inside, all, first)
  {
    hide Written;
  }

  lemma HeldFirst(n: nat, x: seq<Piece>, qs: seq<Piece>, inside: map<nat, seq<Piece>>, all: seq<string>, first: nat, v: string)
    requires 1 <= n <= |all| && all[n - 1] == v && x == [Tok(n)] && n in inside && Written(inside[n]) == v && Within(inside[n], first)
    ensures HeldAt(n, x + qs, inside, all, first)
  {
    hide Written;
  }

  // ---- Round trip ----

  /** The pieces of the redacted text; `cuts` says where the second pass's chunks end. */
  function RedactedPieces(ips: Scanner, hosts: Option<Scanner>, text: string, cuts: seq<nat>, inside: map<nat, seq<Piece>>): seq<Piece>
    requires PassesAligned(ips, hosts, text, cuts, inside)
  {
    var first := FirstPieces(ips, ips.cut(text), []);
    match hosts
    case None => first
    case Some(h) =>
      var (out, reals) := Rewritten(ips, ips.cut(text), []);
      SecondPieces(h, first, h.cut(out), cuts, reals, inside)
  }

  /** `inside` holds the pieces of every value: plain text for the first pass's, chunks of its output for the second's. */
  ghost predicate PassesAligned(ips: Scanner, hosts: Option<Scanner>, text: string, cuts: seq<nat>, inside: map<nat, seq<Piece>>) {
    var (out, reals) := Rewritten(ips, ips.cut(text), []);
    && inside.Keys == Vals(Redacted(ips, hosts, text).1).Keys
    && (forall n: nat :: 1 <= n <= |reals| ==> Holds(inside, n, Lits(ValueAt(reals, n))))
    && (hosts.Some? ==> Aligned(hosts.value, FirstPieces(ips, ips.cut(text), []), hosts.value.cut(out), cuts, reals, inside))
  }

  /** How many values the first pass replaced. */
  function FirstCount(ips: Scanner, text: string): nat {
    |Rewritten(ips, ips.cut(text), []).1|
  }

  /** What the passes replace nests: addresses are plain, host names may hold tokens of addresses. */
  lemma RedactedNests(ips: Scanner, hosts: Option<Scanner>, text: string, cuts: seq<nat>, inside: map<nat, seq<Piece>>)
    requires PassesAligned(ips, hosts, text, cuts, inside)
    ensures var reals := Redacted(ips, hosts, text).1;
      && Nested(Vals(reals), inside, FirstCount(ips, text), |reals|)
      && KnownTokens(RedactedPieces(ips, hosts, text, cuts, inside), Vals(reals))
      && forall k: nat :: FirstCount(ips, text) < k <= |reals| ==> Tok(k) in RedactedPieces(ips, hosts, text, cuts, inside)
  {
    hide Rewritten; hide TokenName; hide Aligned; hide Written; hide RedactedPieces;
    var first := Rewritten(ips, ips.cut(text), []).1;
    var all, ps := Redacted(ips, hosts, text).1, RedactedPieces(ips, hosts, text, cuts, inside);
    TokensHeld(ips, hosts, text, cuts, inside);
    forall n: nat | 1 <= n <= |all|
      ensures Written(inside[n]) == ValueAt(all, n) && Within(inside[n], |first|)
      ensures n <= |first| ==> inside[n] == Lits(ValueAt(all, n))
      ensures n > |first| ==> Tok(n) in ps
    {
      if n <= |first| {
        assert ValueAt(all, n) == ValueAt(first, n) && Holds(inside, n, Lits(ValueAt(first, n)));
        LitsStand(ValueAt(first, n), Vals(first));
      } else {
        assert HeldAt(n, ps, inside, all, |first|);
      }
    }
    forall i | 0 <= i < |ps| && ps[i].Tok?
      ensures ps[i].n in Vals(all)
    {
      assert Tok(ps[i].n) in ps;
    }
  }

  lemma TokensHeld(ips: Scanner, hosts: Option<Scanner>, text: string, cuts: seq<nat>, inside: map<nat, seq<Piece>>)
    requires PassesAligned(ips, hosts, text, cuts, inside)
    ensures var first, all := Rewritten(ips, ips.cut(text), []).1, Redacted(ips, hosts, text).1;
      && first <= all && Within(RedactedPieces(ips, hosts, text, cuts, inside), |all|)
      && forall n: nat :: |first| < n <= |all| ==> HeldAt(n, RedactedPieces(ips, hosts, text, cuts, inside), inside, all, |first|)
  {
    hide Rewritten; hide TokenName; hide Aligned; hide Written; hide HeldAt; hide Within;
    var chunks := ips.cut(text);
    var (out, first) := Rewritten(ips, chunks, []);
    FirstPictures(ips, chunks, [], Vals(first));
    if hosts.Some? {
      var h := hosts.value;
      SecondWithin(h, FirstPieces(ips, chunks, []), h.cut(out), cuts, first, inside);
      HostsHeld(h, FirstPieces(ips, chunks, []), h.cut(out), cuts, first, inside, |first|);
      RealsGrow(h, h.cut(out), first);
    }
  }

  /** The redacted text is the original with tokens for the replaced values, tokens inside host names included. */
  lemma RedactedPictures(ips: Scanner, hosts: Option<Scanner>, text: string, cuts: seq<nat>, inside: map<nat, seq<Piece>>)
    requires ips.Faithful() && PassesAligned(ips, hosts, text, cuts, inside)
    ensures var (out, reals) := Redacted(ips, hosts, text);
      Pictures(RedactedPieces(ips, hosts, text, cuts, inside), text, out, Full(Vals(reals), inside))
  {
    hide Rewritten; hide TokenName; hide Aligned; hide Pictures; hide Nested; hide Full; hide KnownTokens;
    var chunks := ips.cut(text);
    var (out, first) := Rewritten(ips, chunks, []);
    var all := Redacted(ips, hosts, text).1;
    var full := Full(Vals(all), inside);
    RedactedNests(ips, hosts, text, cuts, inside);
    FullMeans(Vals(all), inside, |first|, |all|);
    FirstRecorded(ips, hosts, text, full);
    FirstPictures(ips, chunks, [], full);
    if hosts.Some? {
      var h := hosts.value;
      SecondPictures(h, FirstPieces(ips, chunks, []), h.cut(out), cuts, first, inside, full);
      assert Original(FirstPieces(ips, chunks, []), full) == text by { MeantIs(FirstPieces(ips, chunks, []), text, out, full); }
    }
  }

  lemma MeantIs(ps: seq<Piece>, before: string, after: string, full: map<nat, string>)
    requires Pictures(ps, before, after, full)
    ensures Original(ps, full) == before
  {
  }

  lemma FirstRecorded(ips: Scanner, hosts: Option<Scanner>, text: string, full: map<nat, string>)
    requires var all := Redacted(ips, hosts, text).1;
      full.Keys == Vals(all).Keys && forall n :: n in Vals(all) && n <= FirstCount(ips, text) ==> full[n] == Vals(all)[n]
    ensures Records(full, Rewritten(ips, ips.cut(text), []).1)
  {
    hide Rewritten;
    var (out, first) := Rewritten(ips, ips.cut(text), []);
    if hosts.Some? {
      RealsGrow(hosts.value, hosts.value.cut(out), first);
    }
    assert forall n: nat :: 1 <= n <= |first| ==> ValueAt(first, n) == ValueAt(Redacted(ips, hosts, text).1, n);
  }

  /** The digits that follow replaced values, inside host names too, spell no other token in use. */
  ghost predicate DigitsApart(ips: Scanner, hosts: Option<Scanner>, text: string, cuts: seq<nat>, inside: map<nat, seq<Piece>>)
    requires PassesAligned(ips, hosts, text, cuts, inside)
  {
    var reals := Redacted(ips, hosts, text).1;
    SeparatedDeep(RedactedPieces(ips, hosts, text, cuts, inside), inside, Full(Vals(reals), inside), |reals|)
  }

  /** Each token inside a host name is shorter than the host's own, or reads the same after its turn. */
  ghost predicate SwallowsHarmless(ips: Scanner, hosts: Option<Scanner>, text: string, inside: map<nat, seq<Piece>>) {
    var vals := Vals(Redacted(ips, hosts, text).1);
    forall k, m: nat :: k in vals && k in inside && Tok(m) in inside[k] ==> Shorter(m, k) || Coincides(vals, m)
  }

  /** The map and an order of its tokens, as expansion uses them. */
  ghost predicate MapsFor(ips: Scanner, hosts: Option<Scanner>, text: string, mapping: map<string, string>) {
    Names(mapping, Vals(Redacted(ips, hosts, text).1)) && "" !in mapping
  }

  /**
   Expanding the redacted text restores the original, for every text that does not itself
   spell a token, in every order of tokens of equal length, when no digit that follows a
   replaced value spells another token in use and the tokens inside host names are shorter
   than the host's own.
   */
  lemma RoundTrip(ips: Scanner, hosts: Option<Scanner>, text: string, cuts: seq<nat>, inside: map<nat, seq<Piece>>,
                  mapping: map<string, string>, tokens: seq<string>)
    requires ips.Faithful() && NoPrefix(text) && PassesAligned(ips, hosts, text, cuts, inside)
    requires MapsFor(ips, hosts, text, mapping) && LongestFirst(tokens, mapping)
    requires DigitsApart(ips, hosts, text, cuts, inside) && SwallowsHarmless(ips, hosts, text, inside)
    ensures ExpandWith(Redacted(ips, hosts, text).0, mapping, tokens) == text
  {
    hide NoPrefix; hide Names; hide TokenName; hide Redacted; hide RedactedPieces; hide PassesAligned; hide SeparatedDeep; hide Full;
    hide Nested; hide Shorter; hide Coincides; hide ExpandWith;
    var (out, reals) := Redacted(ips, hosts, text);
    var ps := RedactedPieces(ips, hosts, text, cuts, inside);
    RedactedPictures(ips, hosts, text, cuts, inside);
    RedactedNests(ips, hosts, text, cuts, inside);
    SameInside(Vals(reals), inside, FirstCount(ips, text), |reals|);
    SwallowedRestored(ps, Vals(reals), inside, FirstCount(ips, text), |reals|, mapping, tokens);
  }

  lemma SameInside(vals: map<nat, string>, inside: map<nat, seq<Piece>>, first: nat, count: nat)
    requires Nested(vals, inside, first, count)
    ensures inside.Keys == vals.Keys
  {
  }

  /** With fewer than ten distinct values, or with no digit after a value, no digit can do harm. */
  lemma FewTokensSeparated(ps: seq<Piece>, inside: map<nat, seq<Piece>>, full: map<nat, string>, count: nat)
    requires forall i :: 0 <= i < |ps| && ps[i].Tok? ==> ps[i].n > 0 && (ps[i].n in inside ==> AllPositive(inside[ps[i].n]))
    requires count < 10 || (NoDigitAfter(ps, "", full)
      && forall i :: 0 <= i < |ps| && ps[i].Tok? && ps[i].n in inside ==> NoDigitAfter(inside[ps[i].n], Original(ps[i + 1..], full), full))
    ensures SeparatedDeep(ps, inside, full, count)
  {
    hide Original;
    forall i | 0 <= i < |ps| && ps[i].Tok?
      ensures Guarded(ps[i].n, Original(ps[i + 1..], full), count)
    {
      assert Original(ps[i + 1..], full) + "" == Original(ps[i + 1..], full);
    }
  }

  predicate AllPositive(ps: seq<Piece>) {
    forall i :: 0 <= i < |ps| && ps[i].Tok? ==> ps[i].n > 0
  }

  predicate NoDigitAfter(ps: seq<Piece>, after: string, full: map<nat, string>) {
    forall i :: 0 <= i < |ps| && ps[i].Tok? ==>
      var next := Original(ps[i + 1..], full) + after; next == "" || !Decimal.IsDigit(next[0])
  }

  // ---- The token map ----

  /** A pass cuts the value out as a match and finds it internal. */
  ghost predicate ReplacedIn(scanner: Scanner, chunks: seq<Chunk>, v: string) {
    scanner.internal(v) && exists i :: 0 <= i < |chunks| && chunks[i] == Found(v)
  }

  lemma {:induction false} KnownValues(scanner: Scanner, chunks: seq<Chunk>, reals: seq<string>, v: string)
    ensures v in Rewritten(scanner, chunks, reals).1 <==> v in reals || ReplacedIn(scanner, chunks, v)
  {
    hide TokenName; hide TokenOf;
    if chunks != [] {
      var c, rest := chunks[0], chunks[1..];
      KnownValues(scanner, rest, if scanner.Replaces(c) then Known(reals, c.text) else reals, v);
      assert forall i :: 0 <= i < |rest| ==> rest[i] == chunks[i + 1];
      assert c == if c.Found? then Found(c.text) else Kept(c.text);
    }
  }

  /** What each chunk becomes: an internal match the token of its value, anything else what it was. */
  function Rendered(scanner: Scanner, chunks: seq<Chunk>, all: seq<string>): string
    requires forall c :: c in chunks && c.Found? && scanner.internal(c.text) ==> c.text in all
  {
    if chunks == [] then ""
    else
      (if chunks[0].Found? && scanner.internal(chunks[0].text) then TokenName(TokenOf(all, chunks[0].text)) else chunks[0].text)
      + Rendered(scanner, chunks[1..], all)
  }

  lemma {:induction false} SameToken(reals: seq<string>, all: seq<string>, v: string)
    requires v in reals && reals <= all
    ensures TokenOf(all, v) == TokenOf(reals, v)
  {
    if reals[0] != v {
      SameToken(reals[1..], all[1..], v);
    }
  }

  /** One pass, match by match: the same value gets the same token everywhere, and no other text changes. */
  lemma {:induction false} RewrittenRenders(scanner: Scanner, chunks: seq<Chunk>, reals: seq<string>)
    ensures var (out, all) := Rewritten(scanner, chunks, reals);
      && (forall c :: c in chunks && c.Found? && scanner.internal(c.text) ==> c.text in all)
      && out == Rendered(scanner, chunks, all)
  {
    hide TokenName; hide TokenOf;
    if chunks != [] {
      var c, rest := chunks[0], chunks[1..];
      var rs := if scanner.Replaces(c) then Known(reals, c.text) else reals;
      RewrittenRenders(scanner, rest, rs);
      RealsGrow(scanner, rest, rs);
      if c.Found? && scanner.internal(c.text) {
        SameToken(rs, Rewritten(scanner, rest, rs).1, c.text);
      }
    }
  }

  /** A pass that finds nothing internal changes neither the text nor the values known. */
  lemma {:induction false} NothingInternal(scanner: Scanner, chunks: seq<Chunk>, reals: seq<string>)
    requires forall v :: Found(v) in chunks ==> !scanner.internal(v)
    ensures Rewritten(scanner, chunks, reals) == (Join(chunks), reals)
  {
    if chunks != [] {
      assert chunks[0] == if chunks[0].Found? then Found(chunks[0].text) else Kept(chunks[0].text);
      NothingInternal(scanner, chunks[1..], reals);
    }
  }

  /** Text without an internal address or host name, public addresses included, leaves as it came. */
  lemma ExternalUntouched(ips: Scanner, hosts: Option<Scanner>, text: string)
    requires ips.Faithful() && (hosts.Some? ==> hosts.value.Faithful())
    requires forall v :: Found(v) in ips.cut(text) ==> !ips.internal(v)
    requires hosts.Some? ==> forall v :: Found(v) in hosts.value.cut(text) ==> !hosts.value.internal(v)
    ensures Redacted(ips, hosts, text) == (text, [])
  {
    NothingInternal(ips, ips.cut(text), []);
    if hosts.Some? {
      NothingInternal(hosts.value, hosts.value.cut(text), []);
    }
  }

  /** One value, one token: the entries of distinct values are distinct. */
  lemma OneToken(mapping: map<string, string>, reals: seq<string>, t: string, u: string)
    requires Names(mapping, Vals(reals)) && Distinct(reals)
    requires t in mapping && u in mapping && mapping[t] == mapping[u]
    ensures t == u
  {
    hide TokenName; hide Names; hide Vals;
    NamedEntry(mapping, reals, t);
    NamedEntry(mapping, reals, u);
  }

  lemma ValuesNamed(mapping: map<string, string>, reals: seq<string>, v: string)
    requires Names(mapping, Vals(reals))
    ensures (exists t :: t in mapping && mapping[t] == v) <==> v in reals
  {
    hide TokenName;
    if v in reals {
      var i :| 0 <= i < |reals| && reals[i] == v;
      assert ValueAt(reals, i + 1) == v && i + 1 in Vals(reals);
      assert TokenName(i + 1) in mapping;
    }
    if t :| t in mapping && mapping[t] == v {
      NamedEntry(mapping, reals, t);
    }
  }

  /** The numbered values are exactly those one of the two passes replaced. */
  lemma RealsReplaced(ips: Scanner, hosts: Option<Scanner>, text: string, v: string)
    ensures v in Redacted(ips, hosts, text).1 <==>
              ReplacedIn(ips, ips.cut(text), v)
              || (hosts.Some? && ReplacedIn(hosts.value, hosts.value.cut(Rewritten(ips, ips.cut(text), []).0), v))
  {
    hide Rewritten; hide ReplacedIn;
    var (out, first) := Rewritten(ips, ips.cut(text), []);
    KnownValues(ips, ips.cut(text), [], v);
    if hosts.Some? {
      KnownValues(hosts.value, hosts.value.cut(out), first, v);
    }
  }

  lemma RealsDistinct(ips: Scanner, hosts: Option<Scanner>, text: string)
    ensures Distinct(Redacted(ips, hosts, text).1)
  {
    hide Rewritten;
    var (out, first) := Rewritten(ips, ips.cut(text), []);
    RealsGrow(ips, ips.cut(text), []);
    if hosts.Some? {
      RealsGrow(hosts.value, hosts.value.cut(out), first);
    }
  }

  /** The map is a bijection between the tokens HOST_1 to HOST_N and the values that were replaced. */
  lemma TokenMapBijective(ips: Scanner, hosts: Option<Scanner>, text: string, mapping: map<string, string>)
    requires Names(mapping, Vals(Redacted(ips, hosts, text).1))
    ensures forall t, u :: t in mapping && u in mapping && mapping[t] == mapping[u] ==> t == u
    ensures forall v :: (exists t :: t in mapping && mapping[t] == v) <==>
              ReplacedIn(ips, ips.cut(text), v)
              || (hosts.Some? && ReplacedIn(hosts.value, hosts.value.cut(Rewritten(ips, ips.cut(text), []).0), v))
  {
    hide TokenName; hide Rewritten; hide ReplacedIn; hide Names; hide Redacted; hide Distinct;
    var reals := Redacted(ips, hosts, text).1;
    RealsDistinct(ips, hosts, text);
    hide Vals;
    forall t, u | t in mapping && u in mapping && mapping[t] == mapping[u]
      ensures t == u
    {
      OneToken(mapping, reals, t, u);
    }
    forall v
      ensures (exists t :: t in mapping && mapping[t] == v) <==>
        ReplacedIn(ips, ips.cut(text), v)
        || (hosts.Some? && ReplacedIn(hosts.value, hosts.value.cut(Rewritten(ips, ips.cut(text), []).0), v))
    {
      ValuesNamed(mapping, reals, v);
      RealsReplaced(ips, hosts, text, v);
    }
  }

  lemma NamedEntry(mapping: map<string, string>, reals: seq<string>, t: string)
    requires Names(mapping, Vals(reals)) && t in mapping
    ensures exists n: nat :: 1 <= n <= |reals| && TokenName(n) == t && mapping[t] == ValueAt(reals, n)
  {
    hide TokenName;
    assert IsName(t, Vals(reals));
    var n :| n in Vals(reals) && TokenName(n) == t;
    assert 1 <= n <= |reals| && mapping[t] == ValueAt(reals, n);
  }
}
