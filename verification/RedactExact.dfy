/** Exactly which redacted texts expansion restores. */
module RedactionExact {
  import opened Text
  import Decimal
  import opened Expansion
  import opened ExpansionExact
  import opened Swallowing
  import opened SwallowingExact
  import opened Redaction

  // ---- Digits after replaced values ----

  /** When no host name holds a token, every value stands for itself. */
  lemma PlainFull(vals: map<nat, string>)
    ensures Full(vals, Plain(vals)) == vals
  {
    hide Original;
    forall n | n in vals
      ensures Original(Lits(vals[n]), vals) == vals[n]
    {
      LitsStand(vals[n], vals);
    }
  }

  lemma LiteralsShow(ps: seq<Piece>, vals: map<nat, string>)
    requires LiteralPrefix(ps)
    ensures PREFIX <= Original(ps, vals)
  {
    assert ps == Lits(PREFIX) + ps[5..];
    OriginalConcat(Lits(PREFIX), ps[5..], vals);
    LitsStand(PREFIX, vals);
  }

  lemma NoLiteralsSpellOne(ps: seq<Piece>, vals: map<nat, string>)
    requires NoPrefix(Original(ps, vals))
    ensures NoLiteralPrefix(ps)
  {
    hide LiteralPrefix; hide Original;
    forall i | 0 <= i < |ps|
      ensures !LiteralPrefix(ps[i..])
    {
      assert ps == ps[..i] + ps[i..];
      OriginalConcat(ps[..i], ps[i..], vals);
      NoPrefixTail(Original(ps[..i], vals), Original(ps[i..], vals));
      assert Original(ps[i..], vals)[0..] == Original(ps[i..], vals);
      if LiteralPrefix(ps[i..]) {
        LiteralsShow(ps[i..], vals);
      }
    }
  }

  /** Values none of which begins another are apart. */
  lemma PrefixFreeApart(vals: map<nat, string>)
    requires forall m, n :: m in vals && n in vals && m != n ==> !(vals[m] <= vals[n])
    ensures Apart(vals)
  {
    hide TokenName;
    forall m, n, ds: string | m in vals && n in vals && ds != "" && TokenName(n) == TokenName(m) + ds
      ensures AtOdds(vals[m] + ds, vals[n])
    {
      assert m != n && vals[m] <= vals[m] + ds;
      CommonStart(vals[m], ds, vals[n]);
    }
  }

  lemma CommonStart(s: string, ds: string, t: string)
    ensures s + ds <= t ==> s <= t
    ensures t <= s + ds ==> t <= s || s <= t
  {
    assert (s + ds)[..|s|] == s;
    if |t| <= |s| {
      ShortPrefix(t, s, ds);
    } else {
      assert t <= s + ds ==> t[..|s|] == (s + ds)[..|s|];
    }
  }

  /**
   Where no host name holds a token, the redacted text comes back if and only if no digit
   straight after a replaced value makes its token's number another one in use.
   */
  lemma RestoredIffNoDigitMerges(ips: Scanner, hosts: Option<Scanner>, text: string, cuts: seq<nat>,
                                 mapping: map<string, string>, tokens: seq<string>)
    requires ips.Faithful() && NoPrefix(text) && MapsFor(ips, hosts, text, mapping) && LongestFirst(tokens, mapping)
    requires PassesAligned(ips, hosts, text, cuts, Plain(Vals(Redacted(ips, hosts, text).1)))
    requires var vals := Vals(Redacted(ips, hosts, text).1);
      && Spread(RedactedPieces(ips, hosts, text, cuts, Plain(vals)), vals)
      && Apart(vals) && forall n :: n in vals ==> Seamless(vals[n])
    ensures var (out, reals) := Redacted(ips, hosts, text);
      (ExpandWith(out, mapping, tokens) == text) <==>
      DigitsHarmless(RedactedPieces(ips, hosts, text, cuts, Plain(Vals(reals))), |reals|)
  {
    hide TokenName; hide Redacted; hide PassesAligned; hide NoPrefix; hide RedactedPieces; hide Names; hide Spread; hide Apart;
    hide Seamless; hide ExpandWith; hide Plain; hide DigitsHarmless; hide NoLiteralPrefix; hide Nested; hide KnownTokens; hide Vals;
    var (out, reals) := Redacted(ips, hosts, text);
    var vals := Vals(reals);
    var ps := RedactedPieces(ips, hosts, text, cuts, Plain(vals));
    RedactedNests(ips, hosts, text, cuts, Plain(vals));
    RedactedPictures(ips, hosts, text, cuts, Plain(vals));
    PlainFull(vals);
    NoLiteralsSpellOne(ps, vals);
    NumberedPositive(ps, vals, Plain(vals), FirstCount(ips, text), |reals|);
    RestoredIffDigitsHarmless(ps, vals, |reals|, mapping, tokens);
  }

  lemma NumberedPositive(ps: seq<Piece>, vals: map<nat, string>, inside: map<nat, seq<Piece>>, first: nat, count: nat)
    requires Nested(vals, inside, first, count) && KnownTokens(ps, vals)
    ensures Numbered(vals, count) && Positive(ps, count)
  {
    hide Written;
  }

  // ---- Host names that hold tokens ----

  /**
   Where digits do no harm, the redacted text comes back in every order of tokens of equal
   length if and only if each token inside a host name has fewer digits than the host's own,
   or stands for its decade's value followed by its last digit.
   */
  lemma RestoredInEveryOrderIff(ips: Scanner, hosts: Option<Scanner>, text: string, cuts: seq<nat>, inside: map<nat, seq<Piece>>,
                                mapping: map<string, string>)
    requires ips.Faithful() && NoPrefix(text) && PassesAligned(ips, hosts, text, cuts, inside)
    requires MapsFor(ips, hosts, text, mapping) && DigitsApart(ips, hosts, text, cuts, inside)
    requires Loose(RedactedPieces(ips, hosts, text, cuts, inside)) && forall n :: n in inside ==> Loose(inside[n])
    requires forall n :: n in Vals(Redacted(ips, hosts, text).1) && n <= FirstCount(ips, text) ==>
      Seamless(Vals(Redacted(ips, hosts, text).1)[n])
    ensures (forall tokens :: LongestFirst(tokens, mapping) ==> ExpandWith(Redacted(ips, hosts, text).0, mapping, tokens) == text)
      <==> SwallowsHarmless(ips, hosts, text, inside)
  {
    hide TokenName; hide Redacted; hide PassesAligned; hide NoPrefix; hide RedactedPieces; hide Names; hide Loose; hide Full;
    hide Seamless; hide ExpandWith; hide SeparatedDeep; hide Nested; hide KnownTokens; hide Shorter; hide Coincides;
    var (out, reals) := Redacted(ips, hosts, text);
    var ps := RedactedPieces(ips, hosts, text, cuts, inside);
    RedactedNests(ips, hosts, text, cuts, inside);
    RedactedPictures(ips, hosts, text, cuts, inside);
    SameInside(Vals(reals), inside, FirstCount(ips, text), |reals|);
    RestoredIffShorter(ps, Vals(reals), inside, FirstCount(ips, text), |reals|, mapping);
  }

  // ---- Equal host names hold equal pieces ----

  /** The pieces can be read off their text: no token takes a digit for its own, and no literals spell a name. */
  ghost predicate Legible(ps: seq<Piece>, count: nat) {
    && Within(ps, count)
    && (forall i :: 0 <= i < |ps| && ps[i].Lit? ==> !(PREFIX <= Written(ps[i..])))
    && forall i :: 0 <= i < |ps| - 1 && ps[i].Tok? && ps[i + 1].Lit? && Decimal.IsDigit(ps[i + 1].c) ==>
         10 * ps[i].n + Decimal.DigitValue(ps[i + 1].c) > count
  }

  lemma LegibleTail(ps: seq<Piece>, count: nat)
    requires ps != [] && Legible(ps, count)
    ensures Legible(ps[1..], count)
  {
    hide Written;
    var t := ps[1..];
    assert forall i :: 0 <= i < |t| ==> t[i] == ps[i + 1] && t[i..] == ps[i + 1..];
    assert forall p :: p in t ==> p in ps;
  }

  lemma LegibleSplit(ps: seq<Piece>, k: nat, count: nat)
    requires k <= |ps| && Legible(ps, count)
    ensures Legible(ps[..k], count) && Legible(ps[k..], count)
  {
    hide Written;
    assert forall p :: p in ps[..k] || p in ps[k..] ==> p in ps;
    forall i | 0 <= i < k && ps[i].Lit?
      ensures !(PREFIX <= Written(ps[..k][i..]))
    {
      assert ps[i..] == ps[..k][i..] + ps[k..];
      WrittenConcat(ps[..k][i..], ps[k..]);
    }
    assert forall i :: 0 <= i < |ps[k..]| ==> ps[k..][i] == ps[i + k] && ps[k..][i..] == ps[i + k..];
  }

  /** Two different tokens do not begin the same text. */
  lemma HeadsSame(a: seq<Piece>, b: seq<Piece>, count: nat)
    requires a != [] && b != [] && a[0].Tok? && b[0].Tok? && Legible(a, count) && Legible(b, count)
    requires Written(a) == Written(b) && |TokenName(a[0].n)| <= |TokenName(b[0].n)|
    ensures a[0] == b[0]
  {
    hide TokenName;
    var m, n, rest := a[0].n, b[0].n, Written(a[1..]);
    assert a[0] in a && b[0] in b && Tok(n) in b && Tok(m) in a;
    assert TokenName(n) <= TokenName(m) + rest;
    LongerName(m, n, rest);
    FirstLetter(a[1..], map[]);
    if rest != "" && Decimal.IsDigit(rest[0]) {
      assert a[1].Lit? && a[1].c == rest[0];
    }
  }

  lemma {:induction false} SameReading(a: seq<Piece>, b: seq<Piece>, count: nat)
    requires Legible(a, count) && Legible(b, count) && Written(a) == Written(b)
    ensures a == b
    decreases |a|
  {
    hide Legible; hide TokenName;
    FirstLetter(a, map[]);
    FirstLetter(b, map[]);
    if a != [] && b != [] {
      SameKind(a, b, count);
      if a[0].Tok? {
        if |TokenName(a[0].n)| <= |TokenName(b[0].n)| {
          HeadsSame(a, b, count);
        } else {
          HeadsSame(b, a, count);
        }
      }
      LegibleTail(a, count);
      LegibleTail(b, count);
      SameRest(a, b);
      SameReading(a[1..], b[1..], count);
      assert a == [a[0]] + a[1..] && b == [b[0]] + b[1..];
    }
  }

  lemma SameKind(a: seq<Piece>, b: seq<Piece>, count: nat)
    requires a != [] && b != [] && Legible(a, count) && Legible(b, count) && Written(a) == Written(b)
    ensures a[0].Lit? <==> b[0].Lit?
    ensures a[0].Lit? ==> a[0] == b[0]
  {
    FirstLetter(a, map[]);
    FirstLetter(b, map[]);
    assert a[0..] == a && b[0..] == b;
    assert a[0].Tok? ==> PREFIX <= Written(a);
    assert b[0].Tok? ==> PREFIX <= Written(b);
  }

  lemma SameRest(a: seq<Piece>, b: seq<Piece>)
    requires a != [] && b != [] && a[0] == b[0] && Written(a) == Written(b)
    ensures Written(a[1..]) == Written(b[1..])
  {
    hide TokenName;
    var x := Written([a[0]]);
    WrittenConcat([a[0]], a[1..]);
    WrittenConcat([b[0]], b[1..]);
    assert a == [a[0]] + a[1..] && b == [b[0]] + b[1..];
    assert (x + Written(a[1..]))[|x|..] == Written(a[1..]) && (x + Written(b[1..]))[|x|..] == Written(b[1..]);
  }

  /** The second pass's chunks end between pieces. */
  predicate CutBetween(ps: seq<Piece>, chunks: seq<Chunk>, cuts: seq<nat>) {
    |cuts| == |chunks|
    && if chunks == [] then ps == []
       else
         && cuts[0] <= |ps| && Written(ps[..cuts[0]]) == chunks[0].text
         && CutBetween(ps[cuts[0]..], chunks[1..], cuts[1..])
  }

  /** The pieces of the values known so far. */
  ghost predicate PiecesKnown(inside: map<nat, seq<Piece>>, reals: seq<string>, count: nat) {
    && (forall n: nat :: n in inside <==> 1 <= n <= |reals|)
    && forall n :: n in inside ==> Written(inside[n]) == ValueAt(reals, n) && Legible(inside[n], count)
  }

  lemma {:induction false} PiecesFound(hosts: Scanner, ps: seq<Piece>, chunks: seq<Chunk>, cuts: seq<nat>, reals: seq<string>,
                                       known: map<nat, seq<Piece>>, count: nat) returns (inside: map<nat, seq<Piece>>)
    requires CutBetween(ps, chunks, cuts) && Legible(ps, count) && PiecesKnown(known, reals, count)
    ensures Aligned(hosts, ps, chunks, cuts, reals, inside) && PiecesKnown(inside, Rewritten(hosts, chunks, reals).1, count)
    ensures forall n :: n in known ==> Holds(inside, n, known[n])
    decreases |chunks|
  {
    hide Legible; hide PiecesKnown; hide Written; hide TokenName; hide TokenOf;
    if chunks == [] {
      inside := known;
    } else {
      var c, k := chunks[0], cuts[0];
      LegibleSplit(ps, k, count);
      if hosts.Replaces(c) {
        var rs := Known(reals, c.text);
        var n := TokenOf(rs, c.text);
        var more := KnownPieces(known, reals, count, c.text, ps[..k]);
        inside := PiecesFound(hosts, ps[k..], chunks[1..], cuts[1..], rs, more, count);
        assert Holds(inside, n, more[n]);
      } else {
        inside := PiecesFound(hosts, ps[k..], chunks[1..], cuts[1..], reals, known, count);
      }
    }
  }

  /** A value that is known already was found with these very pieces. */
  lemma KnownPieces(known: map<nat, seq<Piece>>, reals: seq<string>, count: nat, v: string, w: seq<Piece>)
    returns (more: map<nat, seq<Piece>>)
    requires PiecesKnown(known, reals, count) && Written(w) == v && Legible(w, count)
    ensures PiecesKnown(more, Known(reals, v), count) && Holds(more, TokenOf(Known(reals, v), v), w)
    ensures forall n :: n in known ==> Holds(more, n, known[n])
  {
    hide Legible; hide Written;
    var n := TokenOf(Known(reals, v), v);
    if v in reals {
      more := known;
      SameReading(known[n], w, count);
    } else {
      LastToken(reals, v);
      more := known[n := w];
    }
  }

  lemma {:induction false} ChunkQuiet(chunks: seq<Chunk>, i: nat)
    requires i < |chunks| && NoPrefix(Join(chunks))
    ensures NoPrefix(chunks[i].text)
  {
    hide NoPrefix;
    NoPrefixTail(chunks[0].text, Join(chunks[1..]));
    if i > 0 {
      ChunkQuiet(chunks[1..], i - 1);
    } else {
      NoPrefixStart(chunks[0].text, Join(chunks[1..]));
    }
  }

  lemma NoPrefixStart(x: string, rest: string)
    requires NoPrefix(x + rest)
    ensures NoPrefix(x)
  {
    forall i | 0 <= i <= |x|
      ensures !(PREFIX <= x[i..])
    {
      assert (x + rest)[i..] == x[i..] + rest;
    }
  }

  lemma LitsLegible(v: string, count: nat)
    requires NoPrefix(v)
    ensures Legible(Lits(v), count)
  {
    forall i | 0 <= i < |v|
      ensures !(PREFIX <= Written(Lits(v)[i..]))
    {
      assert Lits(v)[i..] == Lits(v[i..]);
      LitsStand(v[i..], map[]);
    }
  }

  /** What follows a token, and what literals begin, reads the same in the text itself. */
  lemma SeparatedLegible(ps: seq<Piece>, vals: map<nat, string>, count: nat)
    requires NoPrefix(Original(ps, vals)) && Within(ps, count) && Separated(ps, vals, count)
    ensures Legible(ps, count)
  {
    hide TokenName;
    forall i | 0 <= i < |ps| && ps[i].Lit?
      ensures !(PREFIX <= Written(ps[i..]))
    {
      assert ps == ps[..i] + ps[i..];
      OriginalConcat(ps[..i], ps[i..], vals);
      NoPrefixTail(Original(ps[..i], vals), Original(ps[i..], vals));
      LiteralNotPrefix(ps[i..], vals);
    }
    forall i | 0 <= i < |ps| - 1 && ps[i].Tok? && ps[i + 1].Lit?
      ensures Original(ps[i + 1..], vals) != "" && Original(ps[i + 1..], vals)[0] == ps[i + 1].c
    {
      FirstLetter(ps[i + 1..], vals);
    }
  }

  lemma LiteralNotPrefix(ps: seq<Piece>, vals: map<nat, string>)
    requires ps != [] && ps[0].Lit? && NoPrefix(Original(ps, vals))
    ensures !(PREFIX <= Written(ps))
  {
    var x, tail := [ps[0].c], ps[1..];
    FirstLetter(ps, vals);
    assert Original(ps, vals)[0..] == x + Original(tail, vals);
    PrefixSplit(x, PREFIX, Written(tail));
    PrefixSplit(x, PREFIX, Original(tail, vals));
    if PREFIX[1..] <= Written(tail) {
      WrittenAgrees(PREFIX[1..], tail, vals);
    }
  }

  lemma ShowsSomething(ps: seq<Piece>, a: nat, b: nat)
    requires a < b <= |ps|
    ensures |Written(ps[..a])| < |Written(ps[..b])|
  {
    var more := ps[..b][a..];
    assert ps[..b] == ps[..a] + more;
    WrittenConcat(ps[..a], more);
    FirstLetter(more, map[]);
  }

  /** The chunks leave no choice where to cut, and so none of the pieces of a value. */
  lemma {:induction false} SamePieces(hosts: Scanner, ps: seq<Piece>, chunks: seq<Chunk>, reals: seq<string>,
                                      cuts: seq<nat>, inside: map<nat, seq<Piece>>, cuts': seq<nat>, inside': map<nat, seq<Piece>>)
    requires Aligned(hosts, ps, chunks, cuts, reals, inside) && Aligned(hosts, ps, chunks, cuts', reals, inside')
    ensures cuts == cuts'
    ensures forall n: nat :: |reals| < n <= |Rewritten(hosts, chunks, reals).1| ==> n in inside && Holds(inside', n, inside[n])
    decreases |chunks|
  {
    hide Written; hide TokenName; hide TokenOf;
    if chunks != [] {
      var c, k, k' := chunks[0], cuts[0], cuts'[0];
      if k < k' {
        ShowsSomething(ps, k, k');
      } else if k' < k {
        ShowsSomething(ps, k', k);
      }
      assert k == k';
      var rs := if hosts.Replaces(c) then Known(reals, c.text) else reals;
      SamePieces(hosts, ps[k..], chunks[1..], rs, cuts[1..], inside, cuts'[1..], inside');
      assert cuts == [k] + cuts[1..] && cuts' == [k] + cuts'[1..];
      if |rs| > |reals| {
        LastToken(reals, c.text);
        assert Holds(inside, |rs|, ps[..k]) && Holds(inside', |rs|, ps[..k]);
      }
    }
  }

  lemma PiecesUnique(ips: Scanner, hosts: Option<Scanner>, text: string, cuts: seq<nat>, inside: map<nat, seq<Piece>>,
                     cuts': seq<nat>, inside': map<nat, seq<Piece>>)
    requires PassesAligned(ips, hosts, text, cuts, inside) && PassesAligned(ips, hosts, text, cuts', inside')
    ensures inside == inside'
  {
    hide Rewritten; hide FirstPieces; hide Aligned;
    var (out, first) := Rewritten(ips, ips.cut(text), []);
    var all := Redacted(ips, hosts, text).1;
    if hosts.Some? {
      SamePieces(hosts.value, FirstPieces(ips, ips.cut(text), []), hosts.value.cut(out), first, cuts, inside, cuts', inside');
    }
    forall n | n in inside
      ensures n in inside' && inside[n] == inside'[n]
    {
      assert n in Vals(all);
      if n <= |first| {
        assert Holds(inside, n, Lits(ValueAt(first, n))) && Holds(inside', n, Lits(ValueAt(first, n)));
      }
    }
  }

  /**
   When the second pass cuts the first one's output between pieces, the text spells no token
   and no digit does harm in the first pass, every value has pieces, and no others.
   */
  lemma PiecesDetermined(ips: Scanner, hosts: Option<Scanner>, text: string, cuts: seq<nat>) returns (inside: map<nat, seq<Piece>>)
    requires ips.Faithful() && NoPrefix(text)
    requires var (out, first) := Rewritten(ips, ips.cut(text), []); var ps := FirstPieces(ips, ips.cut(text), []);
      Separated(ps, Vals(first), |first|) && (hosts.Some? ==> CutBetween(ps, hosts.value.cut(out), cuts))
    ensures PassesAligned(ips, hosts, text, cuts, inside)
    ensures forall cuts', inside' :: PassesAligned(ips, hosts, text, cuts', inside') ==> inside' == inside
  {
    hide Rewritten; hide FirstPieces; hide TokenName; hide Legible; hide Separated; hide NoPrefix; hide Written; hide PiecesKnown;
    hide Aligned; hide CutBetween;
    var chunks := ips.cut(text);
    var (out, first) := Rewritten(ips, chunks, []);
    FirstPictures(ips, chunks, [], Vals(first));
    MeantIs(FirstPieces(ips, chunks, []), text, out, Vals(first));
    SeparatedLegible(FirstPieces(ips, chunks, []), Vals(first), |first|);
    PlainKnown(ips, text);
    inside := Plain(Vals(first));
    if hosts.Some? {
      inside := PiecesFound(hosts.value, FirstPieces(ips, chunks, []), hosts.value.cut(out), cuts, first, Plain(Vals(first)), |first|);
    }
    KnownKeys(inside, Redacted(ips, hosts, text).1, |first|);
    KnownKeys(Plain(Vals(first)), first, |first|);
    OnlyPieces(ips, hosts, text, cuts, inside);
  }

  lemma OnlyPieces(ips: Scanner, hosts: Option<Scanner>, text: string, cuts: seq<nat>, inside: map<nat, seq<Piece>>)
    requires PassesAligned(ips, hosts, text, cuts, inside)
    ensures forall cuts', inside' :: PassesAligned(ips, hosts, text, cuts', inside') ==> inside' == inside
  {
    hide PassesAligned;
    forall cuts', inside' | PassesAligned(ips, hosts, text, cuts', inside')
      ensures inside' == inside
    {
      PiecesUnique(ips, hosts, text, cuts, inside, cuts', inside');
    }
  }

  lemma KnownKeys(inside: map<nat, seq<Piece>>, reals: seq<string>, count: nat)
    requires PiecesKnown(inside, reals, count)
    ensures inside.Keys == Vals(reals).Keys
  {
  }

  lemma PlainKnown(ips: Scanner, text: string)
    requires ips.Faithful() && NoPrefix(text)
    ensures var first := Rewritten(ips, ips.cut(text), []).1; PiecesKnown(Plain(Vals(first)), first, |first|)
  {
    hide Rewritten; hide TokenName; hide Legible; hide NoPrefix; hide Written;
    var chunks := ips.cut(text);
    var first := Rewritten(ips, chunks, []).1;
    forall n: nat | 1 <= n <= |first|
      ensures Legible(Lits(ValueAt(first, n)), |first|) && Written(Lits(ValueAt(first, n))) == ValueAt(first, n)
    {
      var v := ValueAt(first, n);
      KnownValues(ips, chunks, [], v);
      assert v in first;
      var i :| 0 <= i < |chunks| && chunks[i].text == v && ips.Replaces(chunks[i]);
      ChunkQuiet(chunks, i);
      LitsLegible(v, |first|);
      LitsStand(v, map[]);
    }
  }

  // ---- Texts that do not come back ----

  /** A scanner that cuts one text into these chunks and leaves every other whole. */
  function CutsInto(chunks: seq<Chunk>): (scanner: Scanner)
    ensures scanner.Faithful() && scanner.cut(Join(chunks)) == chunks
    ensures forall c :: scanner.Replaces(c) <==> c.Found?
  {
    assert forall s: string :: Join([Kept(s)]) == s + "" == s;
    Scanner(s => if s == Join(chunks) then chunks else [Kept(s)], v => true)
  }

  /** Ten internal addresses: one of the sixth version and nine of the fourth. */
  function Address(n: nat): (a: string)
    ensures a != "" && 'H' !in a
  {
    if n == 1 then "fc00::1234" else "10.0.0." + [Decimal.Digit(n % 10)]
  }

  function Addresses(n: nat): (reals: seq<string>)
    ensures |reals| == n && forall i :: 0 <= i < n ==> reals[i] == Address(i + 1)
  {
    seq(n, i requires 0 <= i < n => Address(i + 1))
  }

  /** The addresses from the n-th on, each after a space. */
  function Listed(n: nat): (chunks: seq<Chunk>)
    decreases 11 - n
  {
    if n > 10 then [] else [Kept(" "), Found(Address(n))] + Listed(n + 1)
  }

  lemma AddressesDiffer(n: nat)
    requires 1 < n <= 10
    ensures Address(n) !in Addresses(n - 1)
  {
    var known := Addresses(n - 1);
    forall a | a in known
      ensures a != Address(n)
    {
      var i :| 0 <= i < n - 1 && a == Address(i + 1);
      if i > 0 {
        assert Address(n)[7] == Decimal.Digit(n % 10) && a[7] == Decimal.Digit(i + 1);
      } else {
        assert Address(n)[0] == '1' && a[0] == 'f';
      }
    }
  }

  lemma {:induction false} ListedRewritten(scanner: Scanner, n: nat)
    requires 1 < n <= 11 && forall c :: scanner.Replaces(c) <==> c.Found?
    ensures Rewritten(scanner, Listed(n), Addresses(n - 1)).1 == Addresses(10)
    decreases 11 - n
  {
    hide TokenName; hide TokenOf;
    if n <= 10 {
      AddressesDiffer(n);
      ListedRewritten(scanner, n + 1);
      assert Listed(n)[1..][1..] == Listed(n + 1) && Addresses(n - 1) + [Address(n)] == Addresses(n);
    }
  }

  lemma {:induction false} ListedQuiet(n: nat)
    ensures 'H' !in Join(Listed(n))
    decreases 11 - n
  {
    if n <= 10 {
      ListedQuiet(n + 1);
      assert Listed(n)[1..][1..] == Listed(n + 1);
      assert 'H' !in " " && 'H' !in Address(n);
    }
  }

  /** The first address with a digit behind it, then the nine others. */
  const SPOILED: seq<Chunk> := [Found("fc00::1234"), Kept("0")] + Listed(2)

  lemma SpoiledRedacted(ips: Scanner)
    requires ips == CutsInto(SPOILED)
    ensures var (out, reals) := Redacted(ips, None, Join(SPOILED)); TokenName(10) <= out && reals == Addresses(10)
  {
    hide TokenName; hide Rewritten; hide Join;
    ListedRewritten(ips, 2);
    TwoRewritten(ips, Address(1), "0", Listed(2));
    assert [Address(1)] == Addresses(1);
    MergedName(1, '0');
    var rest := Rewritten(ips, Listed(2), Addresses(1)).0;
    assert TokenName(1) + ("0" + rest) == TokenName(10) + rest;
  }

  /** A text that starts with a value and a plain stretch. */
  lemma TwoRewritten(scanner: Scanner, x: string, y: string, rest: seq<Chunk>)
    requires forall c :: scanner.Replaces(c) <==> c.Found?
    ensures var chunks, after := [Found(x), Kept(y)] + rest, Rewritten(scanner, rest, [x]);
      Rewritten(scanner, chunks, []) == (TokenName(1) + (y + after.0), after.1) && Join(chunks) == x + (y + Join(rest))
  {
    hide TokenName;
    var chunks := [Found(x), Kept(y)] + rest;
    assert chunks[1..][0] == Kept(y) && chunks[1..][1..] == rest;
    assert Known([], x) == [x] && TokenOf([x], x) == 1;
  }

  lemma SpoiledQuiet()
    ensures NoPrefix(Join(SPOILED)) && Join(SPOILED) != "" && Join(SPOILED)[0] == 'f'
  {
    hide Join; hide Listed;
    ListedQuiet(2);
    TwoRewritten(CutsInto(SPOILED), "fc00::1234", "0", Listed(2));
    var s := Join(SPOILED);
    assert s == "fc00::1234" + ("0" + Join(Listed(2)));
    assert 'H' !in "fc00::1234" && 'H' !in "0";
    forall i | 0 <= i <= |s|
      ensures !(PREFIX <= s[i..])
    {
      assert i < |s| ==> s[i..][0] == s[i] && s[i] in s;
    }
  }

  /** A text that begins with another letter than a token keeps its first letter. */
  lemma {:induction false} FirstLetterKept(s: string, mapping: map<string, string>, tokens: seq<string>)
    requires s != "" && s[0] != 'H' && forall t :: t in tokens ==> t in mapping && t != "" && t[0] == 'H'
    ensures ExpandWith(s, mapping, tokens) != "" && ExpandWith(s, mapping, tokens)[0] == s[0]
    decreases |tokens|
  {
    if tokens != [] {
      assert forall t :: t in tokens[1..] ==> t in tokens;
      assert tokens[0] in tokens && !(tokens[0] <= s);
      FirstLetterKept(ReplaceAll(s, tokens[0], mapping[tokens[0]]), mapping, tokens[1..]);
    }
  }

  /** Of ten tokens the tenth is replaced first. */
  lemma TenthFirst(mapping: map<string, string>, tokens: seq<string>)
    requires Names(mapping, Vals(Addresses(10))) && LongestFirst(tokens, mapping)
    ensures tokens != [] && tokens[0] == TokenName(10) && mapping[tokens[0]] == Address(10)
    ensures forall t :: t in tokens ==> t in mapping && t != "" && t[0] == 'H'
  {
    var vals := Vals(Addresses(10));
    assert 10 in vals && TokenName(10) in tokens;
    var j :| 0 <= j < |tokens| && tokens[j] == TokenName(10);
    TwoDigits();
    forall t | t in tokens
      ensures t != "" && t[0] == 'H' && (|t| >= 7 ==> t == TokenName(10))
    {
      assert IsName(t, vals);
      var n :| n in vals && TokenName(n) == t;
      OneDigitName(n);
    }
  }

  lemma TwoDigits()
    ensures |TokenName(10)| == 7
  {
    DecadeName(10);
    OneDigitName(1);
  }

  lemma OneDigitName(n: nat)
    ensures n < 10 ==> |TokenName(n)| == 6
  {
  }

  /**
   A text that never comes back: ten internal addresses, the first directly followed by the
   digit 0, so that HOST_1 and that digit read as HOST_10.
   */
  lemma DigitSpoilsRoundTrip() returns (ips: Scanner, text: string)
    ensures ips.Faithful() && ips.cut(text) == SPOILED && NoPrefix(text)
    ensures forall mapping, tokens :: MapsFor(ips, None, text, mapping) && LongestFirst(tokens, mapping) ==>
      ExpandWith(Redacted(ips, None, text).0, mapping, tokens) != text
  {
    hide TokenName; hide Redacted; hide ExpandWith; hide Names; hide LongestFirst; hide NoPrefix;
    ips, text := CutsInto(SPOILED), Join(SPOILED);
    SpoiledRedacted(ips);
    SpoiledQuiet();
    forall mapping, tokens | MapsFor(ips, None, text, mapping) && LongestFirst(tokens, mapping)
      ensures (forall t :: t in tokens ==> t in mapping && t != "") && ExpandWith(Redacted(ips, None, text).0, mapping, tokens) != text
    {
      TenthFirst(mapping, tokens);
      SpoiledExpands(Redacted(ips, None, text).0, mapping, tokens);
    }
  }

  lemma SpoiledExpands(out: string, mapping: map<string, string>, tokens: seq<string>)
    requires TokenName(10) <= out && tokens != [] && tokens[0] == TokenName(10) && TokenName(10) in mapping && mapping[tokens[0]] == Address(10)
    requires forall t :: t in tokens ==> t in mapping && t != "" && t[0] == 'H'
    ensures ExpandWith(out, mapping, tokens) != "" && ExpandWith(out, mapping, tokens)[0] == '1'
  {
    hide TokenName;
    assert forall t :: t in tokens[1..] ==> t in tokens;
    var after := ReplaceAll(out, tokens[0], mapping[tokens[0]]);
    assert after[..|Address(10)|] == Address(10) && Address(10)[0] == '1';
    FirstLetterKept(after, mapping, tokens[1..]);
  }

  // ---- A host name around an internal address ----

  /** The address inside the host name is replaced first, then the host name around its token. */
  lemma SwallowedRedacted(ips: Scanner, hosts: Scanner)
    requires ips == CutsInto([Found("10.0.0.1"), Kept(".corp")]) && hosts == CutsInto([Found("HOST_1.corp")])
    ensures Redacted(ips, Some(hosts), "10.0.0.1.corp") == ("HOST_2", ["10.0.0.1", "HOST_1.corp"])
  {
    hide Rewritten; hide Join; hide TokenName;
    var x, y, host := "10.0.0.1", ".corp", "HOST_1.corp";
    var nothing: seq<Chunk> := [];
    SmallNames();
    TwoRewritten(ips, x, y, nothing);
    NothingRewritten(ips, [x]);
    assert [Found(x), Kept(y)] + nothing == [Found(x), Kept(y)];
    assert x + (y + "") == "10.0.0.1.corp" && TokenName(1) + (y + "") == host;
    HostRewritten(hosts, host, x);
  }

  lemma SmallNames()
    ensures TokenName(1) == "HOST_1" && TokenName(2) == "HOST_2"
  {
    assert Decimal.Show(1) == "1" && Decimal.Show(2) == "2";
  }

  lemma NothingRewritten(scanner: Scanner, reals: seq<string>)
    ensures Rewritten(scanner, [], reals) == ("", reals) && Join([]) == ""
  {
  }

  lemma HostRewritten(hosts: Scanner, host: string, address: string)
    requires host != address && forall c :: hosts.Replaces(c) <==> c.Found?
    ensures Rewritten(hosts, [Found(host)], [address]) == (TokenName(2), [address, host]) && Join([Found(host)]) == host
  {
    hide TokenName;
    var rs := Known([address], host);
    assert rs == [address, host];
    LastToken([address], host);
    NothingRewritten(hosts, rs);
    assert [Found(host)][1..] == [] && TokenName(2) + "" == TokenName(2) && host + "" == host;
  }

  lemma {:induction false} ReplaceNone(s: string, pat: string, rep: string)
    requires pat != "" && forall i :: 0 <= i < |s| ==> s[i] != pat[0]
    ensures ReplaceAll(s, pat, rep) == s
  {
    if s != "" {
      ReplaceNone(s[1..], pat, rep);
      assert s[0] != pat[0] && !(pat <= s);
      assert s == [s[0]] + s[1..];
    }
  }

  lemma ReplaceOne(pat: string, rep: string, after: string)
    requires pat != "" && forall i :: 0 <= i < |after| ==> after[i] != pat[0]
    ensures ReplaceAll(pat + after, pat, rep) == rep + after
  {
    ReplaceNone(after, pat, rep);
    assert (pat + after)[|pat|..] == after;
  }

  /**
   A text that comes back in one order only: the host name 10.0.0.1.corp, whose address is an
   internal one. Both tokens have one digit, and the address is lost when its token goes first.
   */
  lemma SwallowedTokenNeedsOrder() returns (ips: Scanner, hosts: Scanner, mapping: map<string, string>)
    ensures ips.Faithful() && hosts.Faithful() && MapsFor(ips, Some(hosts), "10.0.0.1.corp", mapping)
    ensures LongestFirst(["HOST_2", "HOST_1"], mapping) && LongestFirst(["HOST_1", "HOST_2"], mapping)
    ensures ExpandWith(Redacted(ips, Some(hosts), "10.0.0.1.corp").0, mapping, ["HOST_2", "HOST_1"]) == "10.0.0.1.corp"
    ensures ExpandWith(Redacted(ips, Some(hosts), "10.0.0.1.corp").0, mapping, ["HOST_1", "HOST_2"]) == "HOST_1.corp"
  {
    hide TokenName; hide Rewritten;
    ips, hosts := CutsInto([Found("10.0.0.1"), Kept(".corp")]), CutsInto([Found("HOST_1.corp")]);
    mapping := map["HOST_1" := "10.0.0.1", "HOST_2" := "HOST_1.corp"];
    SwallowedRedacted(ips, hosts);
    TwoNames(mapping);
    LongFirst(mapping);
    ShortFirst(mapping);
  }

  lemma TwoNames(mapping: map<string, string>)
    requires mapping == map["HOST_1" := "10.0.0.1", "HOST_2" := "HOST_1.corp"]
    ensures Names(mapping, Vals(["10.0.0.1", "HOST_1.corp"])) && "" !in mapping
    ensures LongestFirst(["HOST_2", "HOST_1"], mapping) && LongestFirst(["HOST_1", "HOST_2"], mapping)
  {
    hide TokenName;
    SmallNames();
    var vals := Vals(["10.0.0.1", "HOST_1.corp"]);
    assert 1 in vals && 2 in vals && "HOST_1"[5] != "HOST_2"[5];
    assert IsName("HOST_1", vals) && IsName("HOST_2", vals);
  }

  lemma LongFirst(mapping: map<string, string>)
    requires mapping == map["HOST_1" := "10.0.0.1", "HOST_2" := "HOST_1.corp"]
    ensures ExpandWith("HOST_2", mapping, ["HOST_2", "HOST_1"]) == "10.0.0.1.corp"
  {
    hide ReplaceAll;
    var a, b := "HOST_1", "HOST_2";
    ReplaceOne(b, "HOST_1.corp", "");
    ReplaceOne(a, "10.0.0.1", ".corp");
    assert b + "" == b && "HOST_1.corp" + "" == "HOST_1.corp";
    assert a + ".corp" == "HOST_1.corp" && "10.0.0.1" + ".corp" == "10.0.0.1.corp";
    assert [b, a][1..] == [a] && [a][1..] == [];
  }

  lemma ShortFirst(mapping: map<string, string>)
    requires mapping == map["HOST_1" := "10.0.0.1", "HOST_2" := "HOST_1.corp"]
    ensures ExpandWith("HOST_2", mapping, ["HOST_1", "HOST_2"]) == "HOST_1.corp"
  {
    hide ReplaceAll;
    var a, b := "HOST_1", "HOST_2";
    ReplaceOne(b, "HOST_1.corp", "");
    OtherNameKept();
    assert b + "" == b && "HOST_1.corp" + "" == "HOST_1.corp";
    assert [a, b][1..] == [b] && [b][1..] == [];
  }

  lemma OtherNameKept()
    ensures ReplaceAll("HOST_2", "HOST_1", "10.0.0.1") == "HOST_2"
  {
    var s, pat, rep := "HOST_2", "HOST_1", "10.0.0.1";
    assert s[5] != pat[5] && s[1..] == "OST_2";
    ReplaceNone(s[1..], pat, rep);
    assert !(pat <= s);
  }
}
