/** Digits after replaced values and tokens inside host names together: exactly when a redacted text comes back. */
module RedactionJoint {
  import opened Text
  import Decimal
  import opened Expansion
  import opened ExpansionExact
  import opened Swallowing
  import opened SwallowingExact
  import opened Redaction
  import opened RedactionExact

  /** Inside a host name something follows every token, and no digit there spells another one. */
  ghost predicate Closed(w: seq<Piece>, full: map<nat, string>, count: nat) {
    forall i :: 0 <= i < |w| && w[i].Tok? ==>
      Original(w[i + 1..], full) != "" && Guarded(w[i].n, Original(w[i + 1..], full), count)
  }

  lemma ClosedGuards(w: seq<Piece>, after: string, full: map<nat, string>, count: nat)
    requires Closed(w, full, count)
    ensures GuardedIn(w, after, full, count)
  {
    hide Original;
  }

  /** The re-read pieces are well apart, the tokens inside host names included. */
  lemma RereadDeep(ps: seq<Piece>, inside: map<nat, seq<Piece>>, full: map<nat, string>, count: nat)
    requires Positive(ps, count) && Spread(ps, full) && Numbered(full, count)
    requires forall n :: n in inside ==> Closed(inside[n], full, count)
    ensures SeparatedDeep(Reread(ps, count), inside, full, count)
  {
    hide Spread; hide Guarded; hide Closed; hide Original; hide Reread; hide GuardedIn;
    var qs := Reread(ps, count);
    forall i | 0 <= i < |qs| && qs[i].Tok?
      ensures Guarded(qs[i].n, Original(qs[i + 1..], full), count)
      ensures qs[i].n in inside ==> GuardedIn(inside[qs[i].n], Original(qs[i + 1..], full), full, count)
    {
      RereadSeparated(ps, full, count, i);
      if qs[i].n in inside {
        ClosedGuards(inside[qs[i].n], Original(qs[i + 1..], full), full, count);
      }
    }
  }

  /** What the joint theorem asks of the pieces and their values. */
  ghost predicate Ready(ps: seq<Piece>, vals: map<nat, string>, inside: map<nat, seq<Piece>>, first: nat, count: nat) {
    var full := Full(vals, inside);
    && Nested(vals, inside, first, count) && KnownTokens(ps, vals) && NoPrefix(Original(ps, full))
    && Spread(ps, full) && Apart(full) && (forall n :: n in full ==> Seamless(full[n]))
    && (forall n :: n in inside ==> Closed(inside[n], full, count))
  }

  /** The facts about the re-read pieces that expansion needs. */
  lemma RereadReady(ps: seq<Piece>, vals: map<nat, string>, inside: map<nat, seq<Piece>>, first: nat, count: nat)
    requires Ready(ps, vals, inside, first, count)
    ensures var qs, full := Reread(ps, count), Full(vals, inside);
      && KnownTokens(qs, vals) && SeparatedDeep(qs, inside, full, count) && NoPrefix(Original(qs, full)) && Written(qs) == Written(ps)
    ensures Positive(ps, count) && Numbered(Full(vals, inside), count)
  {
    hide TokenName; hide Reread; hide Spread; hide Apart; hide Seamless; hide NoPrefix; hide SeparatedDeep; hide Full; hide Closed;
    hide Original; hide Written; hide NoLiteralPrefix; hide Nested; hide Positive; hide KnownTokens;
    var qs, full := Reread(ps, count), Full(vals, inside);
    FullMeans(vals, inside, first, count);
    NumberedPositive(ps, vals, inside, first, count);
    SameNumbers(vals, full, count);
    RereadDeep(ps, inside, full, count);
    RereadShows(ps, count);
    PositiveKnown(qs, vals, full, count);
    NoLiteralsSpellOne(ps, full);
    RereadNoPrefix(ps, count);
    NoPrefixFromPieces(qs, full);
  }

  lemma SameNumbers(vals: map<nat, string>, full: map<nat, string>, count: nat)
    requires Numbered(vals, count) && full.Keys == vals.Keys
    ensures Numbered(full, count)
  {
    assert forall n :: n in full <==> n in full.Keys;
  }

  lemma PositiveKnown(ps: seq<Piece>, vals: map<nat, string>, full: map<nat, string>, count: nat)
    requires Positive(ps, count) && Numbered(vals, count) && Numbered(full, count)
    ensures KnownTokens(ps, vals) && KnownTokens(ps, full)
  {
  }

  /** In an order in which every host's token comes before those inside it, the re-read text comes back. */
  lemma FallingOrder(ps: seq<Piece>, vals: map<nat, string>, inside: map<nat, seq<Piece>>, first: nat, count: nat,
                     mapping: map<string, string>) returns (tokens: seq<string>)
    requires Ready(ps, vals, inside, first, count) && Names(mapping, vals) && "" !in mapping
    ensures LongestFirst(tokens, mapping)
    ensures ExpandWith(Written(ps), mapping, tokens) == Original(Reread(ps, count), Full(vals, inside))
  {
    hide TokenName; hide Reread; hide Spread; hide Apart; hide Seamless; hide NoPrefix; hide SeparatedDeep; hide Full; hide Closed;
    hide Original; hide Written; hide ExpandWith; hide NamesOf; hide Nested; hide KnownTokens; hide Names; hide LongestFirst;
    hide Ordered; hide DownTo; hide Positive; hide PastCoincide;
    RereadReady(ps, vals, inside, first, count);
    var ns := DownTo(count, 0);
    DownFacts(count, 0);
    FallingOrdered(ns);
    HostsFirst(vals, inside, first, count, ns);
    NumbersKnown(ns, vals, inside, first, count);
    NamesInOrder(ns, mapping, vals);
    tokens := NamesOf(ns);
    RestoredInOrder(Reread(ps, count), vals, inside, first, count, mapping, ns, tokens);
  }

  lemma HostsFirst(vals: map<nat, string>, inside: map<nat, seq<Piece>>, first: nat, count: nat, ns: seq<nat>)
    requires Nested(vals, inside, first, count) && forall n :: n in ns <==> 1 <= n <= count
    requires forall i, j :: 0 <= i < j < |ns| ==> ns[i] > ns[j]
    ensures PastCoincide(inside, ns, Full(vals, inside))
  {
    hide TokenName; hide After; hide Written; hide Full; hide Coincides;
    forall k, m: nat | k in ns && k in inside && Tok(m) in inside[k]
      ensures m in After(ns, k)
    {
      SmallerSwallowed(vals, inside, first, count, k, m);
      SmallerLater(ns, k, m);
    }
  }

  /**
   The exact condition for both at once: the text comes back in every order if and only if no
   digit straight after an outermost token spells a longer one in use, and each token inside
   another has fewer digits or stands for its decade's value and its last digit.
   */
  lemma RestoredIffBothHarmless(ps: seq<Piece>, vals: map<nat, string>, inside: map<nat, seq<Piece>>, first: nat, count: nat,
                                mapping: map<string, string>)
    requires Ready(ps, vals, inside, first, count) && Names(mapping, vals) && "" !in mapping
    requires Loose(ps) && forall n :: n in inside ==> Loose(inside[n])
    requires forall k :: k in vals && k > first ==> Tok(k) in ps
    ensures (forall tokens :: LongestFirst(tokens, mapping) ==> ExpandWith(Written(ps), mapping, tokens) == Original(ps, Full(vals, inside)))
      <==> DigitsHarmless(ps, count)
           && forall k, m: nat :: k in vals && Tok(m) in inside[k] ==> Shorter(m, k) || Coincides(vals, m)
  {
    hide TokenName; hide Reread; hide Spread; hide Apart; hide Seamless; hide NoPrefix; hide SeparatedDeep; hide Full; hide Closed;
    hide Original; hide Written; hide ExpandWith; hide KnownTokens; hide Names; hide Positive; hide DigitsHarmless; hide Loose;
    hide Shorter; hide Coincides; hide Nested;
    var full := Full(vals, inside);
    RereadReady(ps, vals, inside, first, count);
    SameInside(vals, inside, first, count);
    if DigitsHarmless(ps, count) {
      RereadHarmless(ps, count);
      FirstSeamless(vals, inside, first, count);
      RestoredIffShorter(ps, vals, inside, first, count, mapping);
    } else {
      var tokens := FallingOrder(ps, vals, inside, first, count, mapping);
      RereadDiffers(ps, full, count);
    }
  }

  lemma FirstSeamless(vals: map<nat, string>, inside: map<nat, seq<Piece>>, first: nat, count: nat)
    requires Nested(vals, inside, first, count) && forall n :: n in Full(vals, inside) ==> Seamless(Full(vals, inside)[n])
    ensures forall n :: n in vals && n <= first ==> Seamless(vals[n])
  {
    hide Seamless; hide Full;
    FullMeans(vals, inside, first, count);
  }

  /**
   From the text on: the redacted text comes back in every order of tokens of equal length if
   and only if no digit after a replaced value makes its token's number another one in use,
   and every token inside a host name has fewer digits than the host's own or reads the same
   after its turn.
   */
  lemma RedactedRestoredIff(ips: Scanner, hosts: Option<Scanner>, text: string, cuts: seq<nat>, inside: map<nat, seq<Piece>>,
                            mapping: map<string, string>)
    requires ips.Faithful() && NoPrefix(text) && PassesAligned(ips, hosts, text, cuts, inside) && MapsFor(ips, hosts, text, mapping)
    requires var reals := Redacted(ips, hosts, text).1; var full := Full(Vals(reals), inside);
      && Spread(RedactedPieces(ips, hosts, text, cuts, inside), full) && Apart(full)
      && (forall n :: n in full ==> Seamless(full[n])) && (forall n :: n in inside ==> Closed(inside[n], full, |reals|))
    requires Loose(RedactedPieces(ips, hosts, text, cuts, inside)) && forall n :: n in inside ==> Loose(inside[n])
    ensures (forall tokens :: LongestFirst(tokens, mapping) ==> ExpandWith(Redacted(ips, hosts, text).0, mapping, tokens) == text)
      <==> DigitsHarmless(RedactedPieces(ips, hosts, text, cuts, inside), |Redacted(ips, hosts, text).1|)
           && SwallowsHarmless(ips, hosts, text, inside)
  {
    hide TokenName; hide Redacted; hide PassesAligned; hide NoPrefix; hide RedactedPieces; hide Names; hide Loose; hide Full;
    hide Seamless; hide ExpandWith; hide Nested; hide KnownTokens; hide Shorter; hide Coincides; hide Spread; hide Apart; hide Closed;
    hide DigitsHarmless;
    var (out, reals) := Redacted(ips, hosts, text);
    var ps := RedactedPieces(ips, hosts, text, cuts, inside);
    RedactedNests(ips, hosts, text, cuts, inside);
    RedactedPictures(ips, hosts, text, cuts, inside);
    SameInside(Vals(reals), inside, FirstCount(ips, text), |reals|);
    RestoredIffBothHarmless(ps, Vals(reals), inside, FirstCount(ips, text), |reals|, mapping);
  }
}
