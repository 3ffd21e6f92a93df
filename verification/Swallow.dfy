/** Host names that hold the tokens of addresses: exactly when expansion restores them in every order. */
module Swallowing {
  import Decimal
  import opened Expansion

  /** Tokens up to `first` stand for plain text, the later ones for text that may hold those tokens. */
  ghost predicate Nested(vals: map<nat, string>, inside: map<nat, seq<Piece>>, first: nat, count: nat) {
    && Numbered(vals, count) && first <= count && inside.Keys == vals.Keys
    && (forall n :: n in vals ==> Written(inside[n]) == vals[n])
    && (forall n :: n in vals && n <= first ==> inside[n] == Lits(vals[n]))
    && (forall n, m: nat :: n in vals && Tok(m) in inside[n] ==> 1 <= m <= first)
  }

  /** What each token stands for once the tokens inside it are expanded too. */
  function Full(vals: map<nat, string>, inside: map<nat, seq<Piece>>): map<nat, string> {
    map n | n in inside :: Original(inside[n], vals)
  }

  lemma {:induction false} OriginalSame(ps: seq<Piece>, f: map<nat, string>, g: map<nat, string>)
    requires forall m :: Tok(m) in ps ==> m in f && m in g && f[m] == g[m]
    ensures Original(ps, f) == Original(ps, g)
  {
    hide TokenName;
    if ps != [] {
      var p := ps[0];
      assert p in ps && (p.Tok? ==> Tok(p.n) in ps) && forall m :: Tok(m) in ps[1..] ==> Tok(m) in ps;
      OriginalSame(ps[1..], f, g);
    }
  }

  /** The full meanings agree with one another. */
  lemma FullMeans(vals: map<nat, string>, inside: map<nat, seq<Piece>>, first: nat, count: nat)
    requires Nested(vals, inside, first, count)
    ensures var full := Full(vals, inside);
      && full.Keys == vals.Keys
      && (forall n :: n in vals && n <= first ==> full[n] == vals[n])
      && (forall n :: n in vals ==> full[n] == Original(inside[n], full))
  {
    hide Original;
    var full := Full(vals, inside);
    forall n | n in vals && n <= first
      ensures full[n] == vals[n]
    {
      LitsStand(vals[n], vals);
    }
    forall n | n in vals
      ensures full[n] == Original(inside[n], full)
    {
      OriginalSame(inside[n], vals, full);
    }
  }

  /** Once its own turn is past, a token reads as a shorter one and a digit; this is when that does no harm. */
  ghost predicate Coincides(vals: map<nat, string>, m: nat) {
    m >= 10 && m in vals && m / 10 in vals && vals[m] == vals[m / 10] + [Decimal.Digit(m % 10)]
  }

  predicate Shorter(m: nat, k: nat) {
    |TokenName(m)| < |TokenName(k)|
  }

  ghost predicate GuardedIn(w: seq<Piece>, after: string, full: map<nat, string>, count: nat) {
    forall i :: 0 <= i < |w| && w[i].Tok? ==> Guarded(w[i].n, Original(w[i + 1..], full) + after, count)
  }

  /** No digit straight after a token, outermost or inside another, spells a longer one in use. */
  ghost predicate SeparatedDeep(ps: seq<Piece>, inside: map<nat, seq<Piece>>, full: map<nat, string>, count: nat) {
    forall i :: 0 <= i < |ps| && ps[i].Tok? ==>
      var after := Original(ps[i + 1..], full);
      Guarded(ps[i].n, after, count) && (ps[i].n in inside ==> GuardedIn(inside[ps[i].n], after, full, count))
  }

  // ---- Names and orders ----

  lemma DecadeName(m: nat)
    requires m >= 10
    ensures TokenName(m) == TokenName(m / 10) + [Decimal.Digit(m % 10)]
  {
  }

  lemma {:induction false} LongerNumbers(m: nat, n: nat)
    requires m <= n
    ensures |TokenName(m)| <= |TokenName(n)|
    decreases n
  {
    if n >= 10 {
      DecadeName(n);
      if m >= 10 {
        DecadeName(m);
        LongerNumbers(m / 10, n / 10);
      }
    }
  }

  lemma {:induction false} AfterAt(ns: seq<nat>, k: nat) returns (i: nat)
    requires k in ns
    ensures i < |ns| && ns[i] == k && After(ns, k) == ns[i + 1..]
  {
    if ns[0] == k {
      i := 0;
    } else {
      i := AfterAt(ns[1..], k);
      i := i + 1;
    }
  }

  /** In an order with longer names first, the tokens after k are no longer, the others no shorter. */
  lemma AfterOrdered(ns: seq<nat>, k: nat)
    requires Ordered(ns) && k in ns
    ensures forall n :: n in After(ns, k) ==> |TokenName(n)| <= |TokenName(k)|
    ensures forall n :: n in ns && n !in After(ns, k) ==> |TokenName(n)| >= |TokenName(k)|
  {
    hide TokenName;
    var i := AfterAt(ns, k);
    assert forall j :: i < j < |ns| ==> ns[j] == ns[i + 1..][j - i - 1];
  }

  // ---- Tokens whose turn is past ----

  /** A token whose turn is past reads as the token of its decade and a digit. */
  function Settle(w: seq<Piece>, ns: seq<nat>): seq<Piece> {
    if w == [] then [] else Settled(w[0], ns) + Settle(w[1..], ns)
  }

  function Settled(p: Piece, ns: seq<nat>): seq<Piece> {
    if p.Tok? && p.n !in ns then [Tok(p.n / 10), Lit(Decimal.Digit(p.n % 10))] else [p]
  }

  /** Each token's pieces as they read when its turn comes. */
  function Settling(inside: map<nat, seq<Piece>>, ns: seq<nat>): map<nat, seq<Piece>> {
    map k | k in inside && k in ns :: Settle(inside[k], After(ns, k))
  }

  lemma {:induction false} SettleWritten(w: seq<Piece>, ns: seq<nat>)
    requires forall m :: Tok(m) in w && m !in ns ==> m >= 10
    ensures Written(Settle(w, ns)) == Written(w)
  {
    hide TokenName;
    if w != [] {
      assert w[0] in w && forall m :: Tok(m) in w[1..] ==> Tok(m) in w;
      SettleWritten(w[1..], ns);
      WrittenConcat(Settled(w[0], ns), Settle(w[1..], ns));
      WrittenConcat([w[0]], w[1..]);
      assert w == [w[0]] + w[1..];
      SettledWritten(w[0], ns);
    }
  }

  lemma SettledWritten(p: Piece, ns: seq<nat>)
    requires p.Tok? && p.n !in ns ==> p.n >= 10
    ensures Written(Settled(p, ns)) == Written([p])
  {
    if p.Tok? && p.n !in ns {
      DecadeName(p.n);
      var d := Lit(Decimal.Digit(p.n % 10));
      assert [Tok(p.n / 10), d] == [Tok(p.n / 10)] + [d];
      WrittenConcat([Tok(p.n / 10)], [d]);
    }
  }

  lemma {:induction false} SettleMeans(w: seq<Piece>, ns: seq<nat>, full: map<nat, string>)
    requires forall m :: Tok(m) in w && m !in ns ==> Coincides(full, m)
    ensures Original(Settle(w, ns), full) == Original(w, full)
  {
    if w != [] {
      assert w[0] in w && forall m :: Tok(m) in w[1..] ==> Tok(m) in w;
      SettleMeans(w[1..], ns, full);
      OriginalConcat(Settled(w[0], ns), Settle(w[1..], ns), full);
      SettledMeans(w[0], ns, full);
    }
  }

  lemma SettledMeans(p: Piece, ns: seq<nat>, full: map<nat, string>)
    ensures p.Tok? && p.n !in ns && p.n / 10 in full ==>
      Original(Settled(p, ns), full) == full[p.n / 10] + [Decimal.Digit(p.n % 10)]
    ensures !(p.Tok? && p.n !in ns) ==> Original(Settled(p, ns), full) == Meant(p, full)
  {
    if p.Tok? && p.n !in ns {
      var d := Lit(Decimal.Digit(p.n % 10));
      assert Settled(p, ns) == [Tok(p.n / 10)] + [d];
      OriginalConcat([Tok(p.n / 10)], [d], full);
    }
  }

  lemma {:induction false} SettleNothing(w: seq<Piece>, ns: seq<nat>)
    requires forall m :: Tok(m) in w ==> m in ns
    ensures Settle(w, ns) == w
  {
    if w != [] {
      assert w[0] in w && forall m :: Tok(m) in w[1..] ==> Tok(m) in w;
      SettleNothing(w[1..], ns);
    }
  }

  /** No token as long as m or shorter, other than m itself, can be read where m stands. */
  lemma DecadeClear(m: nat, rest: string, ns: seq<nat>)
    requires m >= 10 && m !in ns && forall n :: n in ns ==> |TokenName(n)| <= |TokenName(m)|
    ensures Clear(m / 10, [Decimal.Digit(m % 10)] + rest, ns)
  {
    hide TokenName;
    DecadeName(m);
    var x, d := TokenName(m / 10), [Decimal.Digit(m % 10)];
    forall n | n in ns && n != m / 10 && |TokenName(n)| >= |x|
      ensures !(TokenName(n) <= x + (d + rest))
    {
      var y := x + (d + rest);
      assert y == TokenName(m) + rest;
      SameName(n, m / 10, y);
      SameName(n, m, y);
    }
  }

  lemma SameName(m: nat, n: nat, y: string)
    ensures TokenName(m) <= y && TokenName(n) <= y && |TokenName(m)| == |TokenName(n)| ==> m == n
  {
    hide TokenName;
    if TokenName(m) <= y && TokenName(n) <= y && |TokenName(m)| == |TokenName(n)| {
      assert TokenName(m) == y[..|TokenName(m)|] == TokenName(n);
      TokenNamesDiffer(m, n);
    }
  }

  /** Tokens that are plain or past, and well apart from what follows, are safe once settled. */
  lemma {:induction false} SettleSafe(w: seq<Piece>, after: string, ns: seq<nat>, r: Reading, count: nat)
    requires forall n :: n in ns ==> n <= count
    requires forall i :: 0 <= i < |w| && w[i].Tok? && w[i].n in ns ==> Guarded(w[i].n, Original(Settle(w[i + 1..], ns), r.full) + after, count)
    requires forall m :: Tok(m) in w && m in ns ==> Bare(m, r)
    requires forall m :: Tok(m) in w && m !in ns ==> Past(m, ns, r)
    ensures Safe(Settle(w, ns), after, ns, r)
    decreases |w|
  {
    hide Guarded; hide Clear; hide Bare; hide Past; hide SafeToken; hide Original;
    if w != [] {
      var p, tail := w[0], w[1..];
      assert p in w && forall m :: Tok(m) in tail ==> Tok(m) in w;
      assert forall i :: 0 <= i < |tail| ==> tail[i] == w[i + 1] && tail[i + 1..] == w[i + 2..];
      SettleSafe(tail, after, ns, r, count);
      SettledSafe(p, Original(Settle(tail, ns), r.full) + after, ns, r, count);
      SafeConcat(Settled(p, ns), Settle(tail, ns), after, ns, r);
    }
  }

  /** A token whose pieces hold no token. */
  ghost predicate Bare(m: nat, r: Reading) {
    m in r.inside && forall n :: Tok(n) !in r.inside[m]
  }

  /** A token whose turn is past while that of its decade is still to come. */
  ghost predicate Past(m: nat, ns: seq<nat>, r: Reading) {
    m >= 10 && m / 10 in ns && Bare(m / 10, r) && forall n :: n in ns ==> |TokenName(n)| <= |TokenName(m)|
  }

  lemma SettledSafe(p: Piece, after: string, ns: seq<nat>, r: Reading, count: nat)
    requires forall n :: n in ns ==> n <= count
    requires p.Tok? && p.n in ns ==> Guarded(p.n, after, count) && Bare(p.n, r)
    requires p.Tok? && p.n !in ns ==> Past(p.n, ns, r)
    ensures Safe(Settled(p, ns), after, ns, r)
  {
    hide TokenName; hide Guarded; hide Clear; hide Settled;
    if p.Tok? {
      if p.n in ns {
        GuardedClear(p.n, after, ns, count);
        BareSafe(p.n, after, ns, r);
        OneSafe(p, after, ns, r);
      } else {
        var d := [Decimal.Digit(p.n % 10)];
        DecadeClear(p.n, after, ns);
        BareSafe(p.n / 10, d + after, ns, r);
        OneSafe(Tok(p.n / 10), d + after, ns, r);
        PairSafe(p.n / 10, d[0], after, ns, r);
      }
    }
    SettledIs(p, ns);
  }

  lemma SettledIs(p: Piece, ns: seq<nat>)
    ensures Settled(p, ns) == if p.Tok? && p.n !in ns then [Tok(p.n / 10)] + Lits([Decimal.Digit(p.n % 10)]) else [p]
  {
  }

  lemma BareSafe(n: nat, after: string, ns: seq<nat>, r: Reading)
    requires n in ns && Bare(n, r) && Clear(n, after, ns)
    ensures SafeToken(n, after, ns, r)
  {
    hide Clear;
    assert forall i :: 0 <= i < |r.inside[n]| && r.inside[n][i].Tok? ==> Tok(r.inside[n][i].n) in r.inside[n];
  }

  lemma OneSafe(p: Piece, after: string, ns: seq<nat>, r: Reading)
    requires p.Tok? ==> SafeToken(p.n, after, ns, r)
    ensures Safe([p], after, ns, r)
  {
    hide SafeToken;
    assert Original([], r.full) + after == after;
  }

  lemma PairSafe(n: nat, d: char, after: string, ns: seq<nat>, r: Reading)
    requires Safe([Tok(n)], [d] + after, ns, r)
    ensures Safe([Tok(n)] + Lits([d]), after, ns, r)
  {
    hide SafeToken;
    LitsStand([d], r.full);
    SafeConcat([Tok(n)], Lits([d]), after, ns, r);
  }

  // ---- Sufficient: no swallowed token's turn comes too early, or it does not matter ----

  /** A smaller number whose turn is past has a name of the same length, and its decade is still to come. */
  lemma PastNumbers(ns: seq<nat>, k: nat, m: nat)
    requires Ordered(ns) && k in ns && m in ns && m < k && m !in After(ns, k)
    ensures |TokenName(m)| == |TokenName(k)| && forall n :: n in After(ns, k) ==> |TokenName(n)| <= |TokenName(m)|
    ensures m >= 10 && m / 10 in ns ==> m / 10 in After(ns, k)
  {
    hide TokenName; hide After; hide Ordered;
    AfterOrdered(ns, k);
    LongerNumbers(m, k);
    if m >= 10 {
      DecadeName(m);
    }
  }

  /** The numbers are those in use, longer names first. */
  ghost predicate AllOf(ns: seq<nat>, count: nat) {
    Ordered(ns) && forall n :: n in ns <==> 1 <= n <= count
  }

  /** The tokens inside token k whose turn is past can be settled. */
  lemma PastInside(vals: map<nat, string>, inside: map<nat, seq<Piece>>, first: nat, count: nat, ns: seq<nat>, k: nat, m: nat, r: Reading)
    requires Nested(vals, inside, first, count) && AllOf(ns, count) && k in ns && Tok(m) in inside[k]
    requires r.inside == Settling(inside, ns)
    ensures m < k && m in ns && Bare(m, r)
    ensures m !in After(ns, k) ==> |TokenName(m)| == |TokenName(k)| && (m >= 10 ==> Past(m, After(ns, k), r))
  {
    hide TokenName; hide After; hide Ordered; hide Written;
    BareLits(vals, inside, first, count, ns, m, r);
    NotInLits(vals[k], m);
    if m !in After(ns, k) {
      PastNumbers(ns, k, m);
      if m >= 10 {
        BareLits(vals, inside, first, count, ns, m / 10, r);
      }
    }
  }

  lemma NotInLits(s: string, m: nat)
    ensures Tok(m) !in Lits(s)
  {
  }

  lemma BareLits(vals: map<nat, string>, inside: map<nat, seq<Piece>>, first: nat, count: nat, ns: seq<nat>, m: nat, r: Reading)
    requires Nested(vals, inside, first, count) && AllOf(ns, count) && r.inside == Settling(inside, ns) && 1 <= m <= first
    ensures Bare(m, r)
  {
    hide Written; hide Ordered;
    assert inside[m] == Lits(vals[m]);
    SettleNothing(inside[m], After(ns, m));
  }

  /** With the tokens inside settled, every token is written as it is mapped. */
  lemma SettlingMaps(vals: map<nat, string>, inside: map<nat, seq<Piece>>, first: nat, count: nat, ns: seq<nat>,
                     r: Reading, mapping: map<string, string>)
    requires Nested(vals, inside, first, count) && AllOf(ns, count) && Names(mapping, vals) && r.inside == Settling(inside, ns)
    requires forall k, m: nat :: k in ns && k in inside && Tok(m) in inside[k] && m !in After(ns, k) ==> m >= 10
    ensures MapsTo(mapping, ns, r)
  {
    hide TokenName; hide After; hide Ordered; hide Settle; hide Written;
    forall n | n in ns
      ensures n in r.inside && Written(r.inside[n]) == vals[n]
    {
      SettleWritten(inside[n], After(ns, n));
    }
  }

  /** The outermost tokens are safe when those inside are settled and apart from what follows them. */
  lemma SettlingSafe(ps: seq<Piece>, vals: map<nat, string>, inside: map<nat, seq<Piece>>, first: nat, count: nat,
                     ns: seq<nat>, r: Reading)
    requires Nested(vals, inside, first, count) && AllOf(ns, count) && KnownTokens(ps, vals) && r.inside == Settling(inside, ns)
    requires forall k, m: nat :: k in ns && k in inside && Tok(m) in inside[k] && m !in After(ns, k) ==> m >= 10
    requires forall i :: 0 <= i < |ps| && ps[i].Tok? ==>
      Guarded(ps[i].n, Original(ps[i + 1..], r.full), count)
      && SettledApart(inside[ps[i].n], Original(ps[i + 1..], r.full), After(ns, ps[i].n), r.full, count)
    ensures Safe(ps, "", ns, r)
  {
    hide TokenName; hide After; hide Ordered; hide Settle; hide Written; hide Guarded; hide SettledApart; hide Clear;
    hide Original; hide Bare; hide Past;
    forall i | 0 <= i < |ps| && ps[i].Tok?
      ensures SafeToken(ps[i].n, Original(ps[i + 1..], r.full) + "", ns, r)
    {
      var k, after := ps[i].n, Original(ps[i + 1..], r.full);
      assert after + "" == after;
      GuardedClear(k, after, ns, count);
      forall m: nat | Tok(m) in inside[k]
        ensures Bare(m, r) && (m !in After(ns, k) ==> Past(m, After(ns, k), r))
      {
        PastInside(vals, inside, first, count, ns, k, m, r);
      }
      InsideSafe(inside[k], after, After(ns, k), r, count);
    }
  }

  ghost predicate SettledApart(w: seq<Piece>, after: string, ns: seq<nat>, full: map<nat, string>, count: nat) {
    forall i :: 0 <= i < |w| && w[i].Tok? && w[i].n in ns ==> Guarded(w[i].n, Original(Settle(w[i + 1..], ns), full) + after, count)
  }

  lemma InsideSafe(w: seq<Piece>, after: string, ns: seq<nat>, r: Reading, count: nat)
    requires (forall n :: n in ns ==> n <= count) && SettledApart(w, after, ns, r.full, count)
    requires forall m: nat :: Tok(m) in w ==> Bare(m, r) && (m !in ns ==> Past(m, ns, r))
    ensures Safe(Settle(w, ns), after, ns, r)
  {
    hide Bare; hide Past; hide Guarded; hide Safe; hide Settle; hide Original;
    SettleSafe(w, after, ns, r, count);
  }

  /**
   Expansion restores the text in an order in which each token inside a host name comes after
   the host's own, or is its decade's value followed by its last digit.
   */
  lemma RestoredInOrder(ps: seq<Piece>, vals: map<nat, string>, inside: map<nat, seq<Piece>>, first: nat, count: nat,
                        mapping: map<string, string>, ns: seq<nat>, tokens: seq<string>)
    requires Nested(vals, inside, first, count) && KnownTokens(ps, vals)
    requires SeparatedDeep(ps, inside, Full(vals, inside), count) && NoPrefix(Original(ps, Full(vals, inside)))
    requires Names(mapping, vals) && LongestFirst(tokens, mapping) && "" !in mapping
    requires tokens == NamesOf(ns) && AllOf(ns, count) && PastCoincide(inside, ns, Full(vals, inside))
    ensures ExpandWith(Written(ps), mapping, tokens) == Original(ps, Full(vals, inside))
  {
    hide TokenName; hide After; hide Ordered; hide Settle; hide Written; hide NoPrefix; hide Names; hide LongestFirst;
    hide SeparatedDeep; hide KnownTokens; hide Original; hide Safe; hide SettledApart; hide Coincides; hide MapsTo;
    hide Nested; hide Full; hide Settling;
    var r := Reading(Settling(inside, ns), Full(vals, inside), {});
    NumbersKnown(ns, vals, inside, first, count);
    SettlingMaps(vals, inside, first, count, ns, r, mapping);
    SettlingCoherent(vals, inside, first, count, ns);
    SettledApartAll(ps, vals, inside, first, count, ns);
    SettlingSafe(ps, vals, inside, first, count, ns, r);
    ExpandUnfolds(ps, ns, r, mapping);
  }

  /**
   Expansion restores the text in every order when each token inside a host name is shorter
   than the host's, or is its decade's value followed by its last digit.
   */
  lemma SwallowedRestored(ps: seq<Piece>, vals: map<nat, string>, inside: map<nat, seq<Piece>>, first: nat, count: nat,
                          mapping: map<string, string>, tokens: seq<string>)
    requires Nested(vals, inside, first, count) && KnownTokens(ps, vals)
    requires SeparatedDeep(ps, inside, Full(vals, inside), count) && NoPrefix(Original(ps, Full(vals, inside)))
    requires Names(mapping, vals) && LongestFirst(tokens, mapping) && "" !in mapping
    requires forall k, m: nat :: k in vals && Tok(m) in inside[k] ==> Shorter(m, k) || Coincides(vals, m)
    ensures ExpandWith(Written(ps), mapping, tokens) == Original(ps, Full(vals, inside))
  {
    hide TokenName; hide After; hide Ordered; hide Written; hide NoPrefix; hide Names; hide LongestFirst;
    hide SeparatedDeep; hide KnownTokens; hide Original; hide Coincides; hide Nested; hide Full; hide ExpandWith;
    var ns := NumbersOf(tokens, mapping, vals);
    NumbersAre(ns, vals, inside, first, count);
    AllCoincide(vals, inside, first, count, ns);
    RestoredInOrder(ps, vals, inside, first, count, mapping, ns, tokens);
  }

  lemma NumbersAre(ns: seq<nat>, vals: map<nat, string>, inside: map<nat, seq<Piece>>, first: nat, count: nat)
    requires Nested(vals, inside, first, count) && Ordered(ns) && forall n :: n in ns <==> n in vals
    ensures AllOf(ns, count)
  {
    hide Ordered;
  }

  /** Each token whose turn is past coincides with its decade and a digit. */
  ghost predicate PastCoincide(inside: map<nat, seq<Piece>>, ns: seq<nat>, full: map<nat, string>) {
    forall k, m: nat :: k in ns && k in inside && Tok(m) in inside[k] && m !in After(ns, k) ==> m >= 10 && Coincides(full, m)
  }

  lemma AllCoincide(vals: map<nat, string>, inside: map<nat, seq<Piece>>, first: nat, count: nat, ns: seq<nat>)
    requires Nested(vals, inside, first, count) && AllOf(ns, count)
    requires forall k, m: nat :: k in vals && Tok(m) in inside[k] ==> Shorter(m, k) || Coincides(vals, m)
    ensures PastCoincide(inside, ns, Full(vals, inside))
  {
    hide TokenName; hide After; hide Ordered; hide Written; hide Full; hide Settling; hide Coincides; hide Nested;
    var r := Reading(Settling(inside, ns), Full(vals, inside), {});
    forall k, m: nat | k in ns && k in inside && Tok(m) in inside[k] && m !in After(ns, k)
      ensures m >= 10 && Coincides(Full(vals, inside), m)
    {
      assert k in vals by { NumbersKnown(ns, vals, inside, first, count); }
      PastInside(vals, inside, first, count, ns, k, m, r);
      FullyCoincides(vals, inside, first, count, k, m);
    }
  }

  lemma NumbersKnown(ns: seq<nat>, vals: map<nat, string>, inside: map<nat, seq<Piece>>, first: nat, count: nat)
    requires Nested(vals, inside, first, count) && AllOf(ns, count)
    ensures forall n :: n in ns <==> n in vals
  {
    hide Ordered;
  }

  lemma FullyCoincides(vals: map<nat, string>, inside: map<nat, seq<Piece>>, first: nat, count: nat, k: nat, m: nat)
    requires Nested(vals, inside, first, count) && k in vals && Tok(m) in inside[k] && Coincides(vals, m)
    ensures m >= 10 && Coincides(Full(vals, inside), m)
  {
    hide Written;
    FullMeans(vals, inside, first, count);
    assert m <= first && m / 10 <= first;
  }

  lemma SettlingCoherent(vals: map<nat, string>, inside: map<nat, seq<Piece>>, first: nat, count: nat, ns: seq<nat>)
    requires Nested(vals, inside, first, count) && AllOf(ns, count)
    requires PastCoincide(inside, ns, Full(vals, inside))
    ensures Coherent(Reading(Settling(inside, ns), Full(vals, inside), {}), ns)
  {
    hide TokenName; hide After; hide Ordered; hide Settle; hide Written; hide Coincides; hide Original;
    var full := Full(vals, inside);
    FullMeans(vals, inside, first, count);
    forall n | n in ns
      ensures full[n] == Original(Settle(inside[n], After(ns, n)), full)
    {
      SettleMeans(inside[n], After(ns, n), full);
    }
  }

  lemma SettledApartAll(ps: seq<Piece>, vals: map<nat, string>, inside: map<nat, seq<Piece>>, first: nat, count: nat, ns: seq<nat>)
    requires Nested(vals, inside, first, count) && AllOf(ns, count) && KnownTokens(ps, vals)
    requires SeparatedDeep(ps, inside, Full(vals, inside), count)
    requires PastCoincide(inside, ns, Full(vals, inside))
    ensures forall i :: 0 <= i < |ps| && ps[i].Tok? ==>
      Guarded(ps[i].n, Original(ps[i + 1..], Full(vals, inside)), count)
      && SettledApart(inside[ps[i].n], Original(ps[i + 1..], Full(vals, inside)), After(ns, ps[i].n), Full(vals, inside), count)
  {
    hide TokenName; hide After; hide Ordered; hide Settle; hide Written; hide Coincides; hide Original; hide Full; hide Guarded;
    hide GuardedIn; hide SettledApart;
    var full := Full(vals, inside);
    forall i | 0 <= i < |ps| && ps[i].Tok?
      ensures SettledApart(inside[ps[i].n], Original(ps[i + 1..], full), After(ns, ps[i].n), full, count)
    {
      SettledApartOne(inside[ps[i].n], Original(ps[i + 1..], full), After(ns, ps[i].n), full, count);
    }
  }

  lemma SettledApartOne(w: seq<Piece>, after: string, ns: seq<nat>, full: map<nat, string>, count: nat)
    requires GuardedIn(w, after, full, count) && forall m: nat :: Tok(m) in w && m !in ns ==> Coincides(full, m)
    ensures SettledApart(w, after, ns, full, count)
  {
    hide Guarded; hide Settle; hide Original; hide Coincides;
    forall i | 0 <= i < |w| && w[i].Tok?
      ensures Guarded(w[i].n, Original(Settle(w[i + 1..], ns), full) + after, count)
    {
      assert forall m: nat :: Tok(m) in w[i + 1..] ==> Tok(m) in w;
      SettleMeans(w[i + 1..], ns, full);
    }
  }
}
