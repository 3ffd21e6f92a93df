/** A token inside a host name that is as long as the host's own is lost in some order. */
module SwallowingExact {
  import Decimal
  import opened Expansion
  import opened Swallowing

  // ---- An order that takes m first among the names of its length ----

  /** The numbers from n down to 1, without m. */
  function DownTo(n: nat, m: nat): seq<nat> {
    if n == 0 then [] else (if n == m then [] else [n]) + DownTo(n - 1, m)
  }

  lemma {:induction false} DownFacts(n: nat, m: nat)
    ensures forall x :: x in DownTo(n, m) <==> 1 <= x <= n && x != m
    ensures forall i, j :: 0 <= i < j < |DownTo(n, m)| ==> DownTo(n, m)[i] > DownTo(n, m)[j]
  {
    if n > 0 {
      DownFacts(n - 1, m);
      var rest := DownTo(n - 1, m);
      assert forall i :: 0 <= i < |rest| ==> rest[i] in rest;
    }
  }

  /** m comes before the other names of its length, and every other number after the larger ones. */
  ghost predicate Early(ns: seq<nat>, m: nat) {
    && (forall k :: k in ns && |TokenName(k)| == |TokenName(m)| ==> m !in After(ns, k))
    && (forall k, j: nat :: k in ns && j in ns && j < k && j != m ==> j in After(ns, k))
  }

  lemma {:induction false} EarlyOrder(m: nat, count: nat) returns (ns: seq<nat>)
    requires 1 <= m <= count
    ensures AllOf(ns, count) && Early(ns, m)
    decreases count
  {
    hide TokenName; hide After;
    if |TokenName(count)| > |TokenName(m)| {
      var rest := EarlyOrder(m, count - 1);
      ns := [count] + rest;
      LargestFirst(count, rest, m);
    } else {
      ns := [m] + DownTo(count, m);
      EarlyInClass(m, count);
    }
  }

  lemma AfterCons(c: nat, rest: seq<nat>)
    ensures After([c] + rest, c) == rest
    ensures forall k :: k in rest && k != c ==> After([c] + rest, k) == After(rest, k)
  {
    assert ([c] + rest)[1..] == rest;
  }

  lemma OrderedCons(c: nat, rest: seq<nat>)
    requires Ordered(rest) && c !in rest && forall x :: x in rest ==> |TokenName(x)| <= |TokenName(c)|
    ensures Ordered([c] + rest)
  {
    hide TokenName;
  }

  lemma LargestFirst(count: nat, rest: seq<nat>, m: nat)
    requires count > 0 && AllOf(rest, count - 1) && Early(rest, m) && |TokenName(count)| > |TokenName(m)|
    ensures AllOf([count] + rest, count) && Early([count] + rest, m)
  {
    hide TokenName; hide After; hide Ordered;
    forall x | x in rest
      ensures |TokenName(x)| <= |TokenName(count)|
    {
      LongerNumbers(x, count);
    }
    OrderedCons(count, rest);
    AfterCons(count, rest);
  }

  lemma EarlyInClass(m: nat, count: nat)
    requires 1 <= m <= count && |TokenName(count)| <= |TokenName(m)|
    ensures AllOf([m] + DownTo(count, m), count) && Early([m] + DownTo(count, m), m)
  {
    hide TokenName; hide DownTo; hide After; hide Ordered;
    var d := DownTo(count, m);
    DownFacts(count, m);
    forall x | x in d
      ensures |TokenName(x)| <= |TokenName(m)|
    {
      LongerNumbers(x, count);
    }
    FallingOrdered(d);
    OrderedCons(m, d);
    AfterCons(m, d);
    forall k, j: nat | k in d && j in d && j < k
      ensures j in After(d, k)
    {
      SmallerLater(d, k, j);
    }
  }

  lemma FallingOrdered(d: seq<nat>)
    requires forall i, j :: 0 <= i < j < |d| ==> d[i] > d[j]
    ensures Ordered(d)
  {
    hide TokenName;
    forall i, j | 0 <= i < j < |d|
      ensures |TokenName(d[i])| >= |TokenName(d[j])|
    {
      LongerNumbers(d[j], d[i]);
    }
  }

  lemma SmallerLater(d: seq<nat>, k: nat, j: nat)
    requires k in d && j in d && j < k && forall i, i' :: 0 <= i < i' < |d| ==> d[i] > d[i']
    ensures j in After(d, k)
  {
    hide After;
    var i := AfterAt(d, k);
    var i' :| 0 <= i' < |d| && d[i'] == j;
    assert d[i + 1..][i' - i - 1] == j;
  }

  // ---- A one-digit token is left standing ----

  lemma {:induction false} SwapKeeps(ps: seq<Piece>, n: nat, w: seq<Piece>, p: Piece)
    ensures p in ps && p != Tok(n) ==> p in Swap(ps, n, w)
    ensures Tok(n) in ps && p in w ==> p in Swap(ps, n, w)
  {
    if ps != [] {
      SwapKeeps(ps[1..], n, w, p);
    }
  }

  lemma {:induction false} LeftStanding(ps: seq<Piece>, ns: seq<nat>, inside: map<nat, seq<Piece>>, m: nat)
    requires (forall n :: n in ns ==> n in inside) && Tok(m) in ps && m !in ns
    ensures Tok(m) in SwapAll(ps, ns, inside)
    decreases |ns|
  {
    if ns != [] {
      SwapKeeps(ps, ns[0], inside[ns[0]], Tok(m));
      LeftStanding(Swap(ps, ns[0], inside[ns[0]]), ns[1..], inside, m);
    }
  }

  /** A token that is brought in after its turn is still there in the end. */
  lemma {:induction false} BroughtInLate(ps: seq<Piece>, ns: seq<nat>, inside: map<nat, seq<Piece>>, k: nat, m: nat)
    requires (forall n :: n in ns ==> n in inside) && k in ns && Tok(k) in ps && Tok(m) in inside[k] && m !in After(ns, k)
    ensures Tok(m) in SwapAll(ps, ns, inside)
    decreases |ns|
  {
    var n := ns[0];
    var qs := Swap(ps, n, inside[n]);
    if n == k {
      SwapKeeps(ps, n, inside[n], Tok(m));
      LeftStanding(qs, ns[1..], inside, m);
    } else {
      SwapKeeps(ps, n, inside[n], Tok(k));
      BroughtInLate(qs, ns[1..], inside, k, m);
    }
  }

  lemma {:induction false} TokenShows(ps: seq<Piece>, m: nat)
    requires Tok(m) in ps
    ensures !NoPrefix(Written(ps))
  {
    hide TokenName; hide NoPrefix;
    if ps[0] == Tok(m) {
      WrittenConcat([Tok(m)], ps[1..]);
      assert ps == [Tok(m)] + ps[1..];
      NameShows(m, Written(ps[1..]));
    } else {
      TokenShows(ps[1..], m);
      if NoPrefix(Written(ps)) {
        WrittenConcat([ps[0]], ps[1..]);
        assert ps == [ps[0]] + ps[1..];
        NoPrefixTail(Written([ps[0]]), Written(ps[1..]));
      }
    }
  }

  lemma NameShows(m: nat, rest: string)
    ensures !NoPrefix(Written([Tok(m)]) + rest)
  {
    var s := Written([Tok(m)]) + rest;
    assert Written([Tok(m)]) == TokenName(m);
    assert s[0..] == s && PREFIX <= s;
  }

  /** Read in this order, a token of one digit stays in the text. */
  lemma OneDigitLost(ps: seq<Piece>, vals: map<nat, string>, inside: map<nat, seq<Piece>>, first: nat, count: nat,
                     mapping: map<string, string>, ns: seq<nat>, tokens: seq<string>, k: nat, m: nat)
    requires LongestFirst(tokens, mapping) && "" !in mapping && tokens == NamesOf(ns)
    requires Nested(vals, inside, first, count) && KnownTokens(ps, vals) && Names(mapping, vals)
    requires SeparatedDeep(ps, inside, Full(vals, inside), count) && NoPrefix(Original(ps, Full(vals, inside)))
    requires AllOf(ns, count) && Early(ns, m)
    requires Tok(k) in ps && k in vals && Tok(m) in inside[k] && |TokenName(m)| == |TokenName(k)| && m < 10
    ensures ExpandWith(Written(ps), mapping, tokens) != Original(ps, Full(vals, inside))
  {
    hide TokenName; hide After; hide Ordered; hide Written; hide NoPrefix; hide SeparatedDeep; hide KnownTokens; hide Original;
    hide Safe; hide Full; hide Early; hide Coherent; hide MapsTo; hide Names; hide Nested; hide SwapAll; hide ExpandWith; hide NamesOf;
    var r := Reading(inside, Full(vals, inside), {m});
    UnsettledReading(vals, inside, first, count, ns, m, mapping);
    UnsettledSafe(ps, vals, inside, first, count, ns, m);
    ExpandSwaps(ps, ns, r, mapping);
    NumbersKnown(ns, vals, inside, first, count);
    FirstOfLength(ns, k, m);
    BroughtInLate(ps, ns, inside, k, m);
    TokenShows(SwapAll(ps, ns, inside), m);
  }

  lemma UnsettledReading(vals: map<nat, string>, inside: map<nat, seq<Piece>>, first: nat, count: nat, ns: seq<nat>, m: nat,
                         mapping: map<string, string>)
    requires Nested(vals, inside, first, count) && Names(mapping, vals) && AllOf(ns, count) && m < 10
    ensures Coherent(Reading(inside, Full(vals, inside), {m}), ns) && MapsTo(mapping, ns, Reading(inside, Full(vals, inside), {m}))
    ensures forall n :: n in ns ==> n in inside
  {
    hide TokenName; hide Ordered; hide Written; hide Original; hide Full;
    FullMeans(vals, inside, first, count);
    forall n | n in ns
      ensures |TokenName(m)| <= |TokenName(n)|
    {
      OneDigit(m, n);
    }
  }

  lemma FirstOfLength(ns: seq<nat>, k: nat, m: nat)
    requires Early(ns, m) && k in ns && |TokenName(k)| == |TokenName(m)|
    ensures m !in After(ns, k)
  {
    hide TokenName; hide After;
  }

  lemma OneDigit(m: nat, n: nat)
    requires m < 10
    ensures |TokenName(m)| <= |TokenName(n)|
  {
  }

  lemma UnsettledSafe(ps: seq<Piece>, vals: map<nat, string>, inside: map<nat, seq<Piece>>, first: nat, count: nat,
                      ns: seq<nat>, m: nat)
    requires Nested(vals, inside, first, count) && KnownTokens(ps, vals)
    requires SeparatedDeep(ps, inside, Full(vals, inside), count) && AllOf(ns, count) && Early(ns, m)
    ensures Safe(ps, "", ns, Reading(inside, Full(vals, inside), {m}))
  {
    hide TokenName; hide After; hide Ordered; hide Written; hide Original; hide Full; hide Guarded; hide GuardedIn; hide Clear; hide Safe;
    var r := Reading(inside, Full(vals, inside), {m});
    forall i | 0 <= i < |ps| && ps[i].Tok?
      ensures SafeToken(ps[i].n, Original(ps[i + 1..], r.full) + "", ns, r)
    {
      var k, after := ps[i].n, Original(ps[i + 1..], r.full);
      assert after + "" == after;
      GuardedClear(k, after, ns, count);
      InsideStanding(vals, inside, first, count, ns, m, k, after);
    }
    assert Safe(ps, "", ns, r) by { AllTokensSafe(ps, ns, r); }
  }

  lemma AllTokensSafe(ps: seq<Piece>, ns: seq<nat>, r: Reading)
    requires forall i :: 0 <= i < |ps| && ps[i].Tok? ==> SafeToken(ps[i].n, Original(ps[i + 1..], r.full) + "", ns, r)
    ensures Safe(ps, "", ns, r)
  {
    hide SafeToken; hide Original;
  }

  /** Tokens inside another are still to come, or they are m. */
  lemma InsideStanding(vals: map<nat, string>, inside: map<nat, seq<Piece>>, first: nat, count: nat,
                       ns: seq<nat>, m: nat, k: nat, after: string)
    requires Nested(vals, inside, first, count) && AllOf(ns, count) && Early(ns, m) && k in ns
    requires GuardedIn(inside[k], after, Full(vals, inside), count)
    ensures Safe(inside[k], after, After(ns, k), Reading(inside, Full(vals, inside), {m}))
  {
    hide TokenName; hide After; hide Ordered; hide Written; hide Original; hide Full; hide Guarded; hide Clear;
    var r, w, later := Reading(inside, Full(vals, inside), {m}), inside[k], After(ns, k);
    forall i | 0 <= i < |w| && w[i].Tok?
      ensures SafeToken(w[i].n, Original(w[i + 1..], r.full) + after, later, r)
    {
      var j := w[i].n;
      assert Tok(j) in w;
      NotInLits(vals[k], j);
      GuardedClear(j, Original(w[i + 1..], r.full) + after, later, count);
      assert inside[j] == Lits(vals[j]);
      assert j < k && j in ns;
      assert j in later || j == m;
      if j in later {
        BareSafe(j, Original(w[i + 1..], r.full) + after, later, r);
      }
    }
  }

  // ---- A text in which one token stands for something else ----

  lemma TailNotAt(q: string, u: string, d: char, rest: string, j: nat)
    requires Seamless(u) && Decimal.IsDigit(d) && 0 < j < 5 && q == PREFIX[j..]
    ensures !(q <= u + ([d] + rest))
  {
    hide NoPrefix;
    if |q| <= |u| {
      ShortPrefix(q, u, [d] + rest);
    } else {
      assert (u + ([d] + rest))[|u|] == d != q[|u|];
    }
  }

  lemma {:induction false} TailElsewhere(j: nat, ps: seq<Piece>, g: map<nat, string>, x: string, u: string, d: char)
    requires Seamless(u) && Decimal.IsDigit(d) && 0 < j < 5
    requires PREFIX[j..] <= Original(ps, g[0 := u + [d]])
    ensures PREFIX[j..] <= Original(ps, g[0 := x])
    decreases |ps|
  {
    hide Seamless; hide TokenName; hide Meant;
    var f, f' := g[0 := u + [d]], g[0 := x];
    if ps != [] {
      var z, rest, rest' := Meant(ps[0], f), Original(ps[1..], f), Original(ps[1..], f');
      if j + |z| < 5 && PREFIX[j + |z|..] <= rest {
        TailElsewhere(j + |z|, ps[1..], g, x, u, d);
      }
      TailMoves(j, ps[0], rest, rest', g, x, u, d);
    }
  }

  lemma TailMoves(j: nat, p: Piece, rest: string, rest': string, g: map<nat, string>, x: string, u: string, d: char)
    requires Seamless(u) && Decimal.IsDigit(d) && 0 < j < 5 && PREFIX[j..] <= Meant(p, g[0 := u + [d]]) + rest
    requires var k := j + |Meant(p, g[0 := u + [d]])|; k < 5 && PREFIX[k..] <= rest ==> PREFIX[k..] <= rest'
    ensures PREFIX[j..] <= Meant(p, g[0 := x]) + rest'
  {
    hide Seamless; hide TokenName;
    var z := Meant(p, g[0 := u + [d]]);
    if p == Tok(0) {
      assert z + rest == u + ([d] + rest);
      TailNotAt(PREFIX[j..], u, d, rest, j);
    } else {
      assert z == Meant(p, g[0 := x]);
      if |PREFIX[j..]| <= |z| {
        ShortPrefix(PREFIX[j..], z, rest);
        ShortPrefix(PREFIX[j..], z, rest');
      } else {
        PrefixSplit(z, PREFIX[j..], rest);
        PrefixSplit(z, PREFIX[j..], rest');
        assert PREFIX[j..][|z|..] == PREFIX[j + |z|..];
      }
    }
  }

  lemma {:induction false} KeepsNoPrefix(ps: seq<Piece>, g: map<nat, string>, x: string, u: string, d: char)
    requires Seamless(u) && Decimal.IsDigit(d) && NoPrefix(Original(ps, g[0 := x]))
    ensures NoPrefix(Original(ps, g[0 := u + [d]]))
    decreases |ps|
  {
    hide Seamless; hide TokenName; hide NoPrefix; hide Meant;
    var f, f' := g[0 := u + [d]], g[0 := x];
    if ps == [] {
      assert Original(ps, f) == Original(ps, f');
    } else {
      NoPrefixTail(Meant(ps[0], f'), Original(ps[1..], f'));
      KeepsNoPrefix(ps[1..], g, x, u, d);
      HeadKeepsNoPrefix(ps[0], ps[1..], g, x, u, d);
    }
  }

  lemma HeadKeepsNoPrefix(p: Piece, tail: seq<Piece>, g: map<nat, string>, x: string, u: string, d: char)
    requires Seamless(u) && Decimal.IsDigit(d)
    requires NoPrefix(Meant(p, g[0 := x]) + Original(tail, g[0 := x])) && NoPrefix(Original(tail, g[0 := u + [d]]))
    ensures NoPrefix(Meant(p, g[0 := u + [d]]) + Original(tail, g[0 := u + [d]]))
  {
    hide TokenName; hide Original; hide Seamless;
    var f, f' := g[0 := u + [d]], g[0 := x];
    var z, rest := Meant(p, f), Original(tail, f);
    forall i | 0 <= i <= |z + rest|
      ensures !(PREFIX <= (z + rest)[i..])
    {
      if i >= |z| {
        assert (z + rest)[i..] == rest[i - |z|..];
      } else {
        assert (z + rest)[i..] == z[i..] + rest;
        if p == Tok(0) {
          DigitBreaks(u, d, rest, i);
        } else {
          var z', rest' := Meant(p, f'), Original(tail, f');
          assert z' == z && (z' + rest')[i..] == z[i..] + rest';
          HeadBreaks(z[i..], tail, g, x, u, d);
        }
      }
    }
  }

  lemma DigitBreaks(u: string, d: char, rest: string, i: nat)
    requires Seamless(u) && Decimal.IsDigit(d) && i <= |u|
    ensures !(PREFIX <= (u + [d])[i..] + rest)
  {
    var v := (u + [d])[i..] + rest;
    if |u| - i >= 5 {
      assert v == u[i..] + ([d] + rest);
      ShortPrefix(PREFIX, u[i..], [d] + rest);
    } else {
      assert v[|u| - i] == d != PREFIX[|u| - i];
    }
  }

  lemma HeadBreaks(z: string, tail: seq<Piece>, g: map<nat, string>, x: string, u: string, d: char)
    requires Seamless(u) && Decimal.IsDigit(d) && z != "" && !(PREFIX <= z + Original(tail, g[0 := x]))
    ensures !(PREFIX <= z + Original(tail, g[0 := u + [d]]))
  {
    hide Original; hide Seamless;
    var rest, rest' := Original(tail, g[0 := u + [d]]), Original(tail, g[0 := x]);
    if |z| >= 5 {
      ShortPrefix(PREFIX, z, rest);
      ShortPrefix(PREFIX, z, rest');
    } else {
      PrefixSplit(z, PREFIX, rest);
      PrefixSplit(z, PREFIX, rest');
      if PREFIX[|z|..] <= rest {
        TailElsewhere(|z|, tail, g, x, u, d);
      }
    }
  }

  /** Two values of one token make two texts. */
  lemma {:induction false} LongerValue(ps: seq<Piece>, g: map<nat, string>, x: string, y: string)
    requires |x| < |y|
    ensures |Original(ps, g[0 := x])| <= |Original(ps, g[0 := y])|
    ensures Tok(0) in ps ==> |Original(ps, g[0 := x])| < |Original(ps, g[0 := y])|
  {
    hide TokenName;
    if ps != [] {
      LongerValue(ps[1..], g, x, y);
    }
  }

  lemma {:induction false} OtherValue(ps: seq<Piece>, g: map<nat, string>, x: string, y: string)
    requires x != y && |x| == |y| && Tok(0) in ps
    ensures Original(ps, g[0 := x]) != Original(ps, g[0 := y])
  {
    hide TokenName;
    var f, f' := g[0 := x], g[0 := y];
    var z, z', rest, rest' := Meant(ps[0], f), Meant(ps[0], f'), Original(ps[1..], f), Original(ps[1..], f');
    assert |z| == |z'| && (z + rest)[..|z|] == z && (z' + rest')[..|z|] == z';
    assert (z + rest)[|z|..] == rest && (z' + rest')[|z|..] == rest';
    if ps[0] != Tok(0) {
      OtherValue(ps[1..], g, x, y);
    }
  }

  lemma ValuesDiffer(ps: seq<Piece>, g: map<nat, string>, x: string, y: string)
    requires x != y && Tok(0) in ps
    ensures Original(ps, g[0 := x]) != Original(ps, g[0 := y])
  {
    hide Original;
    if |x| < |y| {
      LongerValue(ps, g, x, y);
    } else if |y| < |x| {
      LongerValue(ps, g, y, x);
    } else {
      OtherValue(ps, g, x, y);
    }
  }

  // ---- A longer token reads as its decade and a digit ----

  /** A token whose turn is past is marked as number 0, which is never in use. */
  function MarkPast(w: seq<Piece>, ns: seq<nat>): seq<Piece> {
    if w == [] then [] else Marked(w[0], ns) + MarkPast(w[1..], ns)
  }

  function Marked(p: Piece, ns: seq<nat>): seq<Piece> {
    if p.Tok? && p.n !in ns then [Tok(0)] else [p]
  }

  /** What a token reads as after its turn. */
  function PastValue(vals: map<nat, string>, m: nat): string
    requires m / 10 in vals
  {
    vals[m / 10] + [Decimal.Digit(m % 10)]
  }

  /** Only m can be past, and every token is in use. */
  ghost predicate OnlyPast(w: seq<Piece>, ns: seq<nat>, vals: map<nat, string>, m: nat) {
    forall j: nat :: Tok(j) in w ==> j > 0 && j in vals && (j in ns || j == m)
  }

  lemma {:induction false} MarkMeans(w: seq<Piece>, ns: seq<nat>, vals: map<nat, string>, m: nat)
    requires m in vals && m / 10 in vals && OnlyPast(w, ns, vals, m)
    ensures Original(w, vals) == Original(MarkPast(w, ns), vals[0 := vals[m]])
    ensures Original(Settle(w, ns), vals) == Original(MarkPast(w, ns), vals[0 := PastValue(vals, m)])
  {
    hide TokenName; hide Settled; hide Marked; hide Meant; hide PastValue;
    if w != [] {
      var p, tail := w[0], w[1..];
      assert p in w && (p.Tok? ==> Tok(p.n) in w) && forall j: nat :: Tok(j) in tail ==> Tok(j) in w;
      MarkMeans(tail, ns, vals, m);
      OriginalConcat(Marked(p, ns), MarkPast(tail, ns), vals[0 := vals[m]]);
      OriginalConcat(Marked(p, ns), MarkPast(tail, ns), vals[0 := PastValue(vals, m)]);
      OriginalConcat(Settled(p, ns), Settle(tail, ns), vals);
      MarkedMeans(p, ns, vals, m);
    }
  }

  lemma MarkedMeans(p: Piece, ns: seq<nat>, vals: map<nat, string>, m: nat)
    requires m in vals && m / 10 in vals && (p.Tok? ==> p.n > 0 && p.n in vals && (p.n in ns || p.n == m))
    ensures Original(Marked(p, ns), vals[0 := vals[m]]) == Meant(p, vals)
    ensures Original(Settled(p, ns), vals) == Original(Marked(p, ns), vals[0 := PastValue(vals, m)])
  {
    hide TokenName; hide Settled;
    SettledMeans(p, ns, vals);
    assert forall x: string :: x + "" == x;
  }

  /** The tokens replaced by their marked pieces. */
  function Opened(ps: seq<Piece>, marks: map<nat, seq<Piece>>): seq<Piece> {
    if ps == [] then [] else (if ps[0].Tok? && ps[0].n in marks then marks[ps[0].n] else [ps[0]]) + Opened(ps[1..], marks)
  }

  lemma {:induction false} OpenedMeans(ps: seq<Piece>, marks: map<nat, seq<Piece>>, f: map<nat, string>, g: map<nat, string>)
    requires forall k: nat :: Tok(k) in ps ==> k in marks && k in f && f[k] == Original(marks[k], g)
    ensures Original(ps, f) == Original(Opened(ps, marks), g)
  {
    hide TokenName;
    if ps != [] {
      var p, tail := ps[0], ps[1..];
      assert p in ps && (p.Tok? ==> Tok(p.n) in ps) && forall k: nat :: Tok(k) in tail ==> Tok(k) in ps;
      OpenedMeans(tail, marks, f, g);
      OriginalConcat(if p.Tok? then marks[p.n] else [p], Opened(tail, marks), g);
      assert p.Lit? ==> Original([p], g) == [p.c];
    }
  }

  lemma {:induction false} OpenedHolds(ps: seq<Piece>, marks: map<nat, seq<Piece>>, k: nat, p: Piece)
    requires Tok(k) in ps && k in marks && p in marks[k]
    ensures p in Opened(ps, marks)
  {
    if ps[0] != Tok(k) {
      OpenedHolds(ps[1..], marks, k, p);
    }
  }

  lemma {:induction false} MarkHolds(w: seq<Piece>, ns: seq<nat>, m: nat)
    requires Tok(m) in w && m !in ns
    ensures Tok(0) in MarkPast(w, ns)
  {
    if w[0] != Tok(m) {
      MarkHolds(w[1..], ns, m);
    }
  }

  // ---- The text that comes back in this order ----

  function Marks(inside: map<nat, seq<Piece>>, ns: seq<nat>): map<nat, seq<Piece>> {
    map k | k in inside && k in ns :: MarkPast(inside[k], After(ns, k))
  }

  /** In this order only m can be past when it is brought in. */
  lemma EarlyOnlyPast(vals: map<nat, string>, inside: map<nat, seq<Piece>>, first: nat, count: nat, ns: seq<nat>, k: nat, m: nat)
    requires Nested(vals, inside, first, count) && AllOf(ns, count) && Early(ns, m) && k in ns
    ensures OnlyPast(inside[k], After(ns, k), vals, m)
  {
    hide TokenName; hide After; hide Ordered; hide Written;
    forall j: nat | Tok(j) in inside[k]
      ensures j > 0 && j in vals && (j in After(ns, k) || j == m)
    {
      NotInLits(vals[k], j);
      assert j < k && j in ns;
    }
  }

  /** The texts meant and restored, as one text in which the marks have two meanings. */
  lemma TwoReadings(ps: seq<Piece>, vals: map<nat, string>, inside: map<nat, seq<Piece>>, first: nat, count: nat, ns: seq<nat>, m: nat)
    requires Nested(vals, inside, first, count) && AllOf(ns, count) && Early(ns, m) && KnownTokens(ps, vals)
    requires m in vals && m / 10 in vals
    ensures Original(ps, Full(vals, inside)) == Original(Opened(ps, Marks(inside, ns)), vals[0 := vals[m]])
    ensures Original(ps, Full(vals, Settling(inside, ns))) == Original(Opened(ps, Marks(inside, ns)), vals[0 := PastValue(vals, m)])
  {
    hide TokenName; hide After; hide Ordered; hide Written; hide Original; hide MarkPast; hide Settle; hide PastValue; hide Early;
    var marks := Marks(inside, ns);
    forall k: nat | Tok(k) in ps
      ensures k in marks
      ensures Full(vals, inside)[k] == Original(marks[k], vals[0 := vals[m]])
      ensures Full(vals, Settling(inside, ns))[k] == Original(marks[k], vals[0 := PastValue(vals, m)])
    {
      var i :| 0 <= i < |ps| && ps[i] == Tok(k);
      EarlyOnlyPast(vals, inside, first, count, ns, k, m);
      MarkMeans(inside[k], After(ns, k), vals, m);
    }
    OpenedMeans(ps, marks, Full(vals, inside), vals[0 := vals[m]]);
    OpenedMeans(ps, marks, Full(vals, Settling(inside, ns)), vals[0 := PastValue(vals, m)]);
  }

  /** That text differs from the one meant and still spells no token. */
  lemma OtherText(ps: seq<Piece>, vals: map<nat, string>, inside: map<nat, seq<Piece>>, first: nat, count: nat, ns: seq<nat>,
                  k: nat, m: nat)
    requires Nested(vals, inside, first, count) && AllOf(ns, count) && Early(ns, m) && KnownTokens(ps, vals)
    requires NoPrefix(Original(ps, Full(vals, inside))) && Tok(k) in ps && k in inside && Tok(m) in inside[k]
    requires |TokenName(m)| == |TokenName(k)| && m >= 10 && !Coincides(vals, m)
    requires forall n :: n in vals && n <= first ==> Seamless(vals[n])
    ensures NoPrefix(Original(ps, Full(vals, Settling(inside, ns))))
    ensures Original(ps, Full(vals, Settling(inside, ns))) != Original(ps, Full(vals, inside))
  {
    hide TokenName; hide After; hide Ordered; hide Written; hide Original; hide Full; hide NoPrefix; hide Early; hide Settling;
    hide Opened; hide MarkPast; hide Seamless;
    var marks := Marks(inside, ns);
    var qs := Opened(ps, marks);
    TwoReadings(ps, vals, inside, first, count, ns, m);
    FirstOfLength(ns, k, m);
    MarkHolds(inside[k], After(ns, k), m);
    OpenedHolds(ps, marks, k, Tok(0));
    ValuesDiffer(qs, vals, vals[m], PastValue(vals, m));
    KeepsNoPrefix(qs, vals, vals[m], vals[m / 10], Decimal.Digit(m % 10));
  }

  /** With the tokens inside settled, the nesting is as before. */
  lemma SettlingNested(vals: map<nat, string>, inside: map<nat, seq<Piece>>, first: nat, count: nat, ns: seq<nat>, m: nat)
    requires Nested(vals, inside, first, count) && AllOf(ns, count) && Early(ns, m) && m >= 10
    ensures Nested(vals, Settling(inside, ns), first, count)
    ensures forall k, j: nat :: k in ns && k in inside && Tok(j) in inside[k] && j !in After(ns, k) ==> j >= 10
  {
    hide TokenName; hide After; hide Ordered; hide Written; hide Settle; hide Early;
    var settled := Settling(inside, ns);
    forall k | k in inside
      ensures Written(settled[k]) == vals[k]
      ensures k <= first ==> settled[k] == Lits(vals[k])
      ensures forall j: nat :: Tok(j) in settled[k] ==> 1 <= j <= first
      ensures forall j: nat :: Tok(j) in inside[k] && j !in After(ns, k) ==> j >= 10
    {
      EarlyOnlyPast(vals, inside, first, count, ns, k, m);
      SettleWritten(inside[k], After(ns, k));
      SettledTokens(inside[k], After(ns, k), first);
      if k <= first {
        SettleNothing(inside[k], After(ns, k));
      }
    }
  }

  lemma {:induction false} SettledTokens(w: seq<Piece>, ns: seq<nat>, first: nat)
    requires forall j: nat :: Tok(j) in w ==> 1 <= j <= first && (j !in ns ==> j >= 10)
    ensures forall j: nat :: Tok(j) in Settle(w, ns) ==> 1 <= j <= first
  {
    if w != [] {
      var p, tail := w[0], w[1..];
      assert p in w && (p.Tok? ==> Tok(p.n) in w) && forall j: nat :: Tok(j) in tail ==> Tok(j) in w;
      SettledTokens(tail, ns, first);
    }
  }

  /** After a token comes a literal, or nothing. */
  predicate Loose(ps: seq<Piece>) {
    forall i :: 0 <= i < |ps| - 1 && ps[i].Tok? ==> ps[i + 1].Lit?
  }

  /** Two texts that begin alike. */
  predicate StartAlike(s: string, t: string) {
    (s == "" <==> t == "") && (s != "" ==> s[0] == t[0])
  }

  lemma AfterLoose(ps: seq<Piece>, f: map<nat, string>, g: map<nat, string>, a: string, b: string)
    requires (ps != [] && ps[0].Lit?) || (ps == [] && StartAlike(a, b))
    ensures StartAlike(Original(ps, f) + a, Original(ps, g) + b)
  {
  }

  lemma SettleLiteral(ps: seq<Piece>, ns: seq<nat>)
    ensures ps == [] ==> Settle(ps, ns) == []
    ensures ps != [] && ps[0].Lit? ==> Settle(ps, ns) != [] && Settle(ps, ns)[0] == ps[0]
  {
  }

  /** Where no token follows another, a digit follows a token whatever the tokens stand for. */
  lemma LooseApart(w: seq<Piece>, after: string, after': string, ns: seq<nat>, full: map<nat, string>, full': map<nat, string>, count: nat)
    requires Loose(w) && GuardedIn(w, after, full, count) && StartAlike(after, after')
    ensures SettledApart(w, after', ns, full', count)
  {
    hide Settle; hide Original;
    forall i | 0 <= i < |w| && w[i].Tok?
      ensures Guarded(w[i].n, Original(Settle(w[i + 1..], ns), full') + after', count)
    {
      var tail := w[i + 1..];
      SettleLiteral(tail, ns);
      AfterLoose(tail, full, full', after, after');
      SameStart(tail, Settle(tail, ns), full', after');
    }
  }

  lemma SameStart(ps: seq<Piece>, qs: seq<Piece>, f: map<nat, string>, a: string)
    requires (ps == [] && qs == []) || (ps != [] && qs != [] && ps[0].Lit? && qs[0] == ps[0])
    ensures StartAlike(Original(ps, f) + a, Original(qs, f) + a)
  {
  }

  lemma LooseApartAll(ps: seq<Piece>, vals: map<nat, string>, inside: map<nat, seq<Piece>>, ns: seq<nat>,
                      full: map<nat, string>, full': map<nat, string>, count: nat)
    requires KnownTokens(ps, vals) && inside.Keys == vals.Keys && (forall n :: n in vals ==> n in ns)
    requires SeparatedDeep(ps, inside, full, count) && Loose(ps) && forall n :: n in inside ==> Loose(inside[n])
    ensures forall i :: 0 <= i < |ps| && ps[i].Tok? ==>
      Guarded(ps[i].n, Original(ps[i + 1..], full'), count)
      && SettledApart(inside[ps[i].n], Original(ps[i + 1..], full'), After(ns, ps[i].n), full', count)
  {
    hide Original; hide GuardedIn; hide SettledApart; hide After;
    forall i | 0 <= i < |ps| && ps[i].Tok?
      ensures Guarded(ps[i].n, Original(ps[i + 1..], full'), count)
      ensures SettledApart(inside[ps[i].n], Original(ps[i + 1..], full'), After(ns, ps[i].n), full', count)
    {
      var tail, k := ps[i + 1..], ps[i].n;
      assert Original(tail, full) + "" == Original(tail, full) && Original(tail, full') + "" == Original(tail, full');
      AfterLoose(tail, full, full', "", "");
      LooseApart(inside[k], Original(tail, full), Original(tail, full'), After(ns, k), full, full', count);
    }
  }

  /** Read in this order, a longer token comes back as another value. */
  lemma MoreDigitsLost(ps: seq<Piece>, vals: map<nat, string>, inside: map<nat, seq<Piece>>, first: nat, count: nat,
                       mapping: map<string, string>, ns: seq<nat>, tokens: seq<string>, k: nat, m: nat)
    requires LongestFirst(tokens, mapping) && "" !in mapping && tokens == NamesOf(ns)
    requires Nested(vals, inside, first, count) && KnownTokens(ps, vals) && Names(mapping, vals)
    requires SeparatedDeep(ps, inside, Full(vals, inside), count) && NoPrefix(Original(ps, Full(vals, inside)))
    requires Loose(ps) && forall n :: n in inside ==> Loose(inside[n])
    requires AllOf(ns, count) && Early(ns, m)
    requires Tok(k) in ps && k in vals && Tok(m) in inside[k] && |TokenName(m)| == |TokenName(k)| && m >= 10 && !Coincides(vals, m)
    requires forall n :: n in vals && n <= first ==> Seamless(vals[n])
    ensures ExpandWith(Written(ps), mapping, tokens) != Original(ps, Full(vals, inside))
  {
    hide TokenName; hide After; hide Ordered; hide Written; hide NoPrefix; hide SeparatedDeep; hide KnownTokens; hide Original;
    hide Safe; hide Full; hide Early; hide Coherent; hide MapsTo; hide Names; hide Nested; hide ExpandWith; hide NamesOf;
    hide Loose; hide Settling; hide Seamless; hide SettledApart;
    var settled := Settling(inside, ns);
    var full := Full(vals, settled);
    var r := Reading(settled, full, {});
    SettlingNested(vals, inside, first, count, ns, m);
    NestedReading(vals, settled, first, count, ns, mapping);
    NumbersKnown(ns, vals, inside, first, count);
    SameKeys(vals, inside, first, count);
    LooseApartAll(ps, vals, inside, ns, Full(vals, inside), full, count);
    SettlingSafe(ps, vals, inside, first, count, ns, r);
    OtherText(ps, vals, inside, first, count, ns, k, m);
    ExpandUnfolds(ps, ns, r, mapping);
  }

  lemma SameKeys(vals: map<nat, string>, inside: map<nat, seq<Piece>>, first: nat, count: nat)
    requires Nested(vals, inside, first, count)
    ensures inside.Keys == vals.Keys
  {
  }

  lemma NestedReading(vals: map<nat, string>, inside: map<nat, seq<Piece>>, first: nat, count: nat, ns: seq<nat>,
                      mapping: map<string, string>)
    requires Nested(vals, inside, first, count) && Names(mapping, vals) && AllOf(ns, count)
    ensures Coherent(Reading(inside, Full(vals, inside), {}), ns) && MapsTo(mapping, ns, Reading(inside, Full(vals, inside), {}))
  {
    hide TokenName; hide Ordered; hide Written; hide Original; hide Full;
    FullMeans(vals, inside, first, count);
  }

  // ---- The exact condition ----

  /** The names in an order of their numbers. */
  lemma NamesInOrder(ns: seq<nat>, mapping: map<string, string>, vals: map<nat, string>)
    requires Names(mapping, vals) && Ordered(ns) && forall n :: n in ns <==> n in vals
    ensures LongestFirst(NamesOf(ns), mapping) && "" !in mapping
  {
    hide TokenName; hide NamesOf;
    NamesDistinct(ns);
    forall t
      ensures t in NamesOf(ns) <==> t in mapping
    {
      NamedIff(ns, mapping, vals, t);
    }
    assert "" in mapping ==> IsName("", vals);
  }

  lemma NamesDistinct(ns: seq<nat>)
    requires Ordered(ns)
    ensures forall i, j :: 0 <= i < j < |ns| ==> NamesOf(ns)[i] != NamesOf(ns)[j] && |NamesOf(ns)[i]| >= |NamesOf(ns)[j]|
  {
    hide TokenName;
    forall i, j | 0 <= i < j < |ns|
      ensures TokenName(ns[i]) != TokenName(ns[j])
    {
      if TokenName(ns[i]) == TokenName(ns[j]) {
        TokenNamesDiffer(ns[i], ns[j]);
      }
    }
  }

  lemma NamedIff(ns: seq<nat>, mapping: map<string, string>, vals: map<nat, string>, t: string)
    requires Names(mapping, vals) && forall n :: n in ns <==> n in vals
    ensures t in NamesOf(ns) <==> t in mapping
  {
    hide TokenName;
    if t in mapping {
      assert IsName(t, vals);
      var n :| n in vals && TokenName(n) == t;
      var i :| 0 <= i < |ns| && ns[i] == n;
      assert NamesOf(ns)[i] == t;
    }
  }

  lemma LostInSomeOrder(ps: seq<Piece>, vals: map<nat, string>, inside: map<nat, seq<Piece>>, first: nat, count: nat,
                        mapping: map<string, string>, k: nat, m: nat) returns (tokens: seq<string>)
    requires Nested(vals, inside, first, count) && KnownTokens(ps, vals) && Names(mapping, vals) && "" !in mapping
    requires SeparatedDeep(ps, inside, Full(vals, inside), count) && NoPrefix(Original(ps, Full(vals, inside)))
    requires Loose(ps) && forall n :: n in inside ==> Loose(inside[n])
    requires Tok(k) in ps && k in vals && Tok(m) in inside[k] && !Shorter(m, k) && !Coincides(vals, m)
    requires forall n :: n in vals && n <= first ==> Seamless(vals[n])
    ensures LongestFirst(tokens, mapping) && ExpandWith(Written(ps), mapping, tokens) != Original(ps, Full(vals, inside))
  {
    hide TokenName; hide After; hide Ordered; hide Written; hide NoPrefix; hide SeparatedDeep; hide KnownTokens; hide Original;
    hide Full; hide Early; hide Names; hide Loose; hide Seamless; hide Coincides; hide ExpandWith; hide LongestFirst; hide NamesOf;
    SmallerSwallowed(vals, inside, first, count, k, m);
    LongerNumbers(m, k);
    var ns := EarlyOrder(m, count);
    NumbersKnown(ns, vals, inside, first, count);
    NamesInOrder(ns, mapping, vals);
    tokens := NamesOf(ns);
    if m < 10 {
      OneDigitLost(ps, vals, inside, first, count, mapping, ns, tokens, k, m);
    } else {
      MoreDigitsLost(ps, vals, inside, first, count, mapping, ns, tokens, k, m);
    }
  }

  lemma SmallerSwallowed(vals: map<nat, string>, inside: map<nat, seq<Piece>>, first: nat, count: nat, k: nat, m: nat)
    requires Nested(vals, inside, first, count) && k in vals && Tok(m) in inside[k]
    ensures 1 <= m < k <= count
  {
    hide Written;
    NotInLits(vals[k], m);
  }

  /**
   The exact condition: whatever the order of names of equal length, expansion restores the text
   if and only if each token inside another has fewer digits than that one, or stands for what
   its number without the last digit stands for, followed by that digit.
   */
  lemma RestoredIffShorter(ps: seq<Piece>, vals: map<nat, string>, inside: map<nat, seq<Piece>>, first: nat, count: nat,
                           mapping: map<string, string>)
    requires Nested(vals, inside, first, count) && KnownTokens(ps, vals) && Names(mapping, vals) && "" !in mapping
    requires SeparatedDeep(ps, inside, Full(vals, inside), count) && NoPrefix(Original(ps, Full(vals, inside)))
    requires Loose(ps) && forall n :: n in inside ==> Loose(inside[n])
    requires forall k :: k in vals && k > first ==> Tok(k) in ps
    requires forall n :: n in vals && n <= first ==> Seamless(vals[n])
    ensures (forall tokens :: LongestFirst(tokens, mapping) ==> ExpandWith(Written(ps), mapping, tokens) == Original(ps, Full(vals, inside)))
      <==> forall k, m: nat :: k in vals && Tok(m) in inside[k] ==> Shorter(m, k) || Coincides(vals, m)
  {
    hide TokenName; hide Written; hide NoPrefix; hide SeparatedDeep; hide KnownTokens; hide Original; hide Full; hide Names;
    hide Loose; hide Seamless; hide Coincides; hide ExpandWith; hide Shorter;
    if forall k, m: nat :: k in vals && Tok(m) in inside[k] ==> Shorter(m, k) || Coincides(vals, m) {
      forall tokens | LongestFirst(tokens, mapping)
        ensures ExpandWith(Written(ps), mapping, tokens) == Original(ps, Full(vals, inside))
      {
        SwallowedRestored(ps, vals, inside, first, count, mapping, tokens);
      }
    } else {
      var k, m: nat :| k in vals && Tok(m) in inside[k] && !Shorter(m, k) && !Coincides(vals, m);
      NotInLits(vals[k], m);
      var tokens := LostInSomeOrder(ps, vals, inside, first, count, mapping, k, m);
    }
  }
}
