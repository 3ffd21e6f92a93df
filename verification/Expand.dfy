/** Putting the real values back: longest-first replacement of HOST_n tokens. */
module Expansion {
  import Decimal
  import opened Text

  const PREFIX: string := "HOST_"

  function TokenName(n: nat): (s: string)
    ensures |s| == 5 + |Decimal.Show(n)|
    ensures s[0] == 'H' && forall i :: 0 < i < |s| ==> s[i] != 'H'
    ensures PREFIX <= s && s[5..] == Decimal.Show(n)
  {
    PREFIX + Decimal.Show(n)
  }

  lemma TokenNamesDiffer(m: nat, n: nat)
    requires TokenName(m) == TokenName(n)
    ensures m == n
  {
    Decimal.ShowInjective(m, n);
  }

  /** strings.ReplaceAll for a non-empty pattern: leftmost, non-overlapping. */
  function ReplaceAll(s: string, pat: string, rep: string): string
    requires pat != ""
    decreases |s|
  {
    if s == [] then []
    else if pat <= s then rep + ReplaceAll(s[|pat|..], pat, rep)
    else [s[0]] + ReplaceAll(s[1..], pat, rep)
  }

  // ---- Redacted text as literal characters and tokens ----

  datatype Piece = Lit(c: char) | Tok(n: nat)

  function Lits(s: string): (ps: seq<Piece>)
    ensures |ps| == |s| && forall i :: 0 <= i < |s| ==> ps[i] == Lit(s[i])
  {
    seq(|s|, i requires 0 <= i < |s| => Lit(s[i]))
  }

  /** The text the pieces show: tokens stand under their names. */
  function Written(ps: seq<Piece>): string {
    if ps == [] then [] else (if ps[0].Lit? then [ps[0].c] else TokenName(ps[0].n)) + Written(ps[1..])
  }

  /** The text the pieces stand for. */
  function Original(ps: seq<Piece>, vals: map<nat, string>): string {
    if ps == [] then [] else Meant(ps[0], vals) + Original(ps[1..], vals)
  }

  function Meant(p: Piece, vals: map<nat, string>): string {
    match p
    case Lit(c) => [c]
    case Tok(n) => if n in vals then vals[n] else TokenName(n)
  }

  predicate KnownTokens(ps: seq<Piece>, vals: map<nat, string>) {
    forall i :: 0 <= i < |ps| && ps[i].Tok? ==> ps[i].n in vals
  }

  /** Tokens are numbered 1 to N without gaps. */
  ghost predicate Numbered(vals: map<nat, string>, count: nat) {
    forall n :: n in vals <==> 1 <= n <= count
  }

  /** No stretch of the text already looks like the start of a token. */
  ghost predicate NoPrefix(s: string) {
    forall i :: 0 <= i <= |s| ==> !(PREFIX <= s[i..])
  }

  /** A value that can neither complete the start of a token nor be completed to one. */
  ghost predicate Seamless(v: string) {
    && NoPrefix(v) && (exists i :: 0 <= i < |v| && v[i] !in PREFIX)
    && forall j :: 0 < j < 5 ==> !(PREFIX[j..] <= v) && !HasSuffix(v, PREFIX[..j])
  }

  /** A digit straight after a replaced value does not spell a longer token that is in use. */
  predicate Separated(ps: seq<Piece>, vals: map<nat, string>, count: nat) {
    forall i :: 0 <= i < |ps| && ps[i].Tok? ==> Guarded(ps[i].n, Original(ps[i + 1..], vals), count)
  }

  predicate Guarded(n: nat, after: string, count: nat) {
    after != "" && Decimal.IsDigit(after[0]) ==> 10 * n + Decimal.DigitValue(after[0]) > count
  }

  lemma {:induction false} WrittenConcat(a: seq<Piece>, b: seq<Piece>)
    ensures Written(a + b) == Written(a) + Written(b)
  {
    if a == [] {
      assert a + b == b;
    } else {
      assert (a + b)[1..] == a[1..] + b;
      WrittenConcat(a[1..], b);
    }
  }

  lemma {:induction false} OriginalConcat(a: seq<Piece>, b: seq<Piece>, vals: map<nat, string>)
    ensures Original(a + b, vals) == Original(a, vals) + Original(b, vals)
  {
    hide Meant;
    if a == [] {
      assert a + b == b;
    } else {
      assert (a + b)[1..] == a[1..] + b;
      OriginalConcat(a[1..], b, vals);
    }
  }

  lemma {:induction false} LitsStand(s: string, vals: map<nat, string>)
    ensures Written(Lits(s)) == s && Original(Lits(s), vals) == s
  {
    if s != "" {
      assert Lits(s)[1..] == Lits(s[1..]);
      LitsStand(s[1..], vals);
      assert s == [s[0]] + s[1..];
    }
  }

  /** A stretch without the letter that starts a token reads the same before and after expansion. */
  lemma {:induction false} WrittenAgrees(q: string, ps: seq<Piece>, vals: map<nat, string>)
    requires 'H' !in q && q <= Written(ps)
    ensures q <= Original(ps, vals)
    decreases |ps|
  {
    hide TokenName; hide Written; hide Original;
    FirstLetter(ps, vals);
    if ps != [] && q != [] && ps[0].Lit? {
      var rest := q[1..];
      assert q == [q[0]] + rest;
      PrefixTail(q[0], rest, ps[0].c, Written(ps[1..]));
      WrittenAgrees(rest, ps[1..], vals);
      PrefixTail(q[0], rest, ps[0].c, Original(ps[1..], vals));
    }
  }

  lemma PrefixTail(c: char, q: string, d: char, s: string)
    ensures [c] + q <= [d] + s <==> c == d && q <= s
  {
    if [c] + q <= [d] + s {
      assert [d] + s == [c] + q + ([d] + s)[|q| + 1..];
      assert s == ([d] + s)[1..] == q + ([d] + s)[|q| + 1..];
      assert c == ([c] + q)[0] == ([d] + s)[0] == d;
    }
    if c == d && q <= s {
      assert [d] + s == [c] + q + s[|q|..];
    }
  }

  lemma FirstLetter(ps: seq<Piece>, vals: map<nat, string>)
    ensures ps == [] ==> Written(ps) == ""
    ensures ps != [] ==> Written(ps) != "" && Written(ps)[0] == if ps[0].Lit? then ps[0].c else 'H'
    ensures ps != [] && ps[0].Lit? ==> Written(ps) == [ps[0].c] + Written(ps[1..]) && Original(ps, vals) == [ps[0].c] + Original(ps[1..], vals)
  {
  }

  lemma NoPrefixTail(x: string, rest: string)
    requires NoPrefix(x + rest)
    ensures NoPrefix(rest)
  {
    forall i | 0 <= i <= |rest|
      ensures !(PREFIX <= rest[i..])
    {
      assert (x + rest)[|x| + i..] == rest[i..];
    }
  }

  // ---- One replacement ----

  lemma CopiesOne(c: char, rest: string, pat: string, rep: string)
    requires pat != "" && !(pat <= [c] + rest)
    ensures ReplaceAll([c] + rest, pat, rep) == [c] + ReplaceAll(rest, pat, rep)
  {
    assert ([c] + rest)[1..] == rest;
  }

  /** A stretch in which the pattern never starts is copied unchanged. */
  lemma {:induction false} CopiesClean(x: string, y: string, pat: string, rep: string)
    requires pat != "" && forall i :: 0 <= i < |x| ==> !(pat <= x[i..] + y)
    ensures ReplaceAll(x + y, pat, rep) == x + ReplaceAll(y, pat, rep)
    decreases |x|
  {
    hide ReplaceAll;
    if x == [] {
      assert x + y == y;
    } else {
      var t := x[1..];
      assert x[0..] + y == [x[0]] + (t + y) && x + y == [x[0]] + (t + y);
      assert forall i :: 0 <= i < |t| ==> t[i..] == x[i + 1..];
      CopiesClean(t, y, pat, rep);
      CopiesOne(x[0], t + y, pat, rep);
      assert x == [x[0]] + t;
    }
  }

  lemma PrefixSplit(x: string, pat: string, rest: string)
    requires |x| <= |pat|
    ensures pat <= x + rest <==> x <= pat && pat[|x|..] <= rest
  {
    if pat <= x + rest {
      assert pat[..|x|] == (x + rest)[..|x|] == x;
      assert (x + rest)[|x|..] == rest;
    }
    if x <= pat && pat[|x|..] <= rest {
      assert pat == x + pat[|x|..];
    }
  }

  lemma ShortPrefix(q: string, x: string, rest: string)
    requires |q| <= |x|
    ensures q <= x + rest <==> q <= x
  {
    assert (x + rest)[..|q|] == x[..|q|];
  }

  /** A name that starts before the pieces and is not there in the end is not there now. */
  lemma Absent(x: string, n: nat, ps: seq<Piece>, full: map<nat, string>)
    requires 0 < |x| <= |TokenName(n)| && !(TokenName(n) <= x + Original(ps, full))
    ensures !(TokenName(n) <= x + Written(ps))
  {
    var pat := TokenName(n);
    PrefixSplit(x, pat, Written(ps));
    PrefixSplit(x, pat, Original(ps, full));
    if pat <= x + Written(ps) {
      WrittenAgrees(pat[|x|..], ps, full);
    }
  }

  /** The tokens with one number replaced by other pieces. */
  function Swap(ps: seq<Piece>, n: nat, w: seq<Piece>): seq<Piece> {
    if ps == [] then [] else (if ps[0] == Tok(n) then w else [ps[0]]) + Swap(ps[1..], n, w)
  }

  /** Where another token stands the name of n does not, not even once what follows is expanded. */
  ghost predicate Unmistaken(p: Piece, after: string, n: nat) {
    p.Tok? && p.n != n ==> |TokenName(p.n)| <= |TokenName(n)| && !(TokenName(n) <= TokenName(p.n) + after)
  }

  /** Replacing a token's name by the text of some pieces puts them in its place everywhere and touches nothing else. */
  lemma {:induction false} ReplaceStage(ps: seq<Piece>, n: nat, w: seq<Piece>, full: map<nat, string>)
    requires NoPrefix(Original(ps, full))
    requires forall i :: 0 <= i < |ps| ==> Unmistaken(ps[i], Original(ps[i + 1..], full), n)
    ensures ReplaceAll(Written(ps), TokenName(n), Written(w)) == Written(Swap(ps, n, w))
    decreases |ps|
  {
    hide Meant;
    if ps != [] {
      var p, tail := ps[0], ps[1..];
      var rest := Written(tail);
      NoPrefixTail(Meant(p, full), Original(tail, full));
      assert forall i :: 0 <= i < |tail| ==> tail[i] == ps[i + 1] && tail[i + 1..] == ps[i + 2..];
      ReplaceStage(tail, n, w, full);
      if p == Tok(n) {
        WrittenConcat(w, Swap(tail, n, w));
        assert (TokenName(n) + rest)[|TokenName(n)|..] == rest;
      } else {
        WrittenConcat([p], Swap(tail, n, w));
        StandsAlone(p, tail, n, full);
        CopiesClean(Written([p]), rest, TokenName(n), Written(w));
      }
    }
  }

  lemma StandsAlone(p: Piece, tail: seq<Piece>, n: nat, full: map<nat, string>)
    requires NoPrefix(Original([p] + tail, full)) && p != Tok(n) && Unmistaken(p, Original(tail, full), n)
    ensures Written([p] + tail) == Written([p]) + Written(tail)
    ensures forall i :: 0 <= i < |Written([p])| ==> !(TokenName(n) <= Written([p])[i..] + Written(tail))
  {
    WrittenConcat([p], tail);
    OriginalConcat([p], tail, full);
    var x := Written([p]);
    assert x[0..] == x && x == if p.Lit? then [p.c] else TokenName(p.n);
    if p.Lit? {
      assert Original([p] + tail, full)[0..] == x + Original(tail, full);
    }
    Absent(x, n, tail, full);
    forall i | 0 < i < |x|
      ensures !(TokenName(n) <= x[i..] + Written(tail))
    {
      assert (x[i..] + Written(tail))[0] == x[i] != 'H';
    }
  }

  lemma LongerName(m: nat, n: nat, rest: string)
    requires |TokenName(m)| <= |TokenName(n)| && TokenName(n) <= TokenName(m) + rest
    ensures m == n || (rest != "" && Decimal.IsDigit(rest[0]) && n >= 10 * m + Decimal.DigitValue(rest[0]))
  {
    var x, pat := TokenName(m), TokenName(n);
    PrefixSplit(x, pat, rest);
    var t := pat[|x|..];
    assert pat == x + t;
    if t == [] {
      TokenNamesDiffer(m, n);
    } else {
      assert t[0] == rest[0];
      NumeralSplit(m, n, t);
      Decimal.LongerNumeral(n, m, t);
    }
  }

  lemma NumeralSplit(m: nat, n: nat, t: string)
    requires TokenName(n) == TokenName(m) + t
    ensures Decimal.Show(n) == Decimal.Show(m) + t
  {
    assert (TokenName(m) + t)[5..] == TokenName(m)[5..] + t;
  }

  // ---- One replacement after another ----

  /** Token numbers as they come: distinct, and longer names first. */
  predicate Ordered(ns: seq<nat>) {
    forall i, j :: 0 <= i < j < |ns| ==> ns[i] != ns[j] && |TokenName(ns[i])| >= |TokenName(ns[j])|
  }

  function NamesOf(ns: seq<nat>): (ts: seq<string>)
    ensures |ts| == |ns| && forall i :: 0 <= i < |ns| ==> ts[i] == TokenName(ns[i])
  {
    seq(|ns|, i requires 0 <= i < |ns| => TokenName(ns[i]))
  }

  function After(ns: seq<nat>, n: nat): (rest: seq<nat>)
    requires n in ns
    ensures |rest| < |ns| && forall m :: m in rest ==> m in ns
  {
    if ns[0] == n then ns[1..] else After(ns[1..], n)
  }

  /**
   How tokens read: the pieces each is replaced by, the text it stands for in the end, and
   those that may be left standing.
   */
  datatype Reading = Reading(inside: map<nat, seq<Piece>>, full: map<nat, string>, dead: set<nat>)

  /** The tokens still to come stand for what their pieces stand for; none is shorter than one left standing. */
  ghost predicate Coherent(r: Reading, ns: seq<nat>) {
    && (forall n :: n in ns ==> n in r.inside && n in r.full && r.full[n] == Original(r.inside[n], r.full))
    && (forall n, d :: n in ns && d in r.dead ==> |TokenName(d)| <= |TokenName(n)|)
  }

  /** No token still to come that is at least as long can be read at a token m. */
  ghost predicate Clear(m: nat, after: string, ns: seq<nat>) {
    forall n :: n in ns && n != m && |TokenName(n)| >= |TokenName(m)| ==> !(TokenName(n) <= TokenName(m) + after)
  }

  /** Every token, and every token it will bring in, is clear and still to come when it appears. */
  ghost predicate Safe(ps: seq<Piece>, after: string, ns: seq<nat>, r: Reading)
    decreases |ns|, 1
  {
    forall i :: 0 <= i < |ps| && ps[i].Tok? ==> SafeToken(ps[i].n, Original(ps[i + 1..], r.full) + after, ns, r)
  }

  ghost predicate SafeToken(n: nat, after: string, ns: seq<nat>, r: Reading)
    decreases |ns|, 0
  {
    && (n in ns || n in r.dead) && Clear(n, after, ns)
    && (n in ns && n in r.inside ==> Safe(r.inside[n], after, After(ns, n), r))
  }

  lemma SafeConcat(a: seq<Piece>, b: seq<Piece>, after: string, ns: seq<nat>, r: Reading)
    requires Safe(a, Original(b, r.full) + after, ns, r) && Safe(b, after, ns, r)
    ensures Safe(a + b, after, ns, r)
  {
    hide SafeToken; hide Original;
    var all := a + b;
    forall i | 0 <= i < |all| && all[i].Tok?
      ensures SafeToken(all[i].n, Original(all[i + 1..], r.full) + after, ns, r)
    {
      if i < |a| {
        assert all[i + 1..] == a[i + 1..] + b;
        OriginalConcat(a[i + 1..], b, r.full);
        assert Original(all[i + 1..], r.full) + after == Original(a[i + 1..], r.full) + (Original(b, r.full) + after);
      } else {
        assert all[i + 1..] == b[i - |a| + 1..];
      }
    }
  }

  lemma SafeShrinks(n: nat, after: string, ns: seq<nat>, r: Reading)
    requires ns != [] && n != ns[0] && SafeToken(n, after, ns, r)
    ensures SafeToken(n, after, ns[1..], r)
  {
    assert n in ns ==> n in ns[1..] && After(ns, n) == After(ns[1..], n);
  }

  /** A replacement keeps the text stood for and leaves everything safe for the rest of the tokens. */
  lemma {:induction false} SwapSafe(ps: seq<Piece>, after: string, ns: seq<nat>, r: Reading)
    requires ns != [] && Coherent(r, ns) && Safe(ps, after, ns, r)
    ensures var qs := Swap(ps, ns[0], r.inside[ns[0]]);
      Safe(qs, after, ns[1..], r) && Original(qs, r.full) == Original(ps, r.full)
    decreases |ps|
  {
    hide SafeToken; hide Clear;
    if ps != [] {
      var n, p, tail := ns[0], ps[0], ps[1..];
      var x, qs := if p == Tok(n) then r.inside[n] else [p], Swap(tail, n, r.inside[n]);
      assert forall i :: 0 <= i < |tail| ==> tail[i] == ps[i + 1] && tail[i + 1..] == ps[i + 2..];
      SwapSafe(tail, after, ns, r);
      SwappedHead(p, Original(tail, r.full) + after, ns, r);
      SafeConcat(x, qs, after, ns[1..], r);
      OriginalConcat(x, qs, r.full);
    }
  }

  lemma SwappedHead(p: Piece, after: string, ns: seq<nat>, r: Reading)
    requires ns != [] && Coherent(r, ns) && (p.Tok? ==> SafeToken(p.n, after, ns, r))
    ensures var x := if p == Tok(ns[0]) then r.inside[ns[0]] else [p];
      Safe(x, after, ns[1..], r) && Original(x, r.full) == Meant(p, r.full)
  {
    if p == Tok(ns[0]) {
      assert After(ns, ns[0]) == ns[1..];
    } else {
      assert Original([], r.full) == "" && "" + after == after && Meant(p, r.full) + "" == Meant(p, r.full);
      if p.Tok? {
        SafeShrinks(p.n, after, ns, r);
      }
    }
  }

  function SwapAll(ps: seq<Piece>, ns: seq<nat>, inside: map<nat, seq<Piece>>): seq<Piece>
    requires forall n :: n in ns ==> n in inside
    decreases |ns|
  {
    if ns == [] then ps
    else
      assert forall n :: n in ns[1..] ==> n in ns;
      SwapAll(Swap(ps, ns[0], inside[ns[0]]), ns[1..], inside)
  }

  // ---- The whole expansion ----

  /** What collecting the map's keys and sorting them by length may give: ties come in any order. */
  ghost predicate LongestFirst(tokens: seq<string>, mapping: map<string, string>) {
    && (forall t :: t in tokens <==> t in mapping)
    && (forall i, j :: 0 <= i < j < |tokens| ==> |tokens[i]| >= |tokens[j]| && tokens[i] != tokens[j])
  }

  function ExpandWith(text: string, mapping: map<string, string>, tokens: seq<string>): string
    requires forall t :: t in tokens ==> t in mapping && t != ""
    decreases |tokens|
  {
    if tokens == [] then text
    else
      assert forall t :: t in tokens[1..] ==> t in tokens;
      ExpandWith(ReplaceAll(text, tokens[0], mapping[tokens[0]]), mapping, tokens[1..])
  }

  /** The loop over the sorted tokens. */
  method Expand(text: string, mapping: map<string, string>, tokens: seq<string>) returns (out: string)
    requires LongestFirst(tokens, mapping) && "" !in mapping
    ensures out == ExpandWith(text, mapping, tokens)
  {
    out := text;
    for i := 0 to |tokens|
      invariant ExpandWith(out, mapping, tokens[i..]) == ExpandWith(text, mapping, tokens)
    {
      assert tokens[i..][0] == tokens[i] && tokens[i..][1..] == tokens[i + 1..];
      out := ReplaceAll(out, tokens[i], mapping[tokens[i]]);
    }
  }

  /** The map sends the name of each numbered token to its value, and has no other keys. */
  ghost predicate Names(mapping: map<string, string>, vals: map<nat, string>) {
    && (forall n :: n in vals ==> TokenName(n) in mapping && mapping[TokenName(n)] == vals[n])
    && (forall t :: t in mapping ==> IsName(t, vals))
  }

  ghost predicate IsName(t: string, vals: map<nat, string>) {
    exists n :: n in vals && TokenName(n) == t
  }

  /** The numbers of the tokens, in the order in which they are replaced. */
  lemma NumbersOf(tokens: seq<string>, mapping: map<string, string>, vals: map<nat, string>) returns (ns: seq<nat>)
    requires Names(mapping, vals) && LongestFirst(tokens, mapping)
    ensures NamesOf(ns) == tokens && Ordered(ns) && forall n :: n in ns <==> n in vals
  {
    hide TokenName; hide IsName;
    ns := NumbersList(tokens, vals);
    forall n | n in vals
      ensures n in ns
    {
      var i :| 0 <= i < |tokens| && tokens[i] == TokenName(n);
      TokenNamesDiffer(ns[i], n);
    }
  }

  lemma NumbersList(tokens: seq<string>, vals: map<nat, string>) returns (ns: seq<nat>)
    requires forall t :: t in tokens ==> IsName(t, vals)
    ensures NamesOf(ns) == tokens && forall n :: n in ns ==> n in vals
  {
    hide TokenName; hide IsName;
    ns := seq(|tokens|, i requires 0 <= i < |tokens| => NumberOf(tokens[i], vals));
    assert NamesOf(ns) == tokens;
  }

  ghost function NumberOf(t: string, vals: map<nat, string>): (n: nat)
    requires IsName(t, vals)
    ensures n in vals && TokenName(n) == t
  {
    var n :| n in vals && TokenName(n) == t;
    n
  }

  /** Each name still to come is mapped to the text of its pieces. */
  ghost predicate MapsTo(mapping: map<string, string>, ns: seq<nat>, r: Reading) {
    forall n :: n in ns ==> n in r.inside && TokenName(n) in mapping && mapping[TokenName(n)] == Written(r.inside[n])
  }

  /** Expansion puts pieces for tokens, one number after another. */
  lemma {:induction false} ExpandSwaps(ps: seq<Piece>, ns: seq<nat>, r: Reading, mapping: map<string, string>)
    requires Ordered(ns) && Coherent(r, ns) && Safe(ps, "", ns, r) && NoPrefix(Original(ps, r.full)) && MapsTo(mapping, ns, r)
    ensures ExpandWith(Written(ps), mapping, NamesOf(ns)) == Written(SwapAll(ps, ns, r.inside))
    ensures Safe(SwapAll(ps, ns, r.inside), "", [], r) && Original(SwapAll(ps, ns, r.inside), r.full) == Original(ps, r.full)
    decreases |ns|
  {
    hide TokenName; hide Safe; hide NoPrefix; hide Written; hide Original; hide Clear;
    if ns != [] {
      var n := ns[0];
      var qs := Swap(ps, n, r.inside[n]);
      assert forall m :: m in ns[1..] ==> m in ns;
      AllUnmistaken(ps, ns, r);
      ReplaceStage(ps, n, r.inside[n], r.full);
      SwapSafe(ps, "", ns, r);
      ExpandSwaps(qs, ns[1..], r, mapping);
      assert NamesOf(ns)[1..] == NamesOf(ns[1..]);
    }
  }

  lemma AllUnmistaken(ps: seq<Piece>, ns: seq<nat>, r: Reading)
    requires ns != [] && Ordered(ns) && Coherent(r, ns) && Safe(ps, "", ns, r)
    ensures forall i :: 0 <= i < |ps| ==> Unmistaken(ps[i], Original(ps[i + 1..], r.full), ns[0])
  {
    hide TokenName;
    forall i | 0 <= i < |ps|
      ensures Unmistaken(ps[i], Original(ps[i + 1..], r.full), ns[0])
    {
      assert Original(ps[i + 1..], r.full) + "" == Original(ps[i + 1..], r.full);
      assert ps[i].Tok? ==> SafeToken(ps[i].n, Original(ps[i + 1..], r.full) + "", ns, r);
    }
  }

  /** When no token may be left standing, the text stood for comes back. */
  lemma ExpandUnfolds(ps: seq<Piece>, ns: seq<nat>, r: Reading, mapping: map<string, string>)
    requires Ordered(ns) && Coherent(r, ns) && Safe(ps, "", ns, r) && NoPrefix(Original(ps, r.full)) && MapsTo(mapping, ns, r)
    requires r.dead == {}
    ensures ExpandWith(Written(ps), mapping, NamesOf(ns)) == Original(ps, r.full)
  {
    hide Ordered; hide NoPrefix; hide MapsTo;
    ExpandSwaps(ps, ns, r, mapping);
    WithoutTokens(SwapAll(ps, ns, r.inside), r.full);
  }

  lemma {:induction false} WithoutTokens(ps: seq<Piece>, vals: map<nat, string>)
    requires forall i :: 0 <= i < |ps| ==> ps[i].Lit?
    ensures Written(ps) == Original(ps, vals)
  {
    if ps != [] {
      WithoutTokens(ps[1..], vals);
    }
  }

  // ---- Tokens that stand for plain text ----

  function Plain(vals: map<nat, string>): map<nat, seq<Piece>> {
    map n | n in vals :: Lits(vals[n])
  }

  lemma GuardedClear(m: nat, after: string, ns: seq<nat>, count: nat)
    requires Guarded(m, after, count) && forall n :: n in ns ==> n <= count
    ensures Clear(m, after, ns)
  {
    hide TokenName;
    forall n | n in ns && n != m && |TokenName(n)| >= |TokenName(m)|
      ensures !(TokenName(n) <= TokenName(m) + after)
    {
      if TokenName(n) <= TokenName(m) + after {
        LongerName(m, n, after);
      }
    }
  }

  /**
   Expanding a text in which the tokens stand for the mapped values gives those
   values back, however many tokens there are and in whatever order tokens of
   equal length are replaced.
   */
  lemma ExpandRestores(ps: seq<Piece>, vals: map<nat, string>, count: nat,
                       mapping: map<string, string>, tokens: seq<string>)
    requires KnownTokens(ps, vals) && Numbered(vals, count)
    requires Separated(ps, vals, count) && NoPrefix(Original(ps, vals))
    requires Names(mapping, vals) && LongestFirst(tokens, mapping) && "" !in mapping
    ensures ExpandWith(Written(ps), mapping, tokens) == Original(ps, vals)
  {
    hide TokenName; hide NoPrefix; hide Ordered; hide Separated; hide KnownTokens; hide Safe; hide LongestFirst;
    var ns := NumbersOf(tokens, mapping, vals);
    var r := Reading(Plain(vals), vals, {});
    forall n | n in ns
      ensures r.full[n] == Original(r.inside[n], r.full) && Written(r.inside[n]) == vals[n]
    {
      LitsStand(vals[n], vals);
    }
    PlainSafe(ps, vals, count, ns);
    ExpandUnfolds(ps, ns, r, mapping);
  }

  lemma PlainSafe(ps: seq<Piece>, vals: map<nat, string>, count: nat, ns: seq<nat>)
    requires KnownTokens(ps, vals) && Numbered(vals, count) && Separated(ps, vals, count) && forall n :: n in ns <==> n in vals
    ensures Safe(ps, "", ns, Reading(Plain(vals), vals, {}))
  {
    hide Clear; hide Guarded; hide Original;
    forall i | 0 <= i < |ps| && ps[i].Tok?
      ensures SafeToken(ps[i].n, Original(ps[i + 1..], vals) + "", ns, Reading(Plain(vals), vals, {}))
    {
      var after := Original(ps[i + 1..], vals);
      assert after + "" == after;
      GuardedClear(ps[i].n, after, ns, count);
    }
  }
}
