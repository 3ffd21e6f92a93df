/** Exactly when a digit after a token spoils the expansion. */
module ExpansionExact {
  import opened Expansion
  import opened Text
  import Decimal

  /** A literal digit after token m turns it into a longer token that is in use. */
  predicate Merges(ps: seq<Piece>, count: nat) {
    && |ps| > 1 && ps[0].Tok? && ps[1].Lit? && Decimal.IsDigit(ps[1].c)
    && 10 * ps[0].n + Decimal.DigitValue(ps[1].c) <= count
  }

  /** No token is followed by a digit that spells a longer token in use. */
  predicate DigitsHarmless(ps: seq<Piece>, count: nat) {
    forall i :: 0 <= i < |ps| ==> !Merges(ps[i..], count)
  }

  /** The tokens the expansion really sees: each takes the digits after it while they spell a token in use. */
  function Reread(ps: seq<Piece>, count: nat): seq<Piece>
    decreases |ps|
  {
    if ps == [] then []
    else if Merges(ps, count) then
      Reread(Merged(ps, count), count)
    else [ps[0]] + Reread(ps[1..], count)
  }

  predicate Positive(ps: seq<Piece>, count: nat) {
    forall i :: 0 <= i < |ps| && ps[i].Tok? ==> 1 <= ps[i].n <= count
  }

  /** After a token and the digits behind it comes a literal, nothing, or a value that does not begin with a digit. */
  ghost predicate Spread(ps: seq<Piece>, vals: map<nat, string>) {
    forall i :: 0 <= i < |ps| && ps[i].Tok? ==> DigitsThenBreak(ps[i + 1..], vals)
  }

  ghost predicate DigitsThenBreak(ps: seq<Piece>, vals: map<nat, string>) {
    ps == []
    || match ps[0]
       case Lit(c) => Decimal.IsDigit(c) ==> DigitsThenBreak(ps[1..], vals)
       case Tok(n) => forall k :: k in vals && TokenName(n) <= TokenName(k) ==> vals[k] != "" && !Decimal.IsDigit(vals[k][0])
  }

  /** Where one token's name begins another's, the first value and the digits that are missing are at odds with the second. */
  ghost predicate Apart(vals: map<nat, string>) {
    forall m, n, ds: string :: m in vals && n in vals && ds != "" && TokenName(n) == TokenName(m) + ds ==>
      AtOdds(vals[m] + ds, vals[n])
  }

  /** Neither text begins with the other. */
  predicate AtOdds(s: string, t: string) {
    !(s <= t) && !(t <= s)
  }

  lemma TailOf(ps: seq<Piece>, count: nat)
    requires ps != [] && Positive(ps, count)
    ensures Positive(ps[1..], count)
  {
    var t := ps[1..];
    assert forall i :: 0 <= i < |t| ==> t[i] == ps[i + 1];
  }

  lemma SpreadTail(ps: seq<Piece>, vals: map<nat, string>)
    requires ps != [] && Spread(ps, vals)
    ensures Spread(ps[1..], vals)
  {
    var t := ps[1..];
    assert forall i :: 0 <= i < |t| ==> t[i] == ps[i + 1] && t[i + 1..] == ps[i + 2..];
  }

  lemma MergedOf(ps: seq<Piece>, count: nat)
    requires Merges(ps, count) && Positive(ps, count)
    ensures Positive(Merged(ps, count), count)
  {
    var m := Merged(ps, count);
    assert forall i :: 1 <= i < |m| ==> m[i] == ps[i + 1];
  }

  lemma SpreadMerged(ps: seq<Piece>, count: nat, vals: map<nat, string>)
    requires Merges(ps, count) && Spread(ps, vals)
    ensures Spread(Merged(ps, count), vals)
  {
    var m := Merged(ps, count);
    assert m[1..] == ps[2..] == ps[1..][1..];
    assert forall i :: 1 <= i < |m| ==> m[i] == ps[i + 1] && m[i + 1..] == ps[i + 2..];
    assert DigitsThenBreak(ps[1..], vals);
  }

  function Merged(ps: seq<Piece>, count: nat): (m: seq<Piece>)
    requires Merges(ps, count)
    ensures |m| == |ps| - 1
  {
    [Tok(10 * ps[0].n + Decimal.DigitValue(ps[1].c))] + ps[2..]
  }

  lemma MergedName(m: nat, c: char)
    requires m > 0 && Decimal.IsDigit(c)
    ensures TokenName(10 * m + Decimal.DigitValue(c)) == TokenName(m) + [c]
  {
    var d := Decimal.DigitValue(c);
    Decimal.AppendDigit(m, d);
    assert Decimal.Digit(d) == c;
  }

  lemma MergeShows(ps: seq<Piece>, count: nat)
    requires Merges(ps, count) && ps[0].n > 0
    ensures Written(Merged(ps, count)) == Written(ps)
  {
    hide TokenName; hide Written;
    var m, c := ps[0].n, ps[1].c;
    MergedName(m, c);
    PairWritten(m, c, 10 * m + Decimal.DigitValue(c));
    assert ps == [Tok(m)] + [Lit(c)] + ps[2..];
    WrittenConcat([Tok(m)] + [Lit(c)], ps[2..]);
    WrittenConcat([Merged(ps, count)[0]], ps[2..]);
  }

  lemma PairWritten(m: nat, c: char, n: nat)
    requires TokenName(n) == TokenName(m) + [c]
    ensures Written([Tok(n)]) == Written([Tok(m)] + [Lit(c)])
  {
    hide TokenName;
    WrittenConcat([Tok(m)], [Lit(c)]);
  }

  /** Re-reading does not change the redacted text. */
  lemma {:induction false} RereadShows(ps: seq<Piece>, count: nat)
    requires Positive(ps, count)
    ensures Written(Reread(ps, count)) == Written(ps)
    ensures Positive(Reread(ps, count), count)
    decreases |ps|
  {
    hide TokenName; hide Merged; hide Written;
    if ps != [] {
      if Merges(ps, count) {
        MergedOf(ps, count);
        FirstPositive(ps, count);
        MergeShows(ps, count);
        RereadShows(Merged(ps, count), count);
      } else {
        TailOf(ps, count);
        RereadShows(ps[1..], count);
        WrittenConcat([ps[0]], ps[1..]);
        WrittenConcat([ps[0]], Reread(ps[1..], count));
        assert ps == [ps[0]] + ps[1..];
      }
    }
  }

  lemma FirstPositive(ps: seq<Piece>, count: nat)
    requires Positive(ps, count) && ps != [] && ps[0].Tok?
    ensures 1 <= ps[0].n <= count
  {
  }

  // ---- Re-reading gives another text exactly where it merges ----

  lemma {:induction false} RereadHead(ps: seq<Piece>, count: nat) returns (n: nat, ds: string)
    requires ps != [] && ps[0].Tok? && Positive(ps, count)
    ensures Reread(ps, count) != [] && Reread(ps, count)[0] == Tok(n) && 1 <= n <= count
    ensures TokenName(n) == TokenName(ps[0].n) + ds && (Merges(ps, count) ==> ds != "")
    ensures |ds| < |ps| && ps[1..|ds| + 1] == Lits(ds)
    decreases |ps|
  {
    hide TokenName; hide Lits;
    if Merges(ps, count) {
      var m := Merged(ps, count);
      MergedOf(ps, count);
      FirstPositive(ps, count);
      var rest;
      n, rest := RereadHead(m, count);
      ds := [ps[1].c] + rest;
      OneMoreDigit(ps, count, n, rest);
    } else {
      n, ds := ps[0].n, "";
      FirstPositive(ps, count);
      assert TokenName(n) + "" == TokenName(n);
    }
  }

  lemma OneMoreDigit(ps: seq<Piece>, count: nat, n: nat, rest: string)
    requires Merges(ps, count) && ps[0].n > 0 && |rest| + 1 < |ps|
    requires var m := Merged(ps, count); TokenName(n) == TokenName(m[0].n) + rest && m[1..|rest| + 1] == Lits(rest)
    ensures var ds := [ps[1].c] + rest; TokenName(n) == TokenName(ps[0].n) + ds && ps[1..|ds| + 1] == Lits(ds)
  {
    hide TokenName;
    var m, c := Merged(ps, count), ps[1].c;
    MergedName(ps[0].n, c);
    assert TokenName(ps[0].n) + [c] + rest == TokenName(ps[0].n) + ([c] + rest);
    var ds := [c] + rest;
    forall k | 0 <= k < |ds|
      ensures ps[1..|ds| + 1][k] == Lits(ds)[k]
    {
      if k > 0 {
        assert m[1..|rest| + 1][k - 1] == m[k] == ps[k + 1];
      }
    }
  }

  /** Where the first token merges, the two texts begin with values at odds. */
  lemma HeadsDiffer(ps: seq<Piece>, vals: map<nat, string>, count: nat)
    requires Merges(ps, count) && Positive(ps, count) && Numbered(vals, count) && Apart(vals)
    ensures Original(Reread(ps, count), vals) != Original(ps, vals)
  {
    hide TokenName; hide Reread; hide Original; hide Merged;
    var n, ds := RereadHead(ps, count);
    FirstPositive(ps, count);
    var m, qs := ps[0].n, Reread(ps, count);
    assert ps[1..|ds| + 1] == Lits(ds);
    assert ps == [ps[0]] + ps[1..|ds| + 1] + ps[|ds| + 1..];
    OriginalConcat([ps[0]] + Lits(ds), ps[|ds| + 1..], vals);
    OriginalConcat([ps[0]], Lits(ds), vals);
    LitsStand(ds, vals);
    assert qs == [qs[0]] + qs[1..];
    OriginalConcat([qs[0]], qs[1..], vals);
    TokenStands(m, vals);
    TokenStands(n, vals);
    OddsDiffer(vals[m] + ds, Original(ps[|ds| + 1..], vals), vals[n], Original(qs[1..], vals));
  }

  lemma TokenStands(n: nat, vals: map<nat, string>)
    requires n in vals
    ensures Original([Tok(n)], vals) == vals[n]
  {
    assert vals[n] + "" == vals[n];
  }

  lemma OddsDiffer(s: string, x: string, t: string, y: string)
    requires AtOdds(s, t)
    ensures s + x != t + y
  {
    var n := if |s| <= |t| then |s| else |t|;
    assert s[..|s|] == s && t[..|t|] == t;
    assert s[..n] != t[..n];
    assert (s + x)[..n] == s[..n] && (t + y)[..n] == t[..n];
  }

  lemma {:induction false} RereadDiffers(ps: seq<Piece>, vals: map<nat, string>, count: nat)
    requires Positive(ps, count) && Numbered(vals, count) && Apart(vals) && !DigitsHarmless(ps, count)
    ensures Original(Reread(ps, count), vals) != Original(ps, vals)
    decreases |ps|
  {
    hide Positive; hide Apart; hide Meant;
    if Merges(ps, count) {
      HeadsDiffer(ps, vals, count);
    } else {
      assert ps != [];
      TailOf(ps, count);
      HarmlessTail(ps, count);
      RereadDiffers(ps[1..], vals, count);
      var z, x, y := Meant(ps[0], vals), Original(ps[1..], vals), Original(Reread(ps[1..], count), vals);
      assert (z + x)[|z|..] == x && (z + y)[|z|..] == y;
      assert Reread(ps, count)[1..] == Reread(ps[1..], count);
    }
  }

  lemma HarmlessTail(ps: seq<Piece>, count: nat)
    requires ps != [] && !Merges(ps, count)
    ensures DigitsHarmless(ps, count) <==> DigitsHarmless(ps[1..], count)
  {
    assert ps[0..] == ps;
    assert forall i :: 0 <= i < |ps[1..]| ==> ps[1..][i..] == ps[i + 1..];
    if DigitsHarmless(ps[1..], count) {
      forall i | 0 <= i < |ps| ensures !Merges(ps[i..], count) {
        if i > 0 {
          assert ps[i..] == ps[1..][i - 1..];
        }
      }
    }
  }

  // ---- The re-read pieces meet every condition of a safe expansion ----

  lemma {:induction false} RereadSeparated(ps: seq<Piece>, vals: map<nat, string>, count: nat, i: nat)
    requires Positive(ps, count) && Spread(ps, vals) && Numbered(vals, count)
    requires i < |Reread(ps, count)| && Reread(ps, count)[i].Tok?
    ensures Guarded(Reread(ps, count)[i].n, Original(Reread(ps, count)[i + 1..], vals), count)
    decreases |ps|
  {
    hide Spread; hide Positive; hide TokenName;
    if Merges(ps, count) {
      MergedOf(ps, count);
      SpreadMerged(ps, count, vals);
      RereadSeparated(Merged(ps, count), vals, count, i);
    } else {
      TailOf(ps, count);
      SpreadTail(ps, vals);
      var rest := Reread(ps[1..], count);
      assert ([ps[0]] + rest)[i + 1..] == rest[i..];
      if i > 0 {
        RereadSeparated(ps[1..], vals, count, i - 1);
      } else {
        NextAfterToken(ps, vals, count);
        assert rest[0..] == rest;
      }
    }
  }

  /** After a token that does not merge, no digit comes that it could take. */
  lemma NextAfterToken(ps: seq<Piece>, vals: map<nat, string>, count: nat)
    requires ps != [] && ps[0].Tok? && !Merges(ps, count) && Spread(ps, vals) && Positive(ps, count) && Numbered(vals, count)
    ensures Guarded(ps[0].n, Original(Reread(ps[1..], count), vals), count)
  {
    hide TokenName;
    var tail := ps[1..];
    assert DigitsThenBreak(tail, vals);
    if tail != [] {
      TailOf(ps, count);
      if tail[0].Tok? {
        var k, ds := RereadHead(tail, count);
        assert TokenName(tail[0].n) <= TokenName(k);
        assert Original(Reread(tail, count), vals)[0] == vals[k][0];
      } else {
        assert Original(Reread(tail, count), vals)[0] == tail[0].c;
      }
    }
  }

  predicate NoLiteralPrefix(ps: seq<Piece>) {
    forall i :: 0 <= i < |ps| ==> !LiteralPrefix(ps[i..])
  }

  predicate LiteralPrefix(ps: seq<Piece>) {
    |ps| >= 5 && forall k :: 0 <= k < 5 ==> ps[k] == Lit(PREFIX[k])
  }

  /** Literals at the front of the re-read pieces were at the front before. */
  lemma {:induction false} RereadLiterals(ps: seq<Piece>, count: nat, k: nat)
    requires k <= |Reread(ps, count)| && forall j :: 0 <= j < k ==> Reread(ps, count)[j].Lit?
    ensures k <= |ps| && ps[..k] == Reread(ps, count)[..k]
    decreases |ps|
  {
    if k > 0 {
      if Merges(ps, count) {
        RereadToken(ps, count);
      } else {
        assert forall j :: 0 <= j < k - 1 ==> Reread(ps[1..], count)[j] == Reread(ps, count)[j + 1];
        RereadLiterals(ps[1..], count, k - 1);
        assert ps[..k] == [ps[0]] + ps[1..][..k - 1];
      }
    }
  }

  lemma {:induction false} RereadToken(ps: seq<Piece>, count: nat)
    requires ps != [] && ps[0].Tok?
    ensures Reread(ps, count) != [] && Reread(ps, count)[0].Tok?
    decreases |ps|
  {
    if Merges(ps, count) {
      RereadToken(Merged(ps, count), count);
    }
  }

  lemma FrontNoPrefix(ps: seq<Piece>, count: nat)
    requires ps != [] && NoLiteralPrefix(ps)
    ensures !LiteralPrefix(Reread(ps, count))
  {
    var qs := Reread(ps, count);
    assert ps[0..] == ps;
    if |qs| >= 5 && forall j :: 0 <= j < 5 ==> qs[j].Lit? {
      RereadLiterals(ps, count, 5);
      assert forall k :: 0 <= k < 5 ==> ps[k] == ps[..5][k] == qs[..5][k] == qs[k];
    }
  }

  lemma {:induction false} RereadNoPrefix(ps: seq<Piece>, count: nat)
    requires NoLiteralPrefix(ps)
    ensures NoLiteralPrefix(Reread(ps, count))
    decreases |ps|
  {
    if ps != [] {
      if Merges(ps, count) {
        var m := Merged(ps, count);
        assert forall i :: 1 <= i < |m| ==> m[i..] == ps[i + 1..];
        RereadNoPrefix(m, count);
      } else {
        var rest := Reread(ps[1..], count);
        assert forall i :: 0 <= i < |ps[1..]| ==> ps[1..][i..] == ps[i + 1..];
        RereadNoPrefix(ps[1..], count);
        var all := [ps[0]] + rest;
        forall i | 0 <= i < |all| ensures !LiteralPrefix(all[i..]) {
          if i > 0 {
            assert all[i..] == rest[i - 1..];
          } else {
            FrontNoPrefix(ps, count);
            assert all[0..] == all;
          }
        }
      }
    }
  }

  /** With seamless values, only literals can complete the start of a token. */
  lemma {:induction false} PrefixNeedsLiterals(j: nat, ps: seq<Piece>, vals: map<nat, string>)
    requires KnownTokens(ps, vals) && (forall n :: n in vals ==> Seamless(vals[n]))
    requires 0 < j <= 5 && PREFIX[j..] <= Original(ps, vals)
    ensures 5 - j <= |ps| && forall i :: 0 <= i < 5 - j ==> ps[i] == Lit(PREFIX[j + i])
    decreases |ps|
  {
    hide Seamless;
    if j < 5 {
      assert ps != [];
      var tail := ps[1..];
      FirstIsLiteral(j, ps, vals);
      assert forall i :: 0 <= i < |tail| ==> tail[i] == ps[i + 1];
      PrefixNeedsLiterals(j + 1, tail, vals);
      assert forall i :: 1 <= i < 5 - j ==> ps[i] == tail[i - 1];
    }
  }

  lemma FirstIsLiteral(j: nat, ps: seq<Piece>, vals: map<nat, string>)
    requires ps != [] && KnownTokens(ps, vals) && (forall n :: n in vals ==> Seamless(vals[n]))
    requires 0 < j < 5 && PREFIX[j..] <= Original(ps, vals)
    ensures ps[0] == Lit(PREFIX[j]) && PREFIX[j + 1..] <= Original(ps[1..], vals)
  {
    var q, z, rest := PREFIX[j..], Meant(ps[0], vals), Original(ps[1..], vals);
    if ps[0].Tok? {
      SeamlessNot(j, z, rest);
    } else {
      PrefixSplit(z, q, rest);
      assert q[1..] == PREFIX[j + 1..];
    }
  }

  lemma SeamlessNot(j: nat, v: string, rest: string)
    requires Seamless(v) && 0 < j < 5
    ensures !(PREFIX[j..] <= v + rest)
  {
    hide NoPrefix;
    var q := PREFIX[j..];
    if |q| <= |v| {
      ShortPrefix(q, v, rest);
    } else {
      PrefixSplit(v, q, rest);
      var i :| 0 <= i < |v| && v[i] !in PREFIX;
      assert q[i] == PREFIX[j + i] && PREFIX[j + i] in PREFIX;
    }
  }

  lemma {:induction false} NoPrefixFromPieces(ps: seq<Piece>, vals: map<nat, string>)
    requires KnownTokens(ps, vals) && (forall n :: n in vals ==> Seamless(vals[n])) && NoLiteralPrefix(ps)
    ensures NoPrefix(Original(ps, vals))
    decreases |ps|
  {
    hide Seamless; hide Meant;
    if ps != [] {
      var z, rest := Meant(ps[0], vals), Original(ps[1..], vals);
      assert forall i :: 0 <= i < |ps[1..]| ==> ps[1..][i..] == ps[i + 1..] && ps[1..][i] == ps[i + 1];
      NoPrefixFromPieces(ps[1..], vals);
      forall i | 0 <= i <= |z + rest| ensures !(PREFIX <= (z + rest)[i..]) {
        if i >= |z| {
          assert (z + rest)[i..] == rest[i - |z|..];
        } else {
          assert (z + rest)[i..] == z[i..] + rest;
          NotAtHead(ps, vals, i);
        }
      }
    }
  }

  lemma NotAtHead(ps: seq<Piece>, vals: map<nat, string>, i: nat)
    requires ps != [] && KnownTokens(ps, vals) && (forall n :: n in vals ==> Seamless(vals[n])) && NoLiteralPrefix(ps)
    requires i < |Meant(ps[0], vals)|
    ensures !(PREFIX <= Meant(ps[0], vals)[i..] + Original(ps[1..], vals))
  {
    var z, rest, tail := Meant(ps[0], vals), Original(ps[1..], vals), ps[1..];
    assert ps[0..] == ps && forall k :: 0 <= k < |tail| ==> tail[k] == ps[k + 1];
    if ps[0].Tok? {
      ValueBreaks(z, rest, i);
    } else {
      hide Seamless;
      PrefixSplit(z, PREFIX, rest);
      assert z[0..] == z;
      if PREFIX[1..] <= rest {
        PrefixNeedsLiterals(1, tail, vals);
        assert ps[0] != Lit('H') ==> !(z <= PREFIX);
        assert forall k :: 1 <= k < 5 ==> ps[k] == tail[k - 1] == Lit(PREFIX[k]);
      }
    }
  }

  lemma ValueBreaks(v: string, rest: string, i: nat)
    requires Seamless(v) && i < |v|
    ensures !(PREFIX <= v[i..] + rest)
  {
    var j := |v| - i;
    if j >= 5 {
      ShortPrefix(PREFIX, v[i..], rest);
    } else {
      PrefixSplit(v[i..], PREFIX, rest);
      assert v[i..] == PREFIX[..j] <==> HasSuffix(v, PREFIX[..j]);
    }
  }

  /** Whatever the digits do, the result of expanding is the original of the re-read pieces. */
  lemma ExpandIsReread(ps: seq<Piece>, vals: map<nat, string>, count: nat,
                       mapping: map<string, string>, tokens: seq<string>)
    requires Positive(ps, count) && Spread(ps, vals) && NoLiteralPrefix(ps)
    requires Numbered(vals, count) && forall n :: n in vals ==> Seamless(vals[n])
    requires Names(mapping, vals) && LongestFirst(tokens, mapping) && "" !in mapping
    ensures ExpandWith(Written(ps), mapping, tokens) == Original(Reread(ps, count), vals)
  {
    hide Reread; hide Written; hide ExpandWith; hide TokenName; hide Seamless; hide Original; hide Guarded;
    var qs := Reread(ps, count);
    RereadShows(ps, count);
    RereadNoPrefix(ps, count);
    NoPrefixFromPieces(qs, vals);
    forall i | 0 <= i < |qs| && qs[i].Tok? ensures Guarded(qs[i].n, Original(qs[i + 1..], vals), count) {
      RereadSeparated(ps, vals, count, i);
    }
    ExpandRestores(qs, vals, count, mapping, tokens);
  }

  lemma {:induction false} RereadHarmless(ps: seq<Piece>, count: nat)
    requires DigitsHarmless(ps, count)
    ensures Reread(ps, count) == ps
    decreases |ps|
  {
    if ps != [] {
      assert ps[0..] == ps;
      HarmlessTail(ps, count);
      RereadHarmless(ps[1..], count);
    }
  }

  /**
   The exact condition: for seamless values that stay apart, the original text comes back if
   and only if no digit straight after a token spells a longer token in use.
   */
  lemma RestoredIffDigitsHarmless(ps: seq<Piece>, vals: map<nat, string>, count: nat,
                                  mapping: map<string, string>, tokens: seq<string>)
    requires Positive(ps, count) && Spread(ps, vals) && NoLiteralPrefix(ps)
    requires Numbered(vals, count) && Apart(vals) && forall n :: n in vals ==> Seamless(vals[n])
    requires Names(mapping, vals) && LongestFirst(tokens, mapping) && "" !in mapping
    ensures ExpandWith(Written(ps), mapping, tokens) == Original(ps, vals) <==> DigitsHarmless(ps, count)
  {
    hide Reread; hide Written; hide ExpandWith; hide TokenName; hide Spread; hide Seamless; hide Apart; hide Original;
    hide DigitsHarmless; hide NoLiteralPrefix;
    ExpandIsReread(ps, vals, count, mapping, tokens);
    if DigitsHarmless(ps, count) {
      RereadHarmless(ps, count);
    } else {
      RereadDiffers(ps, vals, count);
    }
  }
}
