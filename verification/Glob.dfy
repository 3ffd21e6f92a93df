/**
 The star-backtracking wildcard matcher that the query language and the list
 matcher both contain, proved against a declarative meaning of `*` and `?`.
 */
module Glob {
  import opened Text

  // ---- What a pattern means ----

  /** `*` stands for any run of characters, `?` for exactly one, anything else for itself. */
  ghost predicate Denotes(p: string, s: string) {
    if p == [] then s == []
    else if p[0] == '*' then exists k :: 0 <= k <= |s| && Denotes(p[1..], s[k..])
    else s != [] && (p[0] == '?' || p[0] == s[0]) && Denotes(p[1..], s[1..])
  }

  predicate AllStars(p: string) {
    forall i :: 0 <= i < |p| ==> p[i] == '*'
  }

  // ---- The loop, as a function of its four indices ----

  /** `star` is the index of the last star taken, or -1; `mark` the text index it was last tried at. */
  predicate InRange(p: string, s: string, ip: nat, it: nat, star: int, mark: nat) {
    && ip <= |p| && mark <= it <= |s|
    && -1 <= star < ip
    && (star >= 0 ==> p[star] == '*')
  }

  function Scan(p: string, s: string, ip: nat, it: nat, star: int, mark: nat): bool
    requires InRange(p, s, ip, it, star, mark)
    decreases |p| - star, |s| - mark, |s| - it
  {
    if it == |s| then AllStars(p[ip..])
    else if ip < |p| && (p[ip] == '?' || p[ip] == s[it]) then Scan(p, s, ip + 1, it + 1, star, mark)
    else if ip < |p| && p[ip] == '*' then Scan(p, s, ip + 1, it, ip, it)
    else if star != -1 then Scan(p, s, star + 1, mark + 1, star, mark + 1)
    else false
  }

  /** The loop itself, on text and pattern folded to one case. */
  method GlobFold(lower: char -> char, pattern: string, text: string) returns (matched: bool)
    ensures matched == Scan(Fold(lower, pattern), Fold(lower, text), 0, 0, -1, 0)
    ensures matched ==> Denotes(Fold(lower, pattern), Fold(lower, text))
    ensures '*' !in Fold(lower, text) || '*' !in Fold(lower, pattern) ==> matched == Denotes(Fold(lower, pattern), Fold(lower, text))
  {
    hide Denotes; hide Fold;
    var p, s := Fold(lower, pattern), Fold(lower, text);
    var ip, it := 0, 0;
    var star, mark := -1, 0;
    Sound(p, s);
    if '*' !in s || '*' !in p {
      Complete(p, s);
    }
    while it < |s|
      invariant InRange(p, s, ip, it, star, mark)
      invariant Scan(p, s, ip, it, star, mark) == Scan(p, s, 0, 0, -1, 0)
      decreases |p| - star, |s| - mark, |s| - it
    {
      if ip < |p| && (p[ip] == '?' || p[ip] == s[it]) {
        ip, it := ip + 1, it + 1;
      } else if ip < |p| && p[ip] == '*' {
        star, mark := ip, it;
        ip := ip + 1;
      } else if star != -1 {
        ip := star + 1;
        mark := mark + 1;
        it := mark;
      } else {
        return false;
      }
    }
    ghost var rest := ip;
    while ip < |p| && p[ip] == '*'
      invariant rest <= ip <= |p|
      invariant forall i :: rest <= i < ip ==> p[i] == '*'
    {
      ip := ip + 1;
    }
    if ip < |p| {
      assert p[rest..][ip - rest] == p[ip];
    }
    return ip == |p|;
  }

  // ---- A true answer is a genuine match ----

  lemma {:induction false} DenotesConcat(p: string, q: string, s: string, t: string)
    requires Denotes(p, s) && Denotes(q, t)
    ensures Denotes(p + q, s + t)
  {
    if p == [] {
      assert p + q == q && s + t == t;
    } else {
      assert (p + q)[1..] == p[1..] + q;
      if p[0] == '*' {
        var k :| 0 <= k <= |s| && Denotes(p[1..], s[k..]);
        DenotesConcat(p[1..], q, s[k..], t);
        assert (s + t)[k..] == s[k..] + t;
      } else {
        DenotesConcat(p[1..], q, s[1..], t);
        assert (s + t)[1..] == s[1..] + t;
      }
    }
  }

  lemma StarDenotes(s: string)
    ensures Denotes("*", s)
  {
    assert s[|s|..] == [] && "*"[1..] == [];
    assert Denotes("*"[1..], s[|s|..]);
  }

  lemma OneDenotes(c: char, d: char)
    requires c == '?' || c == d
    ensures Denotes([c], [d])
  {
    assert [c][1..] == [] && [d][1..] == [];
    if c == '*' {
      StarDenotes([d]);
    }
  }

  lemma {:induction false} StarsDenoteNothing(p: string)
    ensures AllStars(p) <==> Denotes(p, [])
  {
    if p != [] {
      StarsDenoteNothing(p[1..]);
      assert p == [p[0]] + p[1..];
      assert [][0..] == "";
      if p[0] == '*' {
        assert Denotes(p, []) <==> Denotes(p[1..], []) by {
          if Denotes(p[1..], []) { assert Denotes(p[1..], ""[0..]); }
        }
      }
    }
  }

  /** What is known whenever the loop head is reached: the text read so far is matched. */
  ghost predicate Matched(p: string, s: string, ip: nat, it: nat, star: int, mark: nat)
    requires InRange(p, s, ip, it, star, mark)
  {
    && Denotes(p[..ip], s[..it])
    && (star >= 0 ==> forall m :: mark <= m <= |s| ==> Denotes(p[..star + 1], s[..m]))
  }

  lemma {:induction false} ScanSound(p: string, s: string, ip: nat, it: nat, star: int, mark: nat)
    requires InRange(p, s, ip, it, star, mark) && Matched(p, s, ip, it, star, mark)
    requires Scan(p, s, ip, it, star, mark)
    ensures Denotes(p, s)
    decreases |p| - star, |s| - mark, |s| - it
  {
    if it == |s| {
      StarsDenoteNothing(p[ip..]);
      DenotesConcat(p[..ip], p[ip..], s[..it], []);
      assert p[..ip] + p[ip..] == p && s[..it] + [] == s;
    } else if ip < |p| && (p[ip] == '?' || p[ip] == s[it]) {
      OneDenotes(p[ip], s[it]);
      DenotesConcat(p[..ip], [p[ip]], s[..it], [s[it]]);
      assert p[..ip + 1] == p[..ip] + [p[ip]] && s[..it + 1] == s[..it] + [s[it]];
      ScanSound(p, s, ip + 1, it + 1, star, mark);
    } else if ip < |p| && p[ip] == '*' {
      forall m | it <= m <= |s| ensures Denotes(p[..ip + 1], s[..m]) {
        StarDenotes(s[it..m]);
        DenotesConcat(p[..ip], "*", s[..it], s[it..m]);
        assert p[..ip + 1] == p[..ip] + "*" && s[..m] == s[..it] + s[it..m];
      }
      ScanSound(p, s, ip + 1, it, ip, it);
    } else {
      ScanSound(p, s, star + 1, mark + 1, star, mark + 1);
    }
  }

  lemma Sound(p: string, s: string)
    ensures Scan(p, s, 0, 0, -1, 0) ==> Denotes(p, s)
  {
    if Scan(p, s, 0, 0, -1, 0) {
      ScanSound(p, s, 0, 0, -1, 0);
    }
  }

  // ---- On text without a star no match is missed ----

  predicate Fits(q: string, s: string) {
    |q| <= |s| && forall i :: 0 <= i < |q| ==> q[i] == '?' || q[i] == s[i]
  }

  /** A star-free stretch of the pattern matches character by character. */
  lemma {:induction false} PlainPrefix(q: string, r: string, s: string)
    requires '*' !in q
    ensures Denotes(q + r, s) <==> Fits(q, s) && Denotes(r, s[|q|..])
  {
    if q == [] {
      assert q + r == r && s[0..] == s;
    } else {
      assert (q + r)[1..] == q[1..] + r;
      if s != [] {
        PlainPrefix(q[1..], r, s[1..]);
        assert |q| <= |s| ==> s[1..][|q| - 1..] == s[|q|..];
        assert Fits(q, s) <==> (q[0] == '?' || q[0] == s[0]) && Fits(q[1..], s[1..]) by {
          if Fits(q[1..], s[1..]) && (q[0] == '?' || q[0] == s[0]) {
            forall i | 0 <= i < |q| ensures q[i] == '?' || q[i] == s[i] {
              if i > 0 { assert q[1..][i - 1] == q[i] && s[1..][i - 1] == s[i]; }
            }
          }
        }
      }
    }
  }

  ghost predicate MatchFrom(p: string, s: string, m: nat) {
    exists k :: m <= k <= |s| && Denotes(p, s[k..])
  }

  /** Between the last star and the current index the pattern has no star and fits the text from `mark`. */
  ghost predicate Segment(p: string, s: string, ip: nat, it: nat, star: int, mark: nat)
    requires InRange(p, s, ip, it, star, mark)
  {
    && '*' !in p[star + 1..ip]
    && it - mark == ip - (star + 1)
    && Fits(p[star + 1..ip], s[mark..it])
  }

  /** Any match of the whole has a match that keeps the last star and starts it no earlier than `mark`. */
  ghost predicate Reachable(p: string, s: string, star: int, mark: nat)
    requires -1 <= star < |p| && mark <= |s|
  {
    if star == -1 then mark == 0 && Denotes(p, s) else MatchFrom(p[star + 1..], s, mark)
  }

  /** From a reachable match, the pattern after the segment matches at or after the current text index. */
  lemma PastSegment(p: string, s: string, ip: nat, it: nat, star: int, mark: nat)
    requires InRange(p, s, ip, it, star, mark) && star < |p|
    requires Segment(p, s, ip, it, star, mark) && Reachable(p, s, star, mark)
    ensures MatchFrom(p[ip..], s, it)
    ensures star == -1 ==> Denotes(p[ip..], s[it..])
  {
    hide Denotes;
    var q := p[star + 1..ip];
    assert p[star + 1..] == q + p[ip..];
    var k := if star == -1 then 0 else var k :| mark <= k <= |s| && Denotes(p[star + 1..], s[k..]); k;
    assert star == -1 ==> p[star + 1..] == p && s[k..] == s;
    PlainPrefix(q, p[ip..], s[k..]);
    assert s[k..][|q|..] == s[k + |q|..];
  }

  lemma HeadMismatch(p: string, s: string)
    requires s != [] && (p != [] ==> p[0] != '?' && p[0] != s[0] && p[0] != '*')
    ensures !Denotes(p, s)
  {
  }

  /** A mismatch rules out the current start of the last star. */
  lemma MarkFails(p: string, s: string, ip: nat, it: nat, star: int, mark: nat)
    requires InRange(p, s, ip, it, star, mark) && Segment(p, s, ip, it, star, mark)
    requires it < |s|
    requires ip < |p| ==> p[ip] != '?' && p[ip] != s[it] && p[ip] != '*'
    ensures !Denotes(p[star + 1..], s[mark..])
  {
    hide Denotes;
    var q := p[star + 1..ip];
    assert p[star + 1..] == q + p[ip..];
    PlainPrefix(q, p[ip..], s[mark..]);
    assert s[mark..][|q|..] == s[it..];
    HeadMismatch(p[ip..], s[it..]);
  }

  lemma EndsInStars(p: string, s: string, ip: nat, star: int)
    requires ip <= |p| && MatchFrom(p[ip..], s, |s|)
    ensures AllStars(p[ip..])
  {
    hide Denotes;
    assert s[|s|..] == [];
    StarsDenoteNothing(p[ip..]);
  }

  /** When the current start is ruled out there is a star to fall back on, and a later start that works. */
  lemma MarkMoves(p: string, s: string, star: int, mark: nat)
    requires -1 <= star < |p| && mark <= |s| && Reachable(p, s, star, mark)
    requires !Denotes(p[star + 1..], s[mark..])
    ensures star != -1 && mark < |s| && Reachable(p, s, star, mark + 1)
  {
    hide Denotes;
    assert p[0..] == p && s[0..] == s;
    var k :| mark <= k <= |s| && Denotes(p[star + 1..], s[k..]);
    assert k != mark;
  }

  lemma {:induction false} ScanComplete(p: string, s: string, ip: nat, it: nat, star: int, mark: nat)
    requires InRange(p, s, ip, it, star, mark) && star < |p|
    requires ('*' !in s || '*' !in p) && Segment(p, s, ip, it, star, mark) && Reachable(p, s, star, mark)
    ensures Scan(p, s, ip, it, star, mark)
    decreases |p| - star, |s| - mark, |s| - it
  {
    hide Denotes;
    PastSegment(p, s, ip, it, star, mark);
    if it == |s| {
      EndsInStars(p, s, ip, star);
    } else if ip < |p| && (p[ip] == '?' || p[ip] == s[it]) {
      assert p[star + 1..ip + 1] == p[star + 1..ip] + [p[ip]];
      assert s[mark..it + 1] == s[mark..it] + [s[it]];
      ScanComplete(p, s, ip + 1, it + 1, star, mark);
    } else if ip < |p| && p[ip] == '*' {
      StarTaken(p, s, ip, it);
      ScanComplete(p, s, ip + 1, it, ip, it);
    } else {
      MarkFails(p, s, ip, it, star, mark);
      MarkMoves(p, s, star, mark);
      ScanComplete(p, s, star + 1, mark + 1, star, mark + 1);
    }
  }

  lemma StarTaken(p: string, s: string, ip: nat, it: nat)
    requires ip < |p| && p[ip] == '*' && it <= |s| && MatchFrom(p[ip..], s, it)
    ensures MatchFrom(p[ip + 1..], s, it)
  {
    var k :| it <= k <= |s| && Denotes(p[ip..], s[k..]);
    var j :| 0 <= j <= |s[k..]| && Denotes(p[ip..][1..], s[k..][j..]);
    assert p[ip..][1..] == p[ip + 1..] && s[k..][j..] == s[k + j..];
  }

  lemma Complete(p: string, s: string)
    requires '*' !in s || '*' !in p
    ensures Denotes(p, s) ==> Scan(p, s, 0, 0, -1, 0)
  {
    if Denotes(p, s) {
      if p == [] {
        assert s == [] && p[0..] == [];
      } else {
        ScanComplete(p, s, 0, 0, -1, 0);
      }
    }
  }

  // ---- Exactly which candidates are always answered correctly ----

  function Copies(c: char, n: nat): (r: string)
    ensures |r| == n && forall i :: 0 <= i < n ==> r[i] == c
  {
    seq(n, _ => c)
  }

  /** The text up to its first star, that star, then one `?` more than there is text left. */
  function Missed(s: string, k: nat): string
    requires k < |s| && s[k] == '*'
  {
    s[..k + 1] + Copies('?', |s| - k)
  }

  lemma {:induction false} ScanLiteral(s: string, k: nat, it: nat)
    requires k < |s| && s[k] == '*' && it <= |s|
    ensures InRange(Missed(s, k), s, it, it, -1, 0)
    ensures !Scan(Missed(s, k), s, it, it, -1, 0)
    decreases |s| - it
  {
    if it == |s| {
      assert Missed(s, k)[it..][0] == '?';
    } else {
      ScanLiteral(s, k, it + 1);
    }
  }

  lemma MissedDenotes(s: string, k: nat)
    requires k < |s| && s[k] == '*' && '*' !in s[..k]
    ensures Denotes(Missed(s, k), s)
  {
    hide Denotes; hide Copies;
    var r := Copies('?', |s| - k);
    CopiesDenote(s[k..]);
    StarMatchesNothing(r, s[k..]);
    PlainPrefix(s[..k], "*" + r, s);
    assert Missed(s, k) == s[..k] + ("*" + r) by {
      assert s[..k + 1] == s[..k] + "*";
    }
  }

  lemma StarMatchesNothing(r: string, t: string)
    requires Denotes(r, t)
    ensures Denotes("*" + r, t)
  {
    assert ("*" + r)[1..] == r && t[0..] == t;
  }

  lemma CopiesDenote(t: string)
    ensures Denotes(Copies('?', |t|), t)
  {
    var q := Copies('?', |t|);
    PlainPrefix(q, [], t);
    assert q + [] == q && t[|t|..] == [];
  }

  /**
   The loop agrees with the meaning of every pattern on exactly those texts that
   hold no literal star: it tests equality before it tests for a wildcard, so a
   star in the text can use up a star in the pattern.
   */
  lemma ExactIffNoStar(s: string)
    ensures '*' !in s <==> forall p :: Scan(p, s, 0, 0, -1, 0) == Denotes(p, s)
  {
    if '*' in s {
      var k := FirstStar(s);
      MissedDenotes(s, k);
      ScanLiteral(s, k, 0);
    } else {
      forall p ensures Scan(p, s, 0, 0, -1, 0) == Denotes(p, s) {
        Sound(p, s);
        Complete(p, s);
      }
    }
  }

  lemma {:induction false} FirstStar(s: string) returns (k: nat)
    requires '*' in s
    ensures k < |s| && s[k] == '*' && '*' !in s[..k]
  {
    if s[0] == '*' {
      k := 0;
    } else {
      var j := FirstStar(s[1..]);
      k := j + 1;
      assert s[..k] == [s[0]] + s[1..][..j];
    }
  }

  // ---- Exactly which patterns are always answered correctly ----

  /** A pattern matches its own text. */
  lemma {:induction false} DenotesItself(p: string)
    ensures Denotes(p, p)
  {
    if p != [] {
      DenotesItself(p[1..]);
    }
  }

  /** A text that continues the pattern's own characters uses them all up one by one, stars included. */
  lemma {:induction false} ScanUsesUp(p: string, s: string, i: nat)
    requires p <= s && |p| < |s| && i <= |p|
    ensures !Scan(p, s, i, i, -1, 0)
    decreases |p| - i
  {
    if i < |p| {
      assert p[i] == s[i];
      ScanUsesUp(p, s, i + 1);
    }
  }

  /** The pattern's own text and, once more, what follows its first star. */
  function Repeated(p: string, k: nat): string
    requires k < |p|
  {
    p + if k + 1 == |p| then "x" else p[k + 1..]
  }

  lemma RepeatedDenotes(p: string, k: nat)
    requires k < |p| && p[k] == '*' && '*' !in p[..k]
    ensures Denotes(p, Repeated(p, k))
  {
    hide Denotes;
    var q, r := p[..k], p[k + 1..];
    var gap := if r == [] then "*x" else "*" + r;
    DenotesItself(q);
    DenotesItself(r);
    StarDenotes(gap);
    DenotesConcat("*", r, gap, r);
    DenotesConcat(q, "*" + r, q, gap + r);
    RepeatedIs(p, k);
  }

  lemma RepeatedIs(p: string, k: nat)
    requires k < |p| && p[k] == '*'
    ensures var r := p[k + 1..];
      && p == p[..k] + ("*" + r)
      && Repeated(p, k) == p[..k] + ((if r == [] then "*x" else "*" + r) + r)
  {
    assert p == p[..k] + "*" + p[k + 1..];
  }

  /** The loop agrees with the meaning of a pattern on every text if and only if the pattern has no star. */
  lemma ExactIffStarless(p: string)
    ensures '*' !in p <==> forall s :: Scan(p, s, 0, 0, -1, 0) == Denotes(p, s)
  {
    if '*' in p {
      var k := FirstStar(p);
      RepeatedDenotes(p, k);
      ScanUsesUp(p, Repeated(p, k), 0);
    } else {
      forall s
        ensures Scan(p, s, 0, 0, -1, 0) == Denotes(p, s)
      {
        Sound(p, s);
        Complete(p, s);
      }
    }
  }

  // ---- Unanchored search with implicit stars at both ends ----

  predicate HasWildcard(pattern: string) {
    '*' in pattern || '?' in pattern
  }

  method StringPatternMatch(lower: char -> char, text: string, pattern: string) returns (matched: bool)
    requires KeepsWildcards(lower)
    ensures matched ==> MatchesWithin(Fold(lower, pattern), Fold(lower, text))
    ensures '*' !in text || !HasWildcard(pattern) ==> matched == MatchesWithin(Fold(lower, pattern), Fold(lower, text))
  {
    ghost var q, t := Fold(lower, pattern), Fold(lower, text);
    FoldKeepsWildcards(lower, pattern);
    FoldKeepsWildcards(lower, text);
    if HasWildcard(pattern) {
      WithinIsStarred(q, t);
      assert Fold(lower, "*" + pattern + "*") == "*" + q + "*";
      matched := GlobFold(lower, "*" + pattern + "*", text);
    } else {
      WithinIsSubstring(q, t);
      matched := IndexOf(Fold(lower, text), Fold(lower, pattern)) >= 0;
    }
  }

  /** Folding case neither creates nor removes a wildcard character. */
  ghost predicate KeepsWildcards(lower: char -> char) {
    forall c :: (lower(c) == '*' <==> c == '*') && (lower(c) == '?' <==> c == '?')
  }

  /** Some stretch of the text is matched by the pattern. */
  ghost predicate MatchesWithin(q: string, t: string) {
    exists i, j :: 0 <= i <= j <= |t| && Denotes(q, t[i..j])
  }

  lemma FoldKeepsWildcards(lower: char -> char, s: string)
    requires KeepsWildcards(lower)
    ensures '*' in Fold(lower, s) <==> '*' in s
    ensures '?' in Fold(lower, s) <==> '?' in s
  {
    forall c | c == '*' || c == '?' ensures c in Fold(lower, s) <==> c in s {
      if c in s {
        var i :| 0 <= i < |s| && s[i] == c;
        assert Fold(lower, s)[i] == c;
      }
    }
  }

  lemma TrailingStar(q: string, t: string)
    ensures Denotes(q + "*", t) <==> exists j :: 0 <= j <= |t| && Denotes(q, t[..j])
  {
    hide Denotes;
    if exists j :: 0 <= j <= |t| && Denotes(q, t[..j]) {
      var j :| 0 <= j <= |t| && Denotes(q, t[..j]);
      StarDenotes(t[j..]);
      DenotesConcat(q, "*", t[..j], t[j..]);
      assert t[..j] + t[j..] == t;
    }
    if Denotes(q + "*", t) {
      var j := BeforeTrailingStar(q, t);
    }
  }

  lemma {:induction false} BeforeTrailingStar(q: string, t: string) returns (j: nat)
    requires Denotes(q + "*", t)
    ensures j <= |t| && Denotes(q, t[..j])
    decreases |q|
  {
    if q == [] {
      j := 0;
    } else {
      hide Denotes;
      var k := FirstTakes(q, t);
      j := BeforeTrailingStar(q[1..], t[k..]);
      assert t[k..][..j] == t[..k + j][k..];
      j := k + j;
    }
  }

  /** What the first pattern character takes of the text, whatever comes after it. */
  lemma FirstTakes(q: string, t: string) returns (k: nat)
    requires q != [] && Denotes(q + "*", t)
    ensures k <= |t| && Denotes(q[1..] + "*", t[k..])
    ensures forall j :: k <= j <= |t| && Denotes(q[1..], t[..j][k..]) ==> Denotes(q, t[..j])
  {
    assert (q + "*")[1..] == q[1..] + "*";
    if q[0] == '*' {
      k :| 0 <= k <= |t| && Denotes(q[1..] + "*", t[k..]);
    } else {
      k := 1;
    }
  }

  lemma WithinIsStarred(q: string, t: string)
    ensures MatchesWithin(q, t) <==> Denotes("*" + q + "*", t)
  {
    var p := "*" + q + "*";
    assert p[1..] == q + "*";
    if MatchesWithin(q, t) {
      var i, j :| 0 <= i <= j <= |t| && Denotes(q, t[i..j]);
      assert t[i..j] == t[i..][..j - i];
      TrailingStar(q, t[i..]);
    }
    if Denotes(p, t) {
      var i :| 0 <= i <= |t| && Denotes(q + "*", t[i..]);
      TrailingStar(q, t[i..]);
      var j :| 0 <= j <= |t[i..]| && Denotes(q, t[i..][..j]);
      assert t[i..][..j] == t[i..i + j];
    }
  }

  lemma WithinIsSubstring(q: string, t: string)
    requires !HasWildcard(q)
    ensures MatchesWithin(q, t) <==> Occurs(q, t)
  {
    if MatchesWithin(q, t) {
      var i, j :| 0 <= i <= j <= |t| && Denotes(q, t[i..j]);
      PlainPrefix(q, [], t[i..j]);
      assert q + [] == q;
      assert OccursAt(q, t, i);
    }
    if Occurs(q, t) {
      var k :| OccursAt(q, t, k);
      assert q == t[k..k + |q|];
      PlainPrefix(q, [], q);
      assert q + [] == q;
    }
  }
}
