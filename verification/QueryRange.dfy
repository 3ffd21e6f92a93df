/** Byte offsets of a range separator: found in the upper-cased copy, used to cut the original. */
module QueryRange {
  import opened Text

  /** How many bytes a character takes; the letters of the separator take one each, before and after upper-casing. */
  datatype Encoding = Encoding(width: char -> nat, upper: char -> char)
  {
    ghost predicate Sane() {
      && (forall c :: width(c) > 0)
      && (forall c :: upper(c) in " TO" ==> width(c) == 1 && width(upper(c)) == 1)
      && (forall c :: c in " TOx" ==> upper(c) == (if c == 'x' then 'X' else c) && width(c) == 1)
    }

    function Bytes(s: string): nat {
      if s == "" then 0 else width(s[0]) + Bytes(s[1..])
    }

    /** Where the separator starts in the upper-cased copy, in characters. */
    function Separator(s: string): int {
      IndexOf(Fold(upper, s), " TO ")
    }

    /** The same in bytes: the offset the original is cut at. */
    function Offset(s: string): nat
      requires 0 <= Separator(s) <= |s|
    {
      Bytes(Fold(upper, s)[..Separator(s)])
    }

    /** Both slices lie within the original. */
    predicate InBounds(s: string) {
      0 <= Separator(s) <= |s| ==> Offset(s) + 4 <= Bytes(s)
    }

    /** The first slice ends where the separator starts in the original. */
    predicate CutsRight(s: string) {
      0 <= Separator(s) <= |s| ==> Offset(s) == Bytes(s[..Separator(s)])
    }
  }

  lemma {:induction false} BytesConcat(e: Encoding, s: string, t: string)
    ensures e.Bytes(s + t) == e.Bytes(s) + e.Bytes(t)
  {
    if s == "" {
      assert s + t == t;
    } else {
      assert (s + t)[1..] == s[1..] + t;
      BytesConcat(e, s[1..], t);
    }
  }

  lemma {:induction false} NoLonger(e: Encoding, s: string)
    requires forall i :: 0 <= i < |s| ==> e.width(e.upper(s[i])) <= e.width(s[i])
    ensures e.Bytes(Fold(e.upper, s)) <= e.Bytes(s)
  {
    if s != "" {
      NoLonger(e, s[1..]);
      assert Fold(e.upper, s)[1..] == Fold(e.upper, s[1..]);
    }
  }

  lemma {:induction false} AsLong(e: Encoding, s: string)
    requires forall i :: 0 <= i < |s| ==> e.width(e.upper(s[i])) == e.width(s[i])
    ensures e.Bytes(Fold(e.upper, s)) == e.Bytes(s)
  {
    if s != "" {
      AsLong(e, s[1..]);
      assert Fold(e.upper, s)[1..] == Fold(e.upper, s[1..]);
    }
  }

  lemma OneChar(e: Encoding, c: char)
    ensures e.Bytes([c]) == e.width(c)
  {
    assert [c][1..] == "";
  }

  lemma TwoChars(e: Encoding, c: char, d: char)
    ensures e.Bytes([c, d]) == e.width(c) + e.width(d)
  {
    assert [c, d] == [c] + [d];
    BytesConcat(e, [c], [d]);
    OneChar(e, c);
    OneChar(e, d);
  }

  lemma FourBytes(e: Encoding, t: string)
    requires |t| == 4 && forall i :: 0 <= i < 4 ==> e.width(t[i]) == 1
    ensures e.Bytes(t) == 4
  {
    assert t == [t[0], t[1]] + [t[2], t[3]];
    BytesConcat(e, [t[0], t[1]], [t[2], t[3]]);
    TwoChars(e, t[0], t[1]);
    TwoChars(e, t[2], t[3]);
  }

  /** The four characters that upper-case to the separator take a byte each. */
  lemma SeparatorBytes(e: Encoding, s: string, k: nat)
    requires e.Sane() && OccursAt(" TO ", Fold(e.upper, s), k)
    ensures k + 4 <= |s| && e.Bytes(s[k..k + 4]) == 4
  {
    var up := Fold(e.upper, s);
    assert up[k..][..4] == " TO ";
    var sep := s[k..k + 4];
    forall i | 0 <= i < 4
      ensures e.width(sep[i]) == 1
    {
      assert e.upper(sep[i]) == up[k + i] == up[k..][..4][i] == " TO "[i];
    }
    FourBytes(e, sep);
  }

  /** The text around its separator, which takes four bytes in the original. */
  lemma Parts(e: Encoding, s: string)
    requires e.Sane() && 0 <= e.Separator(s)
    ensures var k := e.Separator(s);
      k + 4 <= |s| && e.Bytes(s) == e.Bytes(s[..k]) + 4 + e.Bytes(s[k + 4..]) && Fold(e.upper, s)[..k] == Fold(e.upper, s[..k])
  {
    hide Encoding.Bytes; hide OccursAt; hide Encoding.Sane;
    var k := e.Separator(s);
    SeparatorBytes(e, s, k);
    BytesConcat(e, s[..k], s[k..k + 4]);
    BytesConcat(e, s[..k] + s[k..k + 4], s[k + 4..]);
    assert s == s[..k] + s[k..k + 4] + s[k + 4..];
  }

  /** The slices of a text lie within it exactly when upper-casing adds no more bytes before the separator than follow it. */
  lemma InBoundsIff(e: Encoding, s: string)
    requires e.Sane() && 0 <= e.Separator(s)
    ensures e.Separator(s) + 4 <= |s|
    ensures e.InBounds(s) <==>
      e.Bytes(Fold(e.upper, s[..e.Separator(s)])) <= e.Bytes(s[..e.Separator(s)]) + e.Bytes(s[e.Separator(s) + 4..])
  {
    Parts(e, s);
  }

  /** Two letters and a bound of one byte. */
  function Short(c: char): string {
    [c, c] + " TO x"
  }

  lemma ShortParts(e: Encoding, c: char)
    requires e.Sane() && e.upper(c) != ' '
    ensures var s := Short(c); e.Separator(s) == 2 && s[..2] == [c, c] && s[6..] == "x"
    ensures e.Bytes([c, c]) == 2 * e.width(c) && e.Bytes("x") == 1
    ensures Fold(e.upper, [c, c]) == [e.upper(c), e.upper(c)]
    ensures e.Bytes([e.upper(c), e.upper(c)]) == 2 * e.width(e.upper(c))
  {
    hide Encoding.Bytes; hide OccursAt;
    ShortSeparator(e.upper(c));
    assert Fold(e.upper, Short(c)) == [e.upper(c), e.upper(c)] + " TO X";
    TwoChars(e, c, c);
    TwoChars(e, e.upper(c), e.upper(c));
    OneChar(e, 'x');
  }

  lemma ShortSeparator(c: char)
    requires c != ' '
    ensures IndexOf([c, c] + " TO X", " TO ") == 2
  {
    var up := [c, c] + " TO X";
    assert up[2..][..4] == " TO ";
    assert OccursAt(" TO ", up, 2);
    assert up[0..][0] == c && up[1..][0] == c;
    assert !OccursAt(" TO ", up, 0) && !OccursAt(" TO ", up, 1);
  }

  /** Every text is cut within its bounds if and only if no letter takes more bytes as a capital. */
  lemma AlwaysInBoundsIff(e: Encoding)
    requires e.Sane()
    ensures (forall s :: e.InBounds(s)) <==> forall c :: e.width(e.upper(c)) <= e.width(c)
  {
    if forall c :: e.width(e.upper(c)) <= e.width(c) {
      forall s
        ensures e.InBounds(s)
      {
        if 0 <= e.Separator(s) {
          InBoundsIff(e, s);
          NoLonger(e, s[..e.Separator(s)]);
        }
      }
    } else {
      var c :| e.width(e.upper(c)) > e.width(c);
      assert e.upper(c) != ' ';
      ShortParts(e, c);
      InBoundsIff(e, Short(c));
    }
  }

  /** ... and always where the separator is if and only if every letter takes as many bytes as its capital. */
  lemma AlwaysCutsRightIff(e: Encoding)
    requires e.Sane()
    ensures (forall s :: e.CutsRight(s)) <==> forall c :: e.width(e.upper(c)) == e.width(c)
  {
    if forall c :: e.width(e.upper(c)) == e.width(c) {
      forall s
        ensures e.CutsRight(s)
      {
        if 0 <= e.Separator(s) {
          Parts(e, s);
          AsLong(e, s[..e.Separator(s)]);
        }
      }
    } else {
      var c :| e.width(e.upper(c)) != e.width(c);
      assert e.upper(c) != ' ';
      ShortParts(e, c);
      Parts(e, Short(c));
      assert !e.CutsRight(Short(c));
    }
  }
}
