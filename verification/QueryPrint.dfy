/** Printing a query with as few parentheses as possible, and reading it back. */
module QueryPrint {
  import opened Text
  import opened QueryTerm
  import opened QueryLexer
  import opened QueryParser
  import opened QueryGrammar

  type Wording = Term -> string

  // ---- Minimal parentheses ----

  function Rank(n: Node, level: nat): nat
    requires level < 3
  {
    (level + match n case OrNode(_, _) => 0 case AndNode(_, _) => 1 case _ => 2) % 3
  }

  /**
   Only an OR under an AND, an OR or AND under a NOT, and a right operand of its own kind are
   grouped. `w` says how each term is written.
   */
  function MinE(n: Node, w: Wording): Expr
    decreases n, Rank(n, 0)
  {
    match n
    case OrNode(l, r) => OrMore(MinE(l, w), MinC(r, w))
    case _ => OneConj(MinC(n, w))
  }

  function MinC(n: Node, w: Wording): Conj
    decreases n, Rank(n, 2)
  {
    match n
    case AndNode(l, r) => AndMore(MinC(l, w), MinU(r, w))
    case _ => OneUnary(MinU(n, w))
  }

  function MinU(n: Node, w: Wording): Unary
    decreases n, Rank(n, 1)
  {
    match n
    case NotNode(x) => Negated(MinU(x, w))
    case Leaf(t) => Word(w(t))
    case MatchAll => Word("")
    case _ => Group(MinE(n, w))
  }

  function Print(n: Node, w: Wording): seq<Token> {
    YieldE(MinE(n, w))
  }

  // ---- Printed tokens parse back ----

  /** The wording of every leaf stands for that leaf. */
  predicate Readable(loc: Locale, n: Node, w: Wording) {
    match n
    case MatchAll => false
    case AndNode(l, r) => Readable(loc, l, w) && Readable(loc, r, w)
    case OrNode(l, r) => Readable(loc, l, w) && Readable(loc, r, w)
    case NotNode(x) => Readable(loc, x, w)
    case Leaf(t) => TermOf(loc, w(t)) == Ok(t)
  }

  lemma {:induction false} MinimalTree(loc: Locale, n: Node, w: Wording)
    requires Readable(loc, n, w)
    ensures GoodE(loc, MinE(n, w)) && AstE(loc, MinE(n, w)) == n
    ensures GoodC(loc, MinC(n, w)) && AstC(loc, MinC(n, w)) == n
    ensures GoodU(loc, MinU(n, w)) && AstU(loc, MinU(n, w)) == n
  {
    hide TermOf;
    match n
    case AndNode(l, r) =>
      MinimalTree(loc, l, w);
      MinimalTree(loc, r, w);
    case OrNode(l, r) =>
      MinimalTree(loc, l, w);
      MinimalTree(loc, r, w);
    case NotNode(x) =>
      MinimalTree(loc, x, w);
      LiftUnary(loc, n, w);
    case Leaf(t) =>
      LiftUnary(loc, n, w);
  }

  lemma LiftUnary(loc: Locale, n: Node, w: Wording)
    requires n.NotNode? || n.Leaf?
    requires GoodU(loc, MinU(n, w)) && AstU(loc, MinU(n, w)) == n
    ensures GoodC(loc, MinC(n, w)) && AstC(loc, MinC(n, w)) == n
    ensures GoodE(loc, MinE(n, w)) && AstE(loc, MinE(n, w)) == n
  {
    hide GoodU; hide AstU; hide MinU;
    assert MinC(n, w) == OneUnary(MinU(n, w)) && MinE(n, w) == OneConj(MinC(n, w));
    assert GoodC(loc, MinC(n, w));
  }

  /** Printing any tree and parsing the tokens gives the same tree. */
  lemma PrintParses(loc: Locale, n: Node, w: Wording)
    requires Readable(loc, n, w)
    ensures ParseTokens(loc, Print(n, w)) == Ok(n)
  {
    MinimalTree(loc, n, w);
    DerivedParses(loc, MinE(n, w));
  }

  /** No sentence that parses to the same tree is shorter than the printed one. */
  lemma {:induction false} MinimalE(loc: Locale, e: Expr, w: Wording)
    requires GoodE(loc, e)
    ensures |YieldE(MinE(AstE(loc, e), w))| <= |YieldE(e)|
    decreases e
  {
    hide TermOf; hide GoodC; hide AstC; hide YieldC;
    match e
    case OneConj(c) =>
      MinimalC(loc, c, w);
      LevelsNest(AstC(loc, c), w);
    case OrMore(init, last) =>
      MinimalE(loc, init, w);
      MinimalC(loc, last, w);
  }

  lemma {:induction false} MinimalC(loc: Locale, c: Conj, w: Wording)
    requires GoodC(loc, c)
    ensures |YieldC(MinC(AstC(loc, c), w))| <= |YieldC(c)|
    decreases c
  {
    hide TermOf; hide GoodU; hide AstU; hide YieldU;
    match c
    case OneUnary(u) =>
      MinimalU(loc, u, w);
      LevelsNest(AstU(loc, u), w);
    case AndMore(init, last) =>
      MinimalC(loc, init, w);
      MinimalU(loc, last, w);
  }

  lemma {:induction false} MinimalU(loc: Locale, u: Unary, w: Wording)
    requires GoodU(loc, u)
    ensures |YieldU(MinU(AstU(loc, u), w))| <= |YieldU(u)|
    decreases u
  {
    hide TermOf; hide GoodE; hide AstE;
    match u
    case Negated(x) => MinimalU(loc, x, w);
    case Group(e) =>
      MinimalE(loc, e, w);
      LevelsNest(AstE(loc, e), w);
    case Word(text) =>
  }

  /** A tree needs at most one more pair of parentheses at a tighter level, and none at a looser one. */
  lemma LevelsNest(n: Node, w: Wording)
    ensures |YieldE(MinE(n, w))| <= |YieldC(MinC(n, w))| <= |YieldE(MinE(n, w))| + 2
    ensures |YieldC(MinC(n, w))| <= |YieldU(MinU(n, w))| <= |YieldE(MinE(n, w))| + 2
  {
    assert YieldU(Group(MinE(n, w))) == [LParen] + (YieldE(MinE(n, w)) + [RParen]);
  }

  // ---- Printed text lexes back ----

  /** Terms whose written form survives the lexer. */
  ghost predicate Lexable(loc: Locale, t: Term, quoted: bool) {
    match t.op
    case Range => ']' !in t.lo && ']' !in t.hi
    case NoOp =>
      if t.phrase then '"' !in t.value
      else TermText(t.value) && (t.field == "" ==> Fold(loc.upper, t.value) !in OPERATORS)
    case _ => if quoted then '"' !in t.value else TermText(t.value)
  }

  lemma {:induction false} PiecesConcat(ps: seq<Piece>, qs: seq<Piece>)
    ensures ShowPieces(ps + qs) == ShowPieces(ps) + ShowPieces(qs)
  {
    if ps == [] {
      assert ps + qs == qs;
    } else {
      assert (ps + qs)[1..] == ps[1..] + qs;
      PiecesConcat(ps[1..], qs);
    }
  }

  lemma SpellsConcat(ps: seq<Piece>, s: string, qs: seq<Piece>, t: string)
    requires Spells(ps, s) && Spells(qs, t)
    ensures Spells(ps + qs, s + t)
  {
    PiecesConcat(ps, qs);
  }

  /** Characters without a meaning to the lexer spell themselves. */
  lemma {:induction false} PlainSpells(s: string) returns (ps: seq<Piece>)
    requires forall i :: 0 <= i < |s| ==> Proper(Plain(s[i]))
    ensures Spells(ps, s)
  {
    if s == "" {
      ps := [];
    } else {
      var qs := PlainSpells(s[1..]);
      ps := [Plain(s[0])] + qs;
      assert ps[1..] == qs && s == [s[0]] + s[1..];
    }
  }

  lemma OneSpells(p: Piece)
    requires Proper(p)
    ensures Spells([p], ShowPiece(p))
  {
    assert [p][1..] == [];
    assert ShowPiece(p) + "" == ShowPiece(p);
  }

  lemma BodySpells(loc: Locale, t: Term, quoted: bool) returns (ps: seq<Piece>)
    requires Lexable(loc, t, quoted)
    ensures Spells(ps, Body(t, quoted)) && Body(t, quoted) != ""
  {
    match t.op
    case Range =>
      OneSpells(Ranged(t.lo + " TO " + t.hi));
      ps := [Ranged(t.lo + " TO " + t.hi)];
      assert ShowPiece(ps[0]) == Body(t, quoted);
    case NoOp =>
      if t.phrase {
        OneSpells(Quoted(t.value));
        ps := [Quoted(t.value)];
      } else {
        ps :| Spells(ps, t.value);
      }
    case _ =>
      var qs := PlainSpells(Symbol(t.op));
      var vs: seq<Piece> := [Quoted(t.value)];
      if quoted {
        OneSpells(Quoted(t.value));
      } else {
        vs :| Spells(vs, t.value);
      }
      SpellsConcat(qs, Symbol(t.op), vs, if quoted then Quote(t.value) else t.value);
      ps := qs + vs;
  }

  lemma ShowIsTermText(loc: Locale, t: Term, quoted: bool)
    requires Lexable(loc, t, quoted) && (t.field == "" || Identifier(t.field))
    ensures TermText(Show(t, quoted))
  {
    hide Lexable; hide Body;
    var ps := BodySpells(loc, t, quoted);
    if t.field != "" {
      var prefix := t.field + ":";
      assert forall i :: 0 <= i < |t.field| ==> IdentChar(t.field[i]) && prefix[i] == t.field[i];
      var qs := PlainSpells(prefix);
      SpellsConcat(qs, prefix, ps, Body(t, quoted));
    }
    assert Show(t, quoted) != "";
  }

  /** A text that holds a mark is not an operator word. */
  lemma MarkedNotOperator(loc: Locale, text: string, i: nat)
    requires loc.Sane() && i < |text| && Mark(text[i])
    ensures Fold(loc.upper, text) !in OPERATORS
  {
    assert Fold(loc.upper, text)[i] == text[i];
  }

  lemma ShowSpells(loc: Locale, t: Term, quoted: bool)
    requires loc.Sane() && Lexable(loc, t, quoted) && (t.field == "" || t.field in loc.fields)
    ensures SpellingOf(loc.upper, Show(t, quoted), TermTok(Show(t, quoted)))
  {
    ShowIsTermText(loc, t, quoted);
    var text := Show(t, quoted);
    if t.field != "" {
      assert text[|t.field|] == ':';
      MarkedNotOperator(loc, text, |t.field|);
    } else if t.op != NoOp || t.phrase {
      assert Mark(text[0]);
      MarkedNotOperator(loc, text, 0);
    }
  }

  function Spelling(tok: Token): string {
    match tok
    case TermTok(text) => text
    case AndTok => "AND"
    case OrTok => "OR"
    case NotTok => "NOT"
    case LParen => "("
    case RParen => ")"
  }

  /** Tokens separated by single spaces. */
  function Spaced(ts: seq<Token>): (ls: seq<Laid>)
    ensures Tokens(ls) == ts
  {
    seq(|ts|, i requires 0 <= i < |ts| => Laid(if i == 0 then "" else " ", Spelling(ts[i]), ts[i]))
  }

  function ShowQuery(n: Node, w: Wording): string {
    ShowLaid(Spaced(Print(n, w)), "")
  }

  ghost predicate Spellable(loc: Locale, ts: seq<Token>) {
    forall i :: 0 <= i < |ts| ==> SpellingOf(loc.upper, Spelling(ts[i]), ts[i])
  }

  /** The wording of every leaf survives the lexer. */
  ghost predicate Spelled(loc: Locale, n: Node, w: Wording) {
    match n
    case MatchAll => false
    case AndNode(l, r) => Spelled(loc, l, w) && Spelled(loc, r, w)
    case OrNode(l, r) => Spelled(loc, l, w) && Spelled(loc, r, w)
    case NotNode(x) => Spelled(loc, x, w)
    case Leaf(t) => SpellingOf(loc.upper, w(t), TermTok(w(t)))
  }

  lemma OperatorsSpellable(loc: Locale, tok: Token)
    requires loc.Sane() && !tok.TermTok?
    ensures SpellingOf(loc.upper, Spelling(tok), tok)
  {
    var s := Spelling(tok);
    if !Paren(tok) {
      var ps := PlainSpells(s);
      assert Fold(loc.upper, s) == s;
    }
  }

  lemma {:induction false} TokensSpellable(loc: Locale, n: Node, w: Wording)
    requires loc.Sane() && Spelled(loc, n, w)
    ensures Spellable(loc, YieldE(MinE(n, w)))
    ensures Spellable(loc, YieldC(MinC(n, w)))
    ensures Spellable(loc, YieldU(MinU(n, w)))
  {
    hide SpellingOf; hide Locale.Sane;
    forall tok: Token | !tok.TermTok? ensures SpellingOf(loc.upper, Spelling(tok), tok) {
      OperatorsSpellable(loc, tok);
    }
    match n
    case AndNode(l, r) =>
      TokensSpellable(loc, l, w);
      TokensSpellable(loc, r, w);
    case OrNode(l, r) =>
      TokensSpellable(loc, l, w);
      TokensSpellable(loc, r, w);
    case NotNode(x) =>
      TokensSpellable(loc, x, w);
      assert YieldU(MinU(n, w)) == [NotTok] + YieldU(MinU(x, w));
      assert YieldC(MinC(n, w)) == YieldU(MinU(n, w)) == YieldE(MinE(n, w));
    case Leaf(t) =>
      assert YieldC(MinC(n, w)) == YieldU(MinU(n, w)) == YieldE(MinE(n, w));
  }

  lemma SpacedLaidOut(loc: Locale, ts: seq<Token>)
    requires Spellable(loc, ts)
    ensures LaidOut(loc.upper, Spaced(ts))
  {
    hide SpellingOf;
  }

  /** Any layout of the printed tokens, whatever its white space, reads back as the query. */
  lemma AnyLayoutReadsBack(loc: Locale, n: Node, w: Wording, ls: seq<Laid>, tail: string)
    requires Readable(loc, n, w)
    requires LaidOut(loc.upper, ls) && AllBlank(tail) && Tokens(ls) == Print(n, w)
    ensures QueryOf(loc, ShowLaid(ls, tail)) == Ok(n)
  {
    hide LexFrom; hide ParseTokens; hide LaidOut;
    LayoutReadsBack(loc.upper, ls, tail, 0);
    PrintParses(loc, n, w);
  }

  /** Writing a query out in any wording that reads and parsing the text gives the same query. */
  lemma WordedRoundTrip(loc: Locale, n: Node, w: Wording)
    requires loc.Sane() && Readable(loc, n, w) && Spelled(loc, n, w)
    ensures QueryOf(loc, ShowQuery(n, w)) == Ok(n)
  {
    hide QueryOf; hide ShowLaid; hide LaidOut;
    TokensSpellable(loc, n, w);
    SpacedLaidOut(loc, Print(n, w));
    AnyLayoutReadsBack(loc, n, w, Spaced(Print(n, w)), "");
  }

  // ---- Terms written from their parts ----

  /** The standard wording; `q` says which terms have the value they compare with in quotes. */
  function Shown(q: Term -> bool): Wording {
    t => Show(t, q(t))
  }

  /** Every leaf can be written from its parts so that both the lexer and the term parser read it back. */
  ghost predicate Presentable(loc: Locale, n: Node, q: Term -> bool) {
    match n
    case MatchAll => false
    case AndNode(l, r) => Presentable(loc, l, q) && Presentable(loc, r, q)
    case OrNode(l, r) => Presentable(loc, l, q) && Presentable(loc, r, q)
    case NotNode(x) => Presentable(loc, x, q)
    case Leaf(t) => Writable(loc, t, q(t)) && Lexable(loc, t, q(t))
  }

  lemma {:induction false} PresentableReads(loc: Locale, n: Node, q: Term -> bool)
    requires loc.Sane() && Presentable(loc, n, q)
    ensures Readable(loc, n, Shown(q)) && Spelled(loc, n, Shown(q))
  {
    hide Writable; hide Lexable; hide TermOf; hide SpellingOf; hide Show; hide Locale.Sane;
    match n
    case AndNode(l, r) => PresentableReads(loc, l, q); PresentableReads(loc, r, q);
    case OrNode(l, r) => PresentableReads(loc, l, q); PresentableReads(loc, r, q);
    case NotNode(x) => PresentableReads(loc, x, q);
    case Leaf(t) =>
      TermRoundTrip(loc, t, q(t));
      WritableField(loc, t, q(t));
      ShowSpells(loc, t, q(t));
  }

  lemma WritableField(loc: Locale, t: Term, quoted: bool)
    requires Writable(loc, t, quoted)
    ensures t.field == "" || t.field in loc.fields
  {
  }

  /** Text round trip: writing a query out from the parts of its terms and parsing the text gives the same query. */
  lemma QueryRoundTrip(loc: Locale, n: Node, q: Term -> bool)
    requires loc.Sane() && Presentable(loc, n, q)
    ensures QueryOf(loc, ShowQuery(n, Shown(q))) == Ok(n)
  {
    hide QueryOf; hide ShowQuery;
    PresentableReads(loc, n, q);
    WordedRoundTrip(loc, n, Shown(q));
  }

  // ---- Every accepted query can be printed ----

  ghost predicate WordFor(loc: Locale, t: Term, s: string) {
    TermOf(loc, s) == Ok(t) && SpellingOf(loc.upper, s, TermTok(s))
  }

  /** Some word the term can be written with; the term's own if it was read from one. */
  ghost function SomeWord(loc: Locale, t: Term): (s: string)
    ensures (exists r :: WordFor(loc, t, r)) ==> WordFor(loc, t, s)
  {
    if r :| WordFor(loc, t, r) then r else ""
  }

  ghost function SomeWording(loc: Locale): Wording {
    t => SomeWord(loc, t)
  }

  /** The words of the tokens spell themselves. */
  ghost predicate OwnWords(loc: Locale, ts: seq<Token>) {
    forall i :: 0 <= i < |ts| && ts[i].TermTok? ==> SpellingOf(loc.upper, ts[i].text, ts[i])
  }

  lemma OwnWordsSplit(loc: Locale, a: seq<Token>, b: seq<Token>)
    requires OwnWords(loc, a + b)
    ensures OwnWords(loc, a) && OwnWords(loc, b)
  {
    hide SpellingOf;
    assert forall i :: 0 <= i < |a| ==> (a + b)[i] == a[i];
    assert forall i :: 0 <= i < |b| ==> (a + b)[|a| + i] == b[i];
  }

  lemma {:induction false} WordsOfE(loc: Locale, e: Expr)
    requires GoodE(loc, e) && OwnWords(loc, YieldE(e))
    ensures Readable(loc, AstE(loc, e), SomeWording(loc)) && Spelled(loc, AstE(loc, e), SomeWording(loc))
    decreases e
  {
    hide TermOf; hide SpellingOf; hide OwnWords; hide SomeWord;
    match e
    case OneConj(c) => WordsOfC(loc, c);
    case OrMore(init, last) =>
      OwnWordsSplit(loc, YieldE(init), [OrTok] + YieldC(last));
      OwnWordsSplit(loc, [OrTok], YieldC(last));
      WordsOfE(loc, init);
      WordsOfC(loc, last);
  }

  lemma {:induction false} WordsOfC(loc: Locale, c: Conj)
    requires GoodC(loc, c) && OwnWords(loc, YieldC(c))
    ensures Readable(loc, AstC(loc, c), SomeWording(loc)) && Spelled(loc, AstC(loc, c), SomeWording(loc))
    decreases c
  {
    hide TermOf; hide SpellingOf; hide OwnWords; hide SomeWord;
    match c
    case OneUnary(u) => WordsOfU(loc, u);
    case AndMore(init, last) =>
      OwnWordsSplit(loc, YieldC(init), [AndTok] + YieldU(last));
      OwnWordsSplit(loc, [AndTok], YieldU(last));
      WordsOfC(loc, init);
      WordsOfU(loc, last);
  }

  lemma {:induction false} WordsOfU(loc: Locale, u: Unary)
    requires GoodU(loc, u) && OwnWords(loc, YieldU(u))
    ensures Readable(loc, AstU(loc, u), SomeWording(loc)) && Spelled(loc, AstU(loc, u), SomeWording(loc))
    decreases u
  {
    hide TermOf; hide SpellingOf; hide SomeWord;
    match u
    case Negated(x) =>
      OwnWordsSplit(loc, [NotTok], YieldU(x));
      WordsOfU(loc, x);
    case Group(e) =>
      OwnWordsSplit(loc, [LParen], YieldE(e) + [RParen]);
      OwnWordsSplit(loc, YieldE(e), [RParen]);
      WordsOfE(loc, e);
    case Word(text) =>
      assert YieldU(u)[0] == TermTok(text);
      var t := TermOf(loc, text).value;
      assert WordFor(loc, t, text);
  }

  lemma LaidWords(loc: Locale, ls: seq<Laid>)
    requires LaidOut(loc.upper, ls)
    ensures OwnWords(loc, Tokens(ls))
  {
  }

  /**
   Every query text that is accepted, whatever its terms hold, can be printed again with
   minimal parentheses: the new text means the same tree and has no more tokens.
   */
  lemma AcceptedQueryReprints(loc: Locale, text: string, n: Node) returns (ts: seq<Token>, w: Wording)
    requires loc.Sane() && QueryOf(loc, text) == Ok(n) && n != MatchAll
    ensures SomeLayout(loc.upper, text, ts) && |Print(n, w)| <= |ts|
    ensures QueryOf(loc, ShowQuery(n, w)) == Ok(n)
  {
    hide LexFrom; hide ParseTokens; hide ShowQuery; hide OwnWords; hide LaidOut; hide Locale.Sane;
    ts, w := LexFrom(loc.upper, text, 0).value, SomeWording(loc);
    LexIff(loc.upper, text, ts);
    ParseIffDerives(loc, ts, n);
    var e :| Derives(loc, e, ts, n);
    var ls, tail :| LaysOut(loc.upper, ls, tail, text, ts);
    LaidWords(loc, ls);
    WordsOfE(loc, e);
    MinimalE(loc, e, w);
    WordedRoundTrip(loc, n, w);
  }
}
