/** The stated query grammar, and the proof that the parser accepts exactly its sentences. */
module QueryGrammar {
  import opened Text
  import opened QueryTerm
  import opened QueryLexer
  import opened QueryParser

  // ---- Derivation trees ----

  /** expr := conj (OR conj)*, grown from the left. */
  datatype Expr = OneConj(c: Conj) | OrMore(init: Expr, last: Conj)

  /** conj := unary (AND unary)*, grown from the left. */
  datatype Conj = OneUnary(u: Unary) | AndMore(init: Conj, last: Unary)

  /** unary := NOT unary | '(' expr ')' | TERM */
  datatype Unary = Negated(u: Unary) | Group(e: Expr) | Word(text: string)

  function YieldE(e: Expr): (ts: seq<Token>)
    ensures ts != []
  {
    match e
    case OneConj(c) => YieldC(c)
    case OrMore(init, last) => YieldE(init) + ([OrTok] + YieldC(last))
  }

  function YieldC(c: Conj): (ts: seq<Token>)
    ensures ts != []
  {
    match c
    case OneUnary(u) => YieldU(u)
    case AndMore(init, last) => YieldC(init) + ([AndTok] + YieldU(last))
  }

  function YieldU(u: Unary): (ts: seq<Token>)
    ensures ts != []
  {
    match u
    case Negated(x) => [NotTok] + YieldU(x)
    case Group(e) => [LParen] + (YieldE(e) + [RParen])
    case Word(text) => [TermTok(text)]
  }

  /** Every term of the sentence is one the term parser accepts. */
  predicate GoodE(loc: Locale, e: Expr) {
    match e
    case OneConj(c) => GoodC(loc, c)
    case OrMore(init, last) => GoodE(loc, init) && GoodC(loc, last)
  }

  predicate GoodC(loc: Locale, c: Conj) {
    match c
    case OneUnary(u) => GoodU(loc, u)
    case AndMore(init, last) => GoodC(loc, init) && GoodU(loc, last)
  }

  predicate GoodU(loc: Locale, u: Unary) {
    match u
    case Negated(x) => GoodU(loc, x)
    case Group(e) => GoodE(loc, e)
    case Word(text) => TermOf(loc, text).Ok?
  }

  /** The tree without its parentheses. */
  function AstE(loc: Locale, e: Expr): Node
    requires GoodE(loc, e)
  {
    match e
    case OneConj(c) => AstC(loc, c)
    case OrMore(init, last) => OrNode(AstE(loc, init), AstC(loc, last))
  }

  function AstC(loc: Locale, c: Conj): Node
    requires GoodC(loc, c)
  {
    match c
    case OneUnary(u) => AstU(loc, u)
    case AndMore(init, last) => AndNode(AstC(loc, init), AstU(loc, last))
  }

  function AstU(loc: Locale, u: Unary): Node
    requires GoodU(loc, u)
  {
    match u
    case Negated(x) => NotNode(AstU(loc, x))
    case Group(e) => AstE(loc, e)
    case Word(text) => Leaf(TermOf(loc, text).value)
  }

  ghost predicate Derives(loc: Locale, e: Expr, ts: seq<Token>, n: Node) {
    YieldE(e) == ts && GoodE(loc, e) && AstE(loc, e) == n
  }

  // ---- Every sentence is parsed, to its own tree ----

  lemma {:induction false} UnaryParses(loc: Locale, u: Unary, rest: seq<Token>)
    requires GoodU(loc, u)
    ensures PUnary(loc, YieldU(u) + rest) == Ok((AstU(loc, u), rest))
    decreases u
  {
    hide TermOf; hide POr;
    match u
    case Negated(x) =>
      assert (YieldU(u) + rest)[1..] == YieldU(x) + rest;
      UnaryParses(loc, x, rest);
    case Group(e) =>
      var after := [RParen] + rest;
      assert (YieldU(u) + rest)[1..] == YieldE(e) + after;
      ExprParses(loc, e, after);
      OrTailStops(loc, AstE(loc, e), after);
      assert after[1..] == rest;
    case Word(text) =>
      assert (YieldU(u) + rest)[1..] == rest;
  }

  lemma {:induction false} ConjParses(loc: Locale, c: Conj, rest: seq<Token>)
    requires GoodC(loc, c)
    ensures PAnd(loc, YieldC(c) + rest) == AndTail(loc, AstC(loc, c), rest)
    decreases c, 0
  {
    hide PUnary;
    match c
    case OneUnary(u) =>
      UnaryParses(loc, u, rest);
    case AndMore(init, last) =>
      var after := [AndTok] + (YieldU(last) + rest);
      assert YieldC(c) + rest == YieldC(init) + after;
      ConjParses(loc, init, after);
      UnaryParses(loc, last, rest);
      AndStep(loc, AstC(loc, init), last, rest);
  }

  lemma AndStep(loc: Locale, left: Node, last: Unary, rest: seq<Token>)
    requires GoodU(loc, last)
    requires PUnary(loc, YieldU(last) + rest) == Ok((AstU(loc, last), rest))
    ensures AndTail(loc, left, [AndTok] + (YieldU(last) + rest)) ==
              AndTail(loc, AndNode(left, AstU(loc, last)), rest)
  {
    hide PUnary; hide AstU; hide YieldU;
    assert ([AndTok] + (YieldU(last) + rest))[1..] == YieldU(last) + rest;
  }

  lemma {:induction false} ExprParses(loc: Locale, e: Expr, rest: seq<Token>)
    requires GoodE(loc, e)
    requires rest != [] ==> rest[0] == OrTok || rest[0] == RParen
    ensures POr(loc, YieldE(e) + rest) == OrTail(loc, AstE(loc, e), rest)
    decreases e
  {
    hide PAnd;
    match e
    case OneConj(c) =>
      ConjAlone(loc, c, rest);
    case OrMore(init, last) =>
      var after := [OrTok] + (YieldC(last) + rest);
      assert YieldE(e) + rest == YieldE(init) + after;
      ExprParses(loc, init, after);
      ConjAlone(loc, last, rest);
      OrStep(loc, AstE(loc, init), last, rest);
  }

  lemma {:induction false} ConjAlone(loc: Locale, c: Conj, rest: seq<Token>)
    requires GoodC(loc, c)
    requires rest != [] ==> rest[0] == OrTok || rest[0] == RParen
    ensures PAnd(loc, YieldC(c) + rest) == Ok((AstC(loc, c), rest))
    decreases c, 1
  {
    hide PAnd; hide YieldC; hide AstC;
    ConjParses(loc, c, rest);
  }

  lemma OrStep(loc: Locale, left: Node, last: Conj, rest: seq<Token>)
    requires GoodC(loc, last)
    requires PAnd(loc, YieldC(last) + rest) == Ok((AstC(loc, last), rest))
    ensures OrTail(loc, left, [OrTok] + (YieldC(last) + rest)) ==
              OrTail(loc, OrNode(left, AstC(loc, last)), rest)
  {
    hide PAnd; hide AstC; hide YieldC;
    assert ([OrTok] + (YieldC(last) + rest))[1..] == YieldC(last) + rest;
  }

  lemma OrTailStops(loc: Locale, n: Node, rest: seq<Token>)
    requires rest == [] || rest[0] != OrTok
    ensures OrTail(loc, n, rest) == Ok((n, rest))
  {
  }

  // ---- Whatever is parsed is a sentence ----

  lemma {:induction false} ExprSound(loc: Locale, ts: seq<Token>) returns (e: Expr)
    requires POr(loc, ts).Ok?
    ensures GoodE(loc, e) && AstE(loc, e) == POr(loc, ts).value.0
    ensures YieldE(e) + POr(loc, ts).value.1 == ts
    decreases |ts|, 5
  {
    hide PAnd;
    var c := ConjSound(loc, ts);
    var rest := PAnd(loc, ts).value.1;
    e := OrTailSound(loc, OneConj(c), rest);
  }

  lemma {:induction false} OrTailSound(loc: Locale, done: Expr, ts: seq<Token>) returns (e: Expr)
    requires GoodE(loc, done) && OrTail(loc, AstE(loc, done), ts).Ok?
    ensures var (n, rest) := OrTail(loc, AstE(loc, done), ts).value;
      GoodE(loc, e) && AstE(loc, e) == n && YieldE(e) + rest == YieldE(done) + ts
    decreases |ts|, 4
  {
    hide PAnd;
    if ts == [] || ts[0] != OrTok {
      e := done;
    } else {
      var c := ConjSound(loc, ts[1..]);
      var rest := PAnd(loc, ts[1..]).value.1;
      assert YieldE(OrMore(done, c)) + rest == YieldE(done) + ts by {
        assert ts == [OrTok] + (YieldC(c) + rest);
      }
      e := OrTailSound(loc, OrMore(done, c), rest);
    }
  }

  lemma {:induction false} ConjSound(loc: Locale, ts: seq<Token>) returns (c: Conj)
    requires PAnd(loc, ts).Ok?
    ensures GoodC(loc, c) && AstC(loc, c) == PAnd(loc, ts).value.0
    ensures YieldC(c) + PAnd(loc, ts).value.1 == ts
    decreases |ts|, 3
  {
    hide PUnary;
    var u := UnarySound(loc, ts);
    var rest := PUnary(loc, ts).value.1;
    c := AndTailSound(loc, OneUnary(u), rest);
  }

  lemma {:induction false} AndTailSound(loc: Locale, done: Conj, ts: seq<Token>) returns (c: Conj)
    requires GoodC(loc, done) && AndTail(loc, AstC(loc, done), ts).Ok?
    ensures var (n, rest) := AndTail(loc, AstC(loc, done), ts).value;
      GoodC(loc, c) && AstC(loc, c) == n && YieldC(c) + rest == YieldC(done) + ts
    decreases |ts|, 2
  {
    hide PUnary;
    if ts == [] || ts[0] != AndTok {
      c := done;
    } else {
      var u := UnarySound(loc, ts[1..]);
      var rest := PUnary(loc, ts[1..]).value.1;
      assert YieldC(AndMore(done, u)) + rest == YieldC(done) + ts by {
        assert ts == [AndTok] + (YieldU(u) + rest);
      }
      c := AndTailSound(loc, AndMore(done, u), rest);
    }
  }

  lemma {:induction false} UnarySound(loc: Locale, ts: seq<Token>) returns (u: Unary)
    requires PUnary(loc, ts).Ok?
    ensures GoodU(loc, u) && AstU(loc, u) == PUnary(loc, ts).value.0
    ensures YieldU(u) + PUnary(loc, ts).value.1 == ts
    decreases |ts|, 1
  {
    hide POr; hide TermOf;
    assert ts == [ts[0]] + ts[1..];
    match ts[0]
    case NotTok =>
      var x := UnarySound(loc, ts[1..]);
      u := Negated(x);
    case LParen =>
      var e := ExprSound(loc, ts[1..]);
      u := Group(e);
      GroupYield(e, ts, POr(loc, ts[1..]).value.1);
    case TermTok(text) =>
      u := Word(text);
    case _ =>
      assert false;
  }

  lemma GroupYield(e: Expr, ts: seq<Token>, after: seq<Token>)
    requires ts != [] && ts[0] == LParen && YieldE(e) + after == ts[1..]
    requires after != [] && after[0] == RParen
    ensures YieldU(Group(e)) + after[1..] == ts
  {
    assert after == [RParen] + after[1..];
    assert ts == [LParen] + ts[1..];
    assert YieldU(Group(e)) + after[1..] == [LParen] + (YieldE(e) + ([RParen] + after[1..]));
  }

  /** The parser answers a node for exactly the sentences of the grammar, and that node is the sentence's tree. */
  lemma ParseIffDerives(loc: Locale, ts: seq<Token>, n: Node)
    ensures ParseTokens(loc, ts) == Ok(n) <==>
              (if ts == [] then n == MatchAll else exists e :: Derives(loc, e, ts, n))
  {
    hide POr;
    if ts != [] {
      if ParseTokens(loc, ts) == Ok(n) {
        var e := ExprSound(loc, ts);
        assert YieldE(e) + [] == YieldE(e);
        assert Derives(loc, e, ts, n);
      }
      if exists e :: Derives(loc, e, ts, n) {
        var e :| Derives(loc, e, ts, n);
        DerivedParses(loc, e);
      }
    }
  }

  lemma DerivedParses(loc: Locale, e: Expr)
    requires GoodE(loc, e)
    ensures ParseTokens(loc, YieldE(e)) == Ok(AstE(loc, e))
  {
    hide POr; hide AstE; hide YieldE;
    ExprParses(loc, e, []);
    assert YieldE(e) + [] == YieldE(e);
    OrTailStops(loc, AstE(loc, e), []);
  }

  /** Some reading of the text as tokens derives the tree; without a token that is the query that matches everything. */
  ghost predicate Denotes(loc: Locale, text: string, n: Node) {
    exists ts :: SomeLayout(loc.upper, text, ts) && if ts == [] then n == MatchAll else exists e :: Derives(loc, e, ts, n)
  }

  /** A query text parses to a tree if and only if the grammar derives that tree from tokens the text is a layout of. */
  lemma QueryIffDenotes(loc: Locale, text: string, n: Node)
    ensures QueryOf(loc, text) == Ok(n) <==> Denotes(loc, text, n)
  {
    hide LexFrom; hide ParseTokens; hide SomeLayout; hide Derives;
    if QueryOf(loc, text) == Ok(n) {
      var ts := LexFrom(loc.upper, text, 0).value;
      LexIff(loc.upper, text, ts);
      ParseIffDerives(loc, ts, n);
    }
    if Denotes(loc, text, n) {
      var ts :| SomeLayout(loc.upper, text, ts) && if ts == [] then n == MatchAll else exists e :: Derives(loc, e, ts, n);
      LexIff(loc.upper, text, ts);
      ParseIffDerives(loc, ts, n);
    }
  }

  /** The grammar is unambiguous: one token sequence has one tree. */
  lemma Unambiguous(loc: Locale, e: Expr, f: Expr)
    requires GoodE(loc, e) && GoodE(loc, f) && YieldE(e) == YieldE(f)
    ensures AstE(loc, e) == AstE(loc, f)
  {
    hide AstE; hide YieldE; hide GoodE;
    DerivedParses(loc, e);
    DerivedParses(loc, f);
  }

  // ---- An operator is required between operands ----

  ghost predicate NoJuxtaposition(ts: seq<Token>) {
    forall i :: 0 < i < |ts| ==> !(EndsOperand(ts[i - 1]) && StartsOperand(ts[i]))
  }

  ghost predicate OperandShape(ts: seq<Token>) {
    ts != [] && StartsOperand(ts[0]) && EndsOperand(ts[|ts| - 1]) && NoJuxtaposition(ts)
  }

  lemma JoinShape(a: seq<Token>, op: Token, b: seq<Token>)
    requires OperandShape(a) && OperandShape(b) && !StartsOperand(op) && !EndsOperand(op)
    ensures OperandShape(a + ([op] + b))
  {
    var ts := a + ([op] + b);
    forall i | 0 < i < |ts| ensures !(EndsOperand(ts[i - 1]) && StartsOperand(ts[i])) {
      if i > |a| + 1 {
        assert ts[i] == b[i - |a| - 1] && ts[i - 1] == b[i - |a| - 2];
      }
    }
    assert ts[|ts| - 1] == b[|b| - 1];
  }

  lemma {:induction false} ShapeU(u: Unary)
    ensures OperandShape(YieldU(u))
    decreases u
  {
    match u
    case Negated(x) =>
      ShapeU(x);
      forall i | 0 < i < |YieldU(u)| ensures !(EndsOperand(YieldU(u)[i - 1]) && StartsOperand(YieldU(u)[i])) {
        if i > 1 {
          assert YieldU(u)[i] == YieldU(x)[i - 1] && YieldU(u)[i - 1] == YieldU(x)[i - 2];
        }
      }
    case Group(e) =>
      ShapeE(e);
      GroupShape(YieldE(e));
    case Word(text) =>
  }

  lemma GroupShape(b: seq<Token>)
    requires OperandShape(b)
    ensures OperandShape([LParen] + (b + [RParen]))
  {
    var ts := [LParen] + (b + [RParen]);
    assert forall i :: 1 <= i <= |b| ==> ts[i] == b[i - 1];
    assert ts[|b| + 1] == RParen;
    forall i | 0 < i < |ts| ensures !(EndsOperand(ts[i - 1]) && StartsOperand(ts[i])) {
      if 1 < i <= |b| {
        assert !(EndsOperand(b[i - 2]) && StartsOperand(b[i - 1]));
      }
    }
  }

  lemma {:induction false} ShapeC(c: Conj)
    ensures OperandShape(YieldC(c))
    decreases c
  {
    match c
    case OneUnary(u) => ShapeU(u);
    case AndMore(init, last) =>
      ShapeC(init);
      ShapeU(last);
      JoinShape(YieldC(init), AndTok, YieldU(last));
  }

  lemma {:induction false} ShapeE(e: Expr)
    ensures OperandShape(YieldE(e))
    decreases e
  {
    match e
    case OneConj(c) => ShapeC(c);
    case OrMore(init, last) =>
      ShapeE(init);
      ShapeC(last);
      JoinShape(YieldE(init), OrTok, YieldC(last));
  }

  /** Two operands side by side are rejected wherever they stand in the query. */
  lemma AdjacentOperandsRejected(loc: Locale, ts: seq<Token>, i: nat)
    requires i + 1 < |ts| && EndsOperand(ts[i]) && StartsOperand(ts[i + 1])
    ensures ParseTokens(loc, ts).Err?
  {
    hide POr;
    if ParseTokens(loc, ts).Ok? {
      var e := ExprSound(loc, ts);
      assert YieldE(e) + [] == YieldE(e);
      ShapeE(e);
    }
  }

  // ---- Precedence in terms of truth ----

  ghost predicate SatE(loc: Locale, e: Expr, holds: Term -> bool)
    requires GoodE(loc, e)
  {
    exists c :: c in Conjs(e) && GoodC(loc, c) && SatC(loc, c, holds)
  }

  ghost predicate SatC(loc: Locale, c: Conj, holds: Term -> bool)
    requires GoodC(loc, c)
  {
    forall u :: u in Unaries(c) ==> GoodU(loc, u) && Eval(AstU(loc, u), holds)
  }

  function Conjs(e: Expr): set<Conj> {
    match e
    case OneConj(c) => {c}
    case OrMore(init, last) => Conjs(init) + {last}
  }

  function Unaries(c: Conj): set<Unary> {
    match c
    case OneUnary(u) => {u}
    case AndMore(init, last) => Unaries(init) + {last}
  }

  lemma {:induction false} ConjMeans(loc: Locale, c: Conj, holds: Term -> bool)
    requires GoodC(loc, c)
    ensures Eval(AstC(loc, c), holds) <==> SatC(loc, c, holds)
  {
    hide AstU;
    if c.AndMore? {
      ConjMeans(loc, c.init, holds);
    } else {
      assert c.u in Unaries(c);
    }
  }

  /** A query holds when every unary of some AND-group between the ORs holds. */
  lemma {:induction false} ExprMeans(loc: Locale, e: Expr, holds: Term -> bool)
    requires GoodE(loc, e)
    ensures Eval(AstE(loc, e), holds) <==> SatE(loc, e, holds)
  {
    hide AstC; hide SatC;
    if e.OrMore? {
      ExprMeans(loc, e.init, holds);
      ConjMeans(loc, e.last, holds);
    } else {
      ConjMeans(loc, e.c, holds);
    }
  }
}
