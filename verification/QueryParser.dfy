/** The recursive-descent query parser, proved against the grammar it states. */
module QueryParser {
  import opened Text
  import opened QueryTerm
  import opened QueryLexer

  datatype Node =
    | MatchAll
    | AndNode(left: Node, right: Node)
    | OrNode(left: Node, right: Node)
    | NotNode(inner: Node)
    | Leaf(term: Term)

  datatype ParseError =
    | UnexpectedEnd
    | TrailingOr
    | TrailingAnd
    | MissingOperator(before: Token)
    | UnbalancedParens
    | UnexpectedOperator
    | UnexpectedToken(tok: Token)
    | BadTerm(error: TermError)

  function Eval(n: Node, holds: Term -> bool): bool {
    match n
    case MatchAll => true
    case AndNode(l, r) => Eval(l, holds) && Eval(r, holds)
    case OrNode(l, r) => Eval(l, holds) || Eval(r, holds)
    case NotNode(x) => !Eval(x, holds)
    case Leaf(t) => holds(t)
  }

  // ---- The parser as functions from the tokens ahead to a node and the tokens left ----

  type Parsed = Result<(Node, seq<Token>), ParseError>

  predicate StartsOperand(t: Token) {
    t.TermTok? || t == NotTok || t == LParen
  }

  predicate EndsOperand(t: Token) {
    t.TermTok? || t == RParen
  }

  function POr(loc: Locale, ts: seq<Token>): (r: Parsed)
    ensures r.Ok? ==> |r.value.1| < |ts|
    decreases |ts|, 5
  {
    match PAnd(loc, ts)
    case Err(e) => Err(e)
    case Ok((left, rest)) => OrTail(loc, left, rest)
  }

  function OrTail(loc: Locale, left: Node, ts: seq<Token>): (r: Parsed)
    ensures r.Ok? ==> |r.value.1| <= |ts|
    decreases |ts|, 4
  {
    if ts == [] || ts[0] != OrTok then Ok((left, ts))
    else if ts[1..] == [] then Err(TrailingOr)
    else
      match PAnd(loc, ts[1..])
      case Err(e) => Err(e)
      case Ok((right, rest)) => OrTail(loc, OrNode(left, right), rest)
  }

  function PAnd(loc: Locale, ts: seq<Token>): (r: Parsed)
    ensures r.Ok? ==> |r.value.1| < |ts|
    decreases |ts|, 3
  {
    match PUnary(loc, ts)
    case Err(e) => Err(e)
    case Ok((left, rest)) => AndTail(loc, left, rest)
  }

  function AndTail(loc: Locale, left: Node, ts: seq<Token>): (r: Parsed)
    ensures r.Ok? ==> |r.value.1| <= |ts|
    decreases |ts|, 2
  {
    if ts == [] then Ok((left, ts))
    else if ts[0] == AndTok then
      if ts[1..] == [] then Err(TrailingAnd)
      else
        match PUnary(loc, ts[1..])
        case Err(e) => Err(e)
        case Ok((right, rest)) => AndTail(loc, AndNode(left, right), rest)
    else if StartsOperand(ts[0]) then Err(MissingOperator(ts[0]))
    else Ok((left, ts))
  }

  function PUnary(loc: Locale, ts: seq<Token>): (r: Parsed)
    ensures r.Ok? ==> |r.value.1| < |ts|
    decreases |ts|, 1
  {
    if ts == [] then Err(UnexpectedEnd)
    else if ts[0] == NotTok then
      match PUnary(loc, ts[1..])
      case Err(e) => Err(e)
      case Ok((inner, rest)) => Ok((NotNode(inner), rest))
    else PPrimary(loc, ts)
  }

  function PPrimary(loc: Locale, ts: seq<Token>): (r: Parsed)
    ensures r.Ok? ==> |r.value.1| < |ts|
    decreases |ts|, 0
  {
    if ts == [] then Err(UnexpectedEnd)
    else
      match ts[0]
      case LParen =>
        (match POr(loc, ts[1..])
         case Err(e) => Err(e)
         case Ok((inner, rest)) =>
           if rest == [] || rest[0] != RParen then Err(UnbalancedParens) else Ok((inner, rest[1..])))
      case TermTok(text) => PTerm(loc, text, ts[1..])
      case AndTok => Err(UnexpectedOperator)
      case OrTok => Err(UnexpectedOperator)
      case _ => Err(UnexpectedToken(ts[0]))
  }

  function PTerm(loc: Locale, text: string, rest: seq<Token>): Parsed {
    match TermOf(loc, text)
    case Err(e) => Err(BadTerm(e))
    case Ok(t) => Ok((Leaf(t), rest))
  }

  /** No tokens match everything; otherwise one expression must use them all up. */
  function ParseTokens(loc: Locale, ts: seq<Token>): Result<Node, ParseError> {
    if ts == [] then Ok(MatchAll)
    else
      match POr(loc, ts)
      case Err(e) => Err(e)
      case Ok((root, rest)) => if rest == [] then Ok(root) else Err(UnexpectedToken(rest[0]))
  }

  // ---- The parser object ----

  class Parser {
    const loc: Locale
    const toks: seq<Token>
    var pos: nat

    constructor (loc: Locale, toks: seq<Token>)
      ensures this.loc == loc && this.toks == toks && pos == 0
    {
      this.loc, this.toks, pos := loc, toks, 0;
    }

    ghost predicate Valid()
      reads this
    {
      pos <= |toks|
    }

    ghost function Ahead(): seq<Token>
      requires Valid()
      reads this
    {
      toks[pos..]
    }

    /** The object's answer and position are those of the function. */
    ghost predicate Did(r: Result<Node, ParseError>, spec: Parsed)
      reads this
    {
      && Valid()
      && match spec
         case Ok((n, rest)) => r == Ok(n) && Ahead() == rest
         case Err(e) => r == Err(e)
    }

    predicate AtEnd()
      requires Valid()
      reads this
      ensures AtEnd() <==> Ahead() == []
    {
      pos >= |toks|
    }

    function Peek(): (t: Token)
      requires Valid() && !AtEnd()
      reads this
      ensures t == Ahead()[0]
    {
      toks[pos]
    }

    method Next() returns (t: Token)
      requires Valid() && !AtEnd()
      modifies this
      ensures Valid() && t == old(Peek()) && Ahead() == old(Ahead())[1..] && pos == old(pos) + 1
    {
      t := toks[pos];
      pos := pos + 1;
    }

    method ParseOr() returns (r: Result<Node, ParseError>)
      requires Valid()
      modifies this
      ensures Did(r, POr(loc, old(Ahead())))
      decreases |toks| - pos, 5
    {
      hide PAnd;
      r := ParseAnd();
      if r.Err? {
        return;
      }
      ghost var goal := OrTail(loc, r.value, Ahead());
      while !AtEnd() && Peek() == OrTok
        invariant Valid() && pos > old(pos) && r.Ok?
        invariant OrTail(loc, r.value, Ahead()) == goal
        decreases |toks| - pos
      {
        var op := Next();
        if AtEnd() {
          return Err(TrailingOr);
        }
        var right := ParseAnd();
        if right.Err? {
          return right;
        }
        r := Ok(OrNode(r.value, right.value));
      }
    }

    method ParseAnd() returns (r: Result<Node, ParseError>)
      requires Valid()
      modifies this
      ensures Did(r, PAnd(loc, old(Ahead()))) && (r.Ok? ==> pos > old(pos))
      decreases |toks| - pos, 3
    {
      hide PUnary;
      r := ParseUnary();
      if r.Err? {
        return;
      }
      ghost var goal := AndTail(loc, r.value, Ahead());
      while !AtEnd()
        invariant Valid() && pos > old(pos) && r.Ok?
        invariant AndTail(loc, r.value, Ahead()) == goal
        decreases |toks| - pos
      {
        var k := Peek();
        if k == AndTok {
          k := Next();
          if AtEnd() {
            return Err(TrailingAnd);
          }
          var right := ParseUnary();
          if right.Err? {
            return right;
          }
          r := Ok(AndNode(r.value, right.value));
        } else if StartsOperand(k) {
          return Err(MissingOperator(k));
        } else {
          break;
        }
      }
    }

    method ParseUnary() returns (r: Result<Node, ParseError>)
      requires Valid()
      modifies this
      ensures Did(r, PUnary(loc, old(Ahead()))) && (r.Ok? ==> pos > old(pos))
      decreases |toks| - pos, 1
    {
      if AtEnd() {
        return Err(UnexpectedEnd);
      }
      if Peek() == NotTok {
        var op := Next();
        r := ParseUnary();
        if r.Ok? {
          r := Ok(NotNode(r.value));
        }
      } else {
        r := ParsePrimary();
      }
    }

    method ParsePrimary() returns (r: Result<Node, ParseError>)
      requires Valid()
      modifies this
      ensures Did(r, PPrimary(loc, old(Ahead()))) && (r.Ok? ==> pos > old(pos))
      decreases |toks| - pos, 0
    {
      hide POr; hide TermOf;
      if AtEnd() {
        return Err(UnexpectedEnd);
      }
      var t := Peek();
      match t {
        case LParen =>
          t := Next();
          r := ParseOr();
          if r.Ok? {
            if AtEnd() || Peek() != RParen {
              return Err(UnbalancedParens);
            }
            t := Next();
          }
        case TermTok(text) =>
          t := Next();
          var leaf := ParseTerm(loc, text);
          r := match leaf case Ok(x) => Ok(Leaf(x)) case Err(e) => Err(BadTerm(e));
        case AndTok =>
          r := Err(UnexpectedOperator);
        case OrTok =>
          r := Err(UnexpectedOperator);
        case _ =>
          r := Err(UnexpectedToken(t));
      }
    }
  }

  datatype QueryError = LexFailed(lexError: LexError) | ParseFailed(parseError: ParseError)

  /** What a query text means: the lexer's tokens, parsed. */
  function QueryOf(loc: Locale, input: string): Result<Node, QueryError> {
    match LexFrom(loc.upper, input, 0)
    case Err(e) => Err(LexFailed(e))
    case Ok(toks) =>
      match ParseTokens(loc, toks)
      case Err(e) => Err(ParseFailed(e))
      case Ok(n) => Ok(n)
  }

  method Parse(loc: Locale, input: string) returns (r: Result<Node, QueryError>)
    ensures r == QueryOf(loc, input)
  {
    var lexed := Lex(loc.upper, input);
    if lexed.Err? {
      return Err(LexFailed(lexed.error));
    }
    var toks := lexed.value;
    if |toks| == 0 {
      return Ok(MatchAll);
    }
    var p := new Parser(loc, toks);
    var root := p.ParseOr();
    if root.Err? {
      return Err(ParseFailed(root.error));
    }
    if !p.AtEnd() {
      return Err(ParseFailed(UnexpectedToken(p.Peek())));
    }
    return Ok(root.value);
  }
}
