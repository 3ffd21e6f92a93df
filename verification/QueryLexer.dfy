/** The query lexer, proved to accept exactly the laid-out token sequences. */
module QueryLexer {
  import opened Text

  datatype Token = TermTok(text: string) | AndTok | OrTok | NotTok | LParen | RParen

  datatype LexError = UnterminatedQuote(at: nat) | UnterminatedRange(at: nat)

  predicate Blank(c: char) {
    c == ' ' || c == '\t' || c == '\n' || c == '\r'
  }

  predicate Break(c: char) {
    Blank(c) || c == '(' || c == ')'
  }

  /** Length of a group's inside with its closing character; 0 when it never closes. */
  function GroupLen(s: string, close: char): (n: nat)
    ensures n <= |s|
  {
    if s == [] then 0
    else if s[0] == close then 1
    else
      var n := GroupLen(s[1..], close);
      if n == 0 then 0 else n + 1
  }

  lemma {:induction false} GroupLenEnds(s: string, close: char)
    requires GroupLen(s, close) > 0
    ensures s[GroupLen(s, close) - 1] == close && close !in s[..GroupLen(s, close) - 1]
  {
    if s[0] != close {
      GroupLenEnds(s[1..], close);
      assert s[..GroupLen(s, close) - 1] == [s[0]] + s[1..][..GroupLen(s[1..], close) - 1];
    }
  }

  /** Length of the term that starts the text; a group keeps its inner spaces. */
  function WordLen(s: string, start: nat): (n: Result<nat, LexError>)
    ensures n.Ok? ==> n.value <= |s|
    ensures n.Ok? && s != [] && !Break(s[0]) ==> n.value > 0
  {
    if s == [] || Break(s[0]) then Ok(0)
    else
      var n := PieceLen(s);
      if n == 0 then Err(if s[0] == '"' then UnterminatedQuote(start) else UnterminatedRange(start))
      else Longer(n, WordLen(s[n..], start))
  }

  function Longer(n: nat, rest: Result<nat, LexError>): Result<nat, LexError> {
    match rest
    case Ok(m) => Ok(n + m)
    case Err(e) => Err(e)
  }

  lemma LongerTwice(n: nat, m: nat, rest: Result<nat, LexError>)
    ensures Longer(n, Longer(m, rest)) == Longer(n + m, rest)
  {
  }

  /** Length of the plain character or group at the front; 0 for a group that never closes. */
  function PieceLen(s: string): (n: nat)
    requires s != []
    ensures n <= |s|
  {
    if s[0] == '"' || s[0] == '[' then
      var n := GroupLen(s[1..], if s[0] == '"' then '"' else ']');
      if n == 0 then 0 else 1 + n
    else 1
  }

  /** A bare AND, OR or NOT in any case is an operator. */
  function Classify(upper: char -> char, text: string): Token {
    var up := Fold(upper, text);
    if up == "AND" then AndTok else if up == "OR" then OrTok else if up == "NOT" then NotTok
    else TermTok(text)
  }

  function Before(t: Token, rest: Result<seq<Token>, LexError>): Result<seq<Token>, LexError> {
    match rest
    case Ok(ts) => Ok([t] + ts)
    case Err(e) => Err(e)
  }

  /** The tokens of a text that starts at position `at` of the input. */
  function LexFrom(upper: char -> char, s: string, at: nat): Result<seq<Token>, LexError> {
    if s == [] then Ok([])
    else if Blank(s[0]) then LexFrom(upper, s[1..], at + 1)
    else if s[0] == '(' then Before(LParen, LexFrom(upper, s[1..], at + 1))
    else if s[0] == ')' then Before(RParen, LexFrom(upper, s[1..], at + 1))
    else
      match WordLen(s, at)
      case Err(e) => Err(e)
      case Ok(n) => Before(Classify(upper, s[..n]), LexFrom(upper, s[n..], at + n))
  }

  // ---- The loop ----

  function Prefixed(toks: seq<Token>, rest: Result<seq<Token>, LexError>): Result<seq<Token>, LexError> {
    match rest
    case Ok(ts) => Ok(toks + ts)
    case Err(e) => Err(e)
  }

  lemma PrefixedBefore(toks: seq<Token>, t: Token, rest: Result<seq<Token>, LexError>)
    ensures Prefixed(toks + [t], rest) == Prefixed(toks, Before(t, rest))
  {
    if rest.Ok? {
      assert toks + [t] + rest.value == toks + ([t] + rest.value);
    }
  }

  lemma PrefixedEnds(toks: seq<Token>, rest: Result<seq<Token>, LexError>)
    ensures Prefixed([], rest) == rest && Prefixed(toks, Ok([])) == Ok(toks)
  {
    assert toks + [] == toks;
    assert rest.Ok? ==> [] + rest.value == rest.value;
  }

  lemma LexSkips(upper: char -> char, r: string, i: nat)
    requires i < |r|
    ensures Blank(r[i]) ==> LexFrom(upper, r[i..], i) == LexFrom(upper, r[i + 1..], i + 1)
    ensures r[i] == '(' ==> LexFrom(upper, r[i..], i) == Before(LParen, LexFrom(upper, r[i + 1..], i + 1))
    ensures r[i] == ')' ==> LexFrom(upper, r[i..], i) == Before(RParen, LexFrom(upper, r[i + 1..], i + 1))
  {
    hide WordLen; hide Classify; hide Before;
    assert r[i..][1..] == r[i + 1..];
  }

  lemma LexTakes(upper: char -> char, r: string, i: nat)
    requires i < |r| && !Break(r[i])
    ensures match WordLen(r[i..], i)
            case Err(e) => LexFrom(upper, r[i..], i) == Err(e)
            case Ok(n) => LexFrom(upper, r[i..], i) == Before(Classify(upper, r[i..][..n]), LexFrom(upper, r[i + n..], i + n))
  {
    hide WordLen; hide Classify; hide Before;
    var n := WordLen(r[i..], i);
    if n.Ok? {
      assert r[i..][n.value..] == r[i + n.value..];
    }
  }

  method Lex(upper: char -> char, r: string) returns (res: Result<seq<Token>, LexError>)
    ensures res == LexFrom(upper, r, 0)
  {
    hide WordLen; hide Classify; hide Before; hide LexFrom; hide Prefixed;
    var toks: seq<Token> := [];
    var i := 0;
    PrefixedEnds(toks, LexFrom(upper, r, 0));
    assert r[0..] == r;
    while i < |r|
      invariant 0 <= i <= |r|
      invariant LexFrom(upper, r, 0) == Prefixed(toks, LexFrom(upper, r[i..], i))
    {
      LexSkips(upper, r, i);
      if Blank(r[i]) {
        i := i + 1;
      } else if r[i] == '(' || r[i] == ')' {
        var t := if r[i] == '(' then LParen else RParen;
        PrefixedBefore(toks, t, LexFrom(upper, r[i + 1..], i + 1));
        toks := toks + [t];
        i := i + 1;
      } else {
        LexTakes(upper, r, i);
        var word := LexWord(r, i);
        match word {
          case Err(e) =>
            PrefixedErr(toks, e);
            return Err(e);
          case Ok(text) =>
            var t := Classify(upper, text);
            PrefixedBefore(toks, t, LexFrom(upper, r[i + |text|..], i + |text|));
            toks := toks + [t];
            i := i + |text|;
        }
      }
    }
    LexEnds(upper, r);
    PrefixedEnds(toks, Ok([]));
    return Ok(toks);
  }

  lemma PrefixedErr(toks: seq<Token>, e: LexError)
    ensures Prefixed(toks, Err(e)) == Err(e)
  {
  }

  lemma LexEnds(upper: char -> char, r: string)
    ensures LexFrom(upper, r[|r|..], |r|) == Ok([])
  {
  }

  /** Copies one term into the builder, groups whole. */
  method LexWord(r: string, start: nat) returns (word: Result<string, LexError>)
    requires start < |r| && !Break(r[start])
    ensures match WordLen(r[start..], start)
            case Ok(n) => word == Ok(r[start..][..n])
            case Err(e) => word == Err(e)
  {
    hide WordLen; hide PieceLen;
    var i := start;
    var b: string := "";
    ghost var whole := WordLen(r[start..], start);
    ghost var todo := whole;
    while i < |r| && !Break(r[i])
      invariant start <= i <= |r| && b == r[start..i]
      invariant todo == WordLen(r[i..], start) && whole == Longer(i - start, todo)
    {
      var piece, closed := CopyPiece(r, i);
      if !closed {
        FailsAt(r, start, i);
        return Err(if r[i] == '"' then UnterminatedQuote(start) else UnterminatedRange(start));
      }
      todo := StepAt(r, start, i, |piece|, todo);
      b := b + piece;
      i := i + |piece|;
    }
    StopAt(r, start, i);
    return Ok(b);
  }

  lemma StepAt(r: string, start: nat, i: nat, n: nat, todo: Result<nat, LexError>)
    returns (rest: Result<nat, LexError>)
    requires start <= i && i + n <= |r| && i < |r| && !Break(r[i]) && PieceLen(r[i..]) == n > 0
    requires todo == WordLen(r[i..], start)
    ensures rest == WordLen(r[i + n..], start)
    ensures Longer(i - start, todo) == Longer(i + n - start, rest)
    ensures r[start..i] + r[i..i + n] == r[start..i + n]
  {
    rest := WordLen(r[i + n..], start);
    assert r[i..][n..] == r[i + n..];
    WordStep(r[i..], n, r[i + n..], start);
    LongerTwice(i - start, n, WordLen(r[i + n..], start));
  }

  lemma FailsAt(r: string, start: nat, i: nat)
    requires start <= i < |r| && !Break(r[i]) && PieceLen(r[i..]) == 0
    ensures WordLen(r[i..], start) ==
              Err(if r[i] == '"' then UnterminatedQuote(start) else UnterminatedRange(start))
  {
  }

  lemma StopAt(r: string, start: nat, i: nat)
    requires start <= i <= |r| && (i < |r| ==> Break(r[i]))
    ensures Longer(i - start, WordLen(r[i..], start)) == Ok(i - start)
    ensures r[start..][..i - start] == r[start..i]
  {
  }

  /** Copies one character, or the whole group it opens. */
  method CopyPiece(r: string, i: nat) returns (b: string, closed: bool)
    requires i < |r| && !Break(r[i])
    ensures closed == (PieceLen(r[i..]) > 0)
    ensures closed ==> |b| == PieceLen(r[i..]) && b == r[i..i + |b|]
  {
    b, closed := [r[i]], true;
    if r[i] == '"' || r[i] == '[' {
      var inner: string;
      inner, closed := CopyGroup(r, i + 1, if r[i] == '"' then '"' else ']');
      assert r[i..][1..] == r[i + 1..];
      b := b + inner;
    }
  }

  lemma GroupStep(r: string, i: nat, close: char)
    requires i < |r|
    ensures r[i] == close ==> GroupLen(r[i..], close) == 1
    ensures r[i] != close ==>
      GroupLen(r[i..], close) == if GroupLen(r[i + 1..], close) == 0 then 0 else GroupLen(r[i + 1..], close) + 1
  {
    assert r[i..][1..] == r[i + 1..];
  }

  /** Copies up to and including the closing character, if there is one. */
  method CopyGroup(r: string, start: nat, close: char) returns (b: string, closed: bool)
    requires start <= |r|
    ensures closed == (GroupLen(r[start..], close) > 0)
    ensures closed ==> b == r[start..start + GroupLen(r[start..], close)]
  {
    var i := start;
    b, closed := "", false;
    while i < |r|
      invariant start <= i <= |r| && b == r[start..i] && !closed
      invariant GroupLen(r[start..], close) == 0 <==> GroupLen(r[i..], close) == 0
      invariant GroupLen(r[i..], close) > 0 ==> GroupLen(r[start..], close) == i - start + GroupLen(r[i..], close)
    {
      GroupStep(r, i, close);
      b := b + [r[i]];
      assert b == r[start..i + 1];
      if r[i] == close {
        closed := true;
        assert b == r[start..start + GroupLen(r[start..], close)];
        break;
      }
      i := i + 1;
    }
  }

  // ---- The texts of terms ----

  /** A term text is a run of pieces: a plain character, a quoted phrase or a bracketed range. */
  datatype Piece = Plain(c: char) | Quoted(inner: string) | Ranged(inner: string)

  predicate Proper(p: Piece) {
    match p
    case Plain(c) => !Break(c) && c != '"' && c != '['
    case Quoted(inner) => '"' !in inner
    case Ranged(inner) => ']' !in inner
  }

  function ShowPiece(p: Piece): (s: string)
    ensures s != ""
  {
    match p
    case Plain(c) => [c]
    case Quoted(inner) => "\"" + inner + "\""
    case Ranged(inner) => "[" + inner + "]"
  }

  function ShowPieces(ps: seq<Piece>): string {
    if ps == [] then "" else ShowPiece(ps[0]) + ShowPieces(ps[1..])
  }

  ghost predicate Pieces(ps: seq<Piece>) {
    forall i :: 0 <= i < |ps| ==> Proper(ps[i])
  }

  ghost predicate Spells(ps: seq<Piece>, text: string) {
    Pieces(ps) && ShowPieces(ps) == text
  }

  ghost predicate TermText(text: string) {
    text != "" && exists ps :: Spells(ps, text)
  }

  lemma {:induction false} GroupLenOf(inner: string, close: char, after: string)
    requires close !in inner
    ensures GroupLen(inner + ([close] + after), close) == |inner| + 1
  {
    if inner == [] {
      assert inner + ([close] + after) == [close] + after;
    } else {
      assert (inner + ([close] + after))[1..] == inner[1..] + ([close] + after);
      GroupLenOf(inner[1..], close, after);
    }
  }

  lemma GroupPieceLen(open: char, close: char, inner: string, after: string)
    requires (open == '"' == close) || (open == '[' && close == ']')
    requires close !in inner
    ensures PieceLen([open] + inner + [close] + after) == |inner| + 2
  {
    hide GroupLen;
    var s := [open] + inner + [close] + after;
    assert s[1..] == inner + ([close] + after);
    GroupLenOf(inner, close, after);
  }

  lemma PieceLenOf(p: Piece, after: string)
    requires Proper(p)
    ensures PieceLen(ShowPiece(p) + after) == |ShowPiece(p)|
    ensures !Break((ShowPiece(p) + after)[0])
  {
    hide GroupLen;
    match p
    case Plain(c) =>
    case Quoted(inner) => GroupPieceLen('"', '"', inner, after);
    case Ranged(inner) => GroupPieceLen('[', ']', inner, after);
  }

  /** Reading a word reads its first piece and then the rest. */
  lemma WordStep(s: string, n: nat, rest: string, start: nat)
    requires s != "" && !Break(s[0]) && PieceLen(s) == n > 0 && s[n..] == rest
    ensures WordLen(s, start) == Longer(n, WordLen(rest, start))
  {
  }

  /** A spelled term is read to its end, whatever break or end of input follows. */
  lemma {:induction false} WordLenOf(ps: seq<Piece>, after: string, start: nat)
    requires Pieces(ps) && (after != "" ==> Break(after[0]))
    ensures WordLen(ShowPieces(ps) + after, start) == Ok(|ShowPieces(ps)|)
  {
    if ps == [] {
      assert "" + after == after;
    } else {
      WordLenOf(ps[1..], after, start);
      PieceThenWord(ps[0], ShowPieces(ps[1..]), after, start);
    }
  }

  lemma PieceThenWord(p: Piece, text: string, after: string, start: nat)
    requires Proper(p) && WordLen(text + after, start) == Ok(|text|)
    ensures WordLen(ShowPiece(p) + text + after, start) == Ok(|ShowPiece(p) + text|)
  {
    hide WordLen; hide PieceLen; hide ShowPiece; hide Proper; hide Break;
    var first, rest := ShowPiece(p), text + after;
    PieceLenOf(p, rest);
    WordStep(first + rest, |first|, rest, start);
    assert first + text + after == first + rest;
  }

  /** The piece at the front of a word. */
  function FirstPiece(s: string): (p: Piece)
    requires s != [] && !Break(s[0]) && PieceLen(s) > 0
    ensures Proper(p) && ShowPiece(p) == s[..PieceLen(s)]
  {
    var n := PieceLen(s);
    if s[0] == '"' || s[0] == '[' then
      var inner := s[1..n - 1];
      GroupLenEnds(s[1..], if s[0] == '"' then '"' else ']');
      assert s[1..][..n - 2] == inner;
      assert s[..n] == [s[0]] + inner + [s[n - 1]];
      if s[0] == '"' then Quoted(inner) else Ranged(inner)
    else Plain(s[0])
  }

  /** Conversely every word the lexer reads is spelled by pieces. */
  lemma {:induction false} WordIsTermText(s: string, start: nat) returns (ps: seq<Piece>)
    requires WordLen(s, start).Ok?
    ensures var n := WordLen(s, start).value; Spells(ps, s[..n]) && (n < |s| ==> Break(s[n]))
  {
    if s == [] || Break(s[0]) {
      ps := [];
    } else {
      var n := PieceLen(s);
      WordStep(s, n, s[n..], start);
      var qs := WordIsTermText(s[n..], start);
      ps := [FirstPiece(s)] + qs;
      AddPiece(FirstPiece(s), qs, s, n, WordLen(s[n..], start).value);
    }
  }

  lemma AddPiece(p: Piece, qs: seq<Piece>, s: string, n: nat, m: nat)
    requires n + m <= |s| && Proper(p) && ShowPiece(p) == s[..n] && Spells(qs, s[n..][..m])
    ensures Spells([p] + qs, s[..n + m])
    ensures n + m < |s| ==> s[n..][m] == s[n + m]
  {
    assert ([p] + qs)[1..] == qs;
    assert s[..n + m] == s[..n] + s[n..][..m];
  }

  // ---- Layouts: tokens with the white space and spelling in front of them ----

  datatype Laid = Laid(gap: string, spelling: string, tok: Token)

  /** White space: spaces, tabs and line ends. */
  predicate AllBlank(s: string) {
    forall i :: 0 <= i < |s| ==> s[i] == ' ' || s[i] == '\t' || s[i] == '\r' || s[i] == '\n'
  }

  const OPERATORS: set<string> := {"AND", "OR", "NOT"}

  /** The spelling is one that stands for the token: an operator word in any case, or a term as it is written. */
  ghost predicate SpellingOf(upper: char -> char, spelling: string, tok: Token) {
    match tok
    case LParen => spelling == "("
    case RParen => spelling == ")"
    case AndTok => TermText(spelling) && Fold(upper, spelling) == "AND"
    case OrTok => TermText(spelling) && Fold(upper, spelling) == "OR"
    case NotTok => TermText(spelling) && Fold(upper, spelling) == "NOT"
    case TermTok(text) => TermText(spelling) && Fold(upper, spelling) !in OPERATORS && text == spelling
  }

  lemma ClassifySpells(upper: char -> char, s: string, tok: Token)
    ensures !Paren(tok) && SpellingOf(upper, s, tok) <==> TermText(s) && Classify(upper, s) == tok
  {
    var up := Fold(upper, s);
    assert "OR"[0] != "AND"[0] && "NOT"[0] != "AND"[0] && "OR"[0] != "NOT"[0];
  }

  predicate Paren(t: Token) {
    t == LParen || t == RParen
  }

  /** Two words need white space between them; a parenthesis needs none. */
  ghost predicate LaidOut(upper: char -> char, ls: seq<Laid>) {
    && (forall i :: 0 <= i < |ls| ==>
        AllBlank(ls[i].gap) && SpellingOf(upper, ls[i].spelling, ls[i].tok))
    && (forall i :: 0 < i < |ls| ==> Paren(ls[i - 1].tok) || Paren(ls[i].tok) || ls[i].gap != "")
  }

  function ShowLaid(ls: seq<Laid>, tail: string): string {
    if ls == [] then tail else ls[0].gap + (ls[0].spelling + ShowLaid(ls[1..], tail))
  }

  function Tokens(ls: seq<Laid>): (ts: seq<Token>)
    ensures |ts| == |ls| && forall i :: 0 <= i < |ls| ==> ts[i] == ls[i].tok
  {
    seq(|ls|, i requires 0 <= i < |ls| => ls[i].tok)
  }

  lemma {:induction false} SkipBlanks(upper: char -> char, gap: string, after: string, at: nat)
    requires AllBlank(gap)
    ensures LexFrom(upper, gap + after, at) == LexFrom(upper, after, at + |gap|)
  {
    if gap == [] {
      assert gap + after == after;
    } else {
      assert (gap + after)[1..] == gap[1..] + after;
      SkipBlanks(upper, gap[1..], after, at + 1);
    }
  }

  /** The text after a word begins with a break, or is over. */
  lemma BreakFollows(upper: char -> char, ls: seq<Laid>, tail: string)
    requires LaidOut(upper, ls) && AllBlank(tail) && ls != [] && !Paren(ls[0].tok)
    ensures var after := ShowLaid(ls[1..], tail); after != "" ==> Break(after[0])
  {
    var rest := ls[1..];
    if rest != [] {
      assert rest[0] == ls[1];
      var after := ShowLaid(rest, tail);
      if rest[0].gap == "" {
        assert after[0] == rest[0].spelling[0];
      } else {
        assert after[0] == rest[0].gap[0];
      }
    }
  }

  /** Completeness: reading a layout gives its tokens. */
  lemma {:induction false} LayoutReadsBack(upper: char -> char, ls: seq<Laid>, tail: string, at: nat)
    requires LaidOut(upper, ls) && AllBlank(tail)
    ensures LexFrom(upper, ShowLaid(ls, tail), at) == Ok(Tokens(ls))
    decreases |ls|
  {
    hide LexFrom; hide SpellingOf;
    if ls == [] {
      SkipBlanks(upper, tail, "", at);
      NothingLexes(upper, at + |tail|);
      assert tail + "" == tail;
    } else {
      var l, after := ls[0], ShowLaid(ls[1..], tail);
      var j := at + |l.gap|;
      LaidOutRest(upper, ls);
      SkipBlanks(upper, l.gap, l.spelling + after, at);
      if !Paren(l.tok) {
        BreakFollows(upper, ls, tail);
      }
      ReadsToken(upper, l, after, j);
      LayoutReadsBack(upper, ls[1..], tail, j + |l.spelling|);
      assert Tokens(ls) == [l.tok] + Tokens(ls[1..]);
    }
  }

  lemma NothingLexes(upper: char -> char, at: nat)
    ensures LexFrom(upper, "", at) == Ok([])
  {
  }

  lemma LaidOutRest(upper: char -> char, ls: seq<Laid>)
    requires LaidOut(upper, ls) && ls != []
    ensures LaidOut(upper, ls[1..])
    ensures AllBlank(ls[0].gap) && SpellingOf(upper, ls[0].spelling, ls[0].tok) && ls[0].spelling != ""
  {
    var rest := ls[1..];
    assert forall n :: 0 <= n < |rest| ==> rest[n] == ls[n + 1];
  }

  lemma ReadsToken(upper: char -> char, l: Laid, after: string, at: nat)
    requires SpellingOf(upper, l.spelling, l.tok)
    requires !Paren(l.tok) && after != "" ==> Break(after[0])
    ensures LexFrom(upper, l.spelling + after, at) == Before(l.tok, LexFrom(upper, after, at + |l.spelling|))
  {
    hide WordLen; hide Classify;
    if Paren(l.tok) {
      assert (l.spelling + after)[1..] == after;
    } else {
      ClassifySpells(upper, l.spelling, l.tok);
      var ps :| Spells(ps, l.spelling);
      ReadsWord(upper, ps, l.spelling, after, at);
    }
  }

  lemma ReadsWord(upper: char -> char, ps: seq<Piece>, text: string, after: string, at: nat)
    requires Spells(ps, text) && text != "" && (after != "" ==> Break(after[0]))
    ensures LexFrom(upper, text + after, at) == Before(Classify(upper, text), LexFrom(upper, after, at + |text|))
  {
    hide WordLen; hide Classify;
    FirstNotBreak(ps);
    WordLenOf(ps, after, at);
    assert (text + after)[0] == text[0];
    assert (text + after)[|text|..] == after && (text + after)[..|text|] == text;
  }

  lemma FirstNotBreak(ps: seq<Piece>)
    requires Pieces(ps) && ShowPieces(ps) != ""
    ensures !Break(ShowPieces(ps)[0])
  {
    PieceLenOf(ps[0], ShowPieces(ps[1..]));
  }

  /** A layout of an accepted text; a text that starts with a break starts with a gap or a parenthesis. */
  ghost predicate LayoutOf(upper: char -> char, s: string, toks: seq<Token>, ls: seq<Laid>, tail: string) {
    && LaidOut(upper, ls) && AllBlank(tail) && ShowLaid(ls, tail) == s && Tokens(ls) == toks
    && (ls != [] && s != "" && Break(s[0]) && !Paren(ls[0].tok) ==> ls[0].gap != "")
  }

  /** Soundness: whatever the lexer accepts is a layout of the tokens it returns. */
  lemma {:induction false} AcceptedIsLayout(upper: char -> char, s: string, at: nat)
    returns (ls: seq<Laid>, tail: string)
    requires LexFrom(upper, s, at).Ok?
    ensures LayoutOf(upper, s, LexFrom(upper, s, at).value, ls, tail)
  {
    hide SpellingOf; hide WordLen; hide Classify;
    if s == [] {
      ls, tail := [], "";
    } else if Blank(s[0]) {
      ls, tail := AcceptedIsLayout(upper, s[1..], at + 1);
      ls, tail := WidenGap(upper, s, LexFrom(upper, s, at).value, ls, tail);
    } else {
      var n, tok := FirstToken(upper, s, at);
      ls, tail := AcceptedIsLayout(upper, s[n..], at + n);
      ls := AddToken(upper, s, n, tok, LexFrom(upper, s[n..], at + n).value, ls, tail);
    }
  }

  /** The token at the front of an accepted text, and how many characters spell it. */
  lemma FirstToken(upper: char -> char, s: string, at: nat) returns (n: nat, tok: Token)
    requires s != "" && !Blank(s[0]) && LexFrom(upper, s, at).Ok?
    ensures 0 < n <= |s| && SpellingOf(upper, s[..n], tok)
    ensures Paren(tok) || (!Break(s[0]) && (n < |s| ==> Break(s[n])))
    ensures LexFrom(upper, s, at) == Before(tok, LexFrom(upper, s[n..], at + n))
  {
    if s[0] == '(' {
      n, tok := 1, LParen;
    } else if s[0] == ')' {
      n, tok := 1, RParen;
    } else {
      n := WordLen(s, at).value;
      tok := Classify(upper, s[..n]);
      var ps := WordIsTermText(s, at);
      assert Spells(ps, s[..n]);
      ClassifySpells(upper, s[..n], tok);
    }
  }

  lemma WidenGap(upper: char -> char, s: string, toks: seq<Token>, ls: seq<Laid>, tail: string)
    returns (ls': seq<Laid>, tail': string)
    requires s != "" && Blank(s[0]) && LayoutOf(upper, s[1..], toks, ls, tail)
    ensures LayoutOf(upper, s, toks, ls', tail')
  {
    hide SpellingOf;
    if ls == [] {
      ls', tail' := ls, [s[0]] + tail;
    } else {
      var l := ls[0].(gap := [s[0]] + ls[0].gap);
      ls', tail' := [l] + ls[1..], tail;
      assert ls'[1..] == ls[1..];
      assert ShowLaid(ls', tail') == [s[0]] + ShowLaid(ls, tail);
      assert Tokens(ls') == Tokens(ls);
    }
  }

  lemma TokensCons(l: Laid, ls: seq<Laid>)
    ensures Tokens([l] + ls) == [l.tok] + Tokens(ls)
  {
  }

  lemma LaidOutCons(upper: char -> char, l: Laid, ls: seq<Laid>)
    requires LaidOut(upper, ls) && AllBlank(l.gap) && SpellingOf(upper, l.spelling, l.tok)
    requires ls != [] ==> Paren(l.tok) || Paren(ls[0].tok) || ls[0].gap != ""
    ensures LaidOut(upper, [l] + ls)
  {
    hide SpellingOf; hide AllBlank;
    var more := [l] + ls;
    assert forall i :: 0 < i < |more| ==> more[i] == ls[i - 1];
  }

  lemma AddToken(upper: char -> char, s: string, n: nat, tok: Token, toks: seq<Token>,
                 ls: seq<Laid>, tail: string)
    returns (ls': seq<Laid>)
    requires 0 < n <= |s| && SpellingOf(upper, s[..n], tok)
    requires Paren(tok) || (!Break(s[0]) && (n < |s| ==> Break(s[n])))
    requires LayoutOf(upper, s[n..], toks, ls, tail)
    ensures LayoutOf(upper, s, [tok] + toks, ls', tail)
  {
    hide SpellingOf; hide LaidOut; hide Tokens;
    var l := Laid("", s[..n], tok);
    ls' := [l] + ls;
    assert ls'[1..] == ls;
    assert ShowLaid(ls', tail) == s by {
      assert "" + (s[..n] + s[n..]) == s;
    }
    TokensCons(l, ls);
    assert n < |s| ==> s[n..][0] == s[n];
    if ls != [] {
      LaidOutRest(upper, ls);
      assert s[n..] != "";
    }
    LaidOutCons(upper, l, ls);
  }

  ghost predicate SomeLayout(upper: char -> char, r: string, toks: seq<Token>) {
    exists ls, tail :: LaysOut(upper, ls, tail, r, toks)
  }

  ghost predicate LaysOut(upper: char -> char, ls: seq<Laid>, tail: string, r: string, toks: seq<Token>) {
    LaidOut(upper, ls) && AllBlank(tail) && ShowLaid(ls, tail) == r && Tokens(ls) == toks
  }

  /** The lexer returns `toks` for exactly the texts that lay those tokens out. */
  lemma LexIff(upper: char -> char, r: string, toks: seq<Token>)
    ensures LexFrom(upper, r, 0) == Ok(toks) <==> SomeLayout(upper, r, toks)
  {
    if LexFrom(upper, r, 0) == Ok(toks) {
      var ls, tail := AcceptedIsLayout(upper, r, 0);
      assert LaysOut(upper, ls, tail, r, toks);
    }
    if SomeLayout(upper, r, toks) {
      var ls, tail :| LaysOut(upper, ls, tail, r, toks);
      LayoutReadsBack(upper, ls, tail, 0);
    }
  }
}
