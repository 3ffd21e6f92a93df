/** Leaf predicates of the query language: the term parser and the texts it reads back. */
module QueryTerm {
  import opened Text

  datatype Op = NoOp | Ge | Le | Gt | Lt | Eq | Range

  /** An optional field, an operator, and a value or a pair of bounds. */
  datatype Term = Term(field: string, op: Op, value: string, lo: string, hi: string, phrase: bool)

  datatype TermError =
    | UnknownField(field: string)
    | MalformedRange(text: string)
    | MissingOperand(op: Op)
    | MissingValue(field: string)
    | UnknownType(value: string)
    | UnknownDirection(value: string)

  /** Field names and aliases, character classes, comparisons and the finding-type vocabulary. */
  datatype Locale = Locale(
    fields: set<string>,
    aliases: map<string, string>,
    lower: char -> char,
    upper: char -> char,
    space: char -> bool,
    equalFold: (string, string) -> bool,
    knownType: string -> bool)
  {
    /** What the model needs of them: proper tables, and plain ASCII behaves as expected. */
    ghost predicate Sane() {
      && ProperTables(fields, aliases)
      && (forall c :: IdentChar(c) && !('A' <= c <= 'Z') ==> lower(c) == c)
      && (forall c :: 'A' <= c <= 'Z' || c == ' ' || Mark(c) ==> upper(c) == c)
      && !space('"')
    }

    predicate Trimmed(s: string) {
      s != [] && !space(s[0]) && !space(s[|s| - 1])
    }
  }

  /** The punctuation that the term syntax gives a meaning to. */
  predicate Mark(c: char) {
    c == ':' || c == '[' || c == '"' || c == '>' || c == '<' || c == '='
  }

  predicate IdentChar(c: char) {
    'a' <= c <= 'z' || 'A' <= c <= 'Z' || '0' <= c <= '9' || c == '_'
  }

  predicate Identifier(s: string) {
    s != [] && forall i :: 0 <= i < |s| ==> IdentChar(s[i])
  }

  /** Field names are lower-case identifiers, and aliases are other names for non-empty fields. */
  ghost predicate ProperTables(fields: set<string>, aliases: map<string, string>) {
    && (forall f :: f in fields ==> Identifier(f) && f !in aliases && NoCapital(f))
    && (forall a :: a in aliases ==> Identifier(a) && NoCapital(a) && aliases[a] in fields)
  }

  predicate NoCapital(s: string) {
    forall i :: 0 <= i < |s| ==> !('A' <= s[i] <= 'Z')
  }

  const FIELD_ALIAS: map<string, string> := map[
    "src_ip" := "src", "dst_ip" := "dst", "dst_port" := "port", "timestamp" := "ts",
    "connections" := "conns", "mean_interval" := "meanint", "median_interval" := "medint",
    "direction" := "dir", "analyst_note" := "note", "detected_at" := "detected"]

  const KNOWN_FIELDS: set<string> := {
    "id", "type", "severity", "score", "src", "dst", "port", "detail", "hostname", "sensor",
    "status", "ts", "ioc", "spectral", "ja3", "ja4", "file", "tscore", "dscore", "hist", "dur",
    "conns", "meanint", "medint", "jitter", "uri", "note", "analyst", "dir", "detected",
    "channel", "benign", "service", "attack", "outratio", "ai"}

  const DIRECTIONS: set<string> := {"outbound", "inbound", "internal", "lateral", "external"}

  // ---- The parser's pieces ----

  /** A leading identifier and colon name the field; anything else is a bare term. */
  function SplitField(loc: Locale, raw: string): (string, string) {
    var k := IndexOf(raw, ":");
    if HasPrefix(raw, "\"") || k <= 0 || !Identifier(raw[..k]) then ("", raw)
    else (Fold(loc.lower, raw[..k]), raw[k + 1..])
  }

  /** Splits at the first " TO ", in any case; both bounds must be non-empty. */
  function SplitRange(loc: Locale, s: string): Option<(string, string)> {
    var k := IndexOf(Fold(loc.upper, s), " TO ");
    if k < 0 then None
    else
      var lo, hi := TrimSpace(loc.space, s[..k]), TrimSpace(loc.space, s[k + 4..]);
      if lo == "" || hi == "" then None else Some((lo, hi))
  }

  function Symbol(op: Op): string {
    match op
    case Ge => ">="
    case Le => "<="
    case Gt => ">"
    case Lt => "<"
    case Eq => "="
    case _ => ""
  }

  /** The comparison a value starts with; the two-character ones are tried first. */
  function LeadingOp(s: string): Op {
    if HasPrefix(s, ">=") then Ge
    else if HasPrefix(s, "<=") then Le
    else if HasPrefix(s, ">") then Gt
    else if HasPrefix(s, "<") then Lt
    else if HasPrefix(s, "=") then Eq
    else NoOp
  }

  predicate QuoteWrapped(s: string) {
    |s| >= 2 && HasPrefix(s, "\"") && HasSuffix(s, "\"")
  }

  predicate Bracketed(s: string) {
    |s| >= 2 && HasPrefix(s, "[") && HasSuffix(s, "]")
  }

  /** Only `type` and `dir` have a closed vocabulary. */
  function FieldValueError(loc: Locale, field: string, value: string): Option<TermError> {
    if field == "type" && !loc.equalFold(value, "beacons") && !loc.knownType(value) then
      Some(UnknownType(value))
    else if field == "dir" && Fold(loc.lower, value) !in DIRECTIONS then Some(UnknownDirection(value))
    else None
  }

  function ResolveField(loc: Locale, name: string): string {
    if name != "" && name in loc.aliases then loc.aliases[name] else name
  }

  /** What a comparison compares with: trimmed, and without the quotes that carry spaces. */
  function Operand(loc: Locale, s: string): string {
    var v := TrimSpace(loc.space, s);
    if QuoteWrapped(v) then v[1..|v| - 1] else v
  }

  /** The value part of a term, once its field is known. */
  function BodyOf(loc: Locale, field: string, rest: string): Result<Term, TermError> {
    var blank := Term(field, NoOp, "", "", "", false);
    var op := LeadingOp(rest);
    if Bracketed(rest) then
      match SplitRange(loc, rest[1..|rest| - 1])
      case Some((lo, hi)) => Ok(blank.(op := Range, lo := lo, hi := hi))
      case None => Err(MalformedRange(rest))
    else if op != NoOp then
      var value := Operand(loc, rest[|Symbol(op)|..]);
      if value == "" then Err(MissingOperand(op)) else Ok(blank.(op := op, value := value))
    else if QuoteWrapped(rest) then
      Checked(loc, blank.(value := rest[1..|rest| - 1], phrase := true))
    else if field != "" && rest == "" then Err(MissingValue(field))
    else Checked(loc, blank.(value := rest))
  }

  function Checked(loc: Locale, t: Term): Result<Term, TermError> {
    match FieldValueError(loc, t.field, t.value)
    case Some(e) => Err(e)
    case None => Ok(t)
  }

  function TermOf(loc: Locale, raw: string): Result<Term, TermError> {
    var (name, rest) := SplitField(loc, raw);
    NamedTerm(loc, name, rest)
  }

  function NamedTerm(loc: Locale, name: string, rest: string): Result<Term, TermError> {
    var field := ResolveField(loc, name);
    if name != "" && field !in loc.fields then Err(UnknownField(field)) else BodyOf(loc, field, rest)
  }

  /** The parser proper: fills the record step by step and leaves at the first shape that fits. */
  method ParseTerm(loc: Locale, raw: string) returns (r: Result<Term, TermError>)
    ensures r == TermOf(loc, raw)
  {
    var (field, rest) := SplitField(loc, raw);
    if field != "" {
      if field in loc.aliases {
        field := loc.aliases[field];
      }
      if field !in loc.fields {
        return Err(UnknownField(field));
      }
    }
    r := ParseBody(loc, field, rest);
  }

  method ParseBody(loc: Locale, field: string, rest: string) returns (r: Result<Term, TermError>)
    ensures r == BodyOf(loc, field, rest)
  {
    hide SplitRange; hide Operand; hide FieldValueError; hide LeadingOp; hide Symbol;
    var t := Term(field, NoOp, "", "", "", false);
    if Bracketed(rest) {
      var bounds := SplitRange(loc, rest[1..|rest| - 1]);
      if bounds.None? {
        return Err(MalformedRange(rest));
      }
      t := t.(op := Range);
      t := t.(lo := bounds.value.0, hi := bounds.value.1);
      return Ok(t);
    }
    var ops := [Ge, Le, Gt, Lt, Eq];
    for i := 0 to |ops|
      invariant forall j :: 0 <= j < i ==> !HasPrefix(rest, Symbol(ops[j]))
    {
      if HasPrefix(rest, Symbol(ops[i])) {
        FirstOp(rest, ops, i);
        t := t.(op := ops[i]);
        t := t.(value := Operand(loc, rest[|Symbol(ops[i])|..]));
        if t.value == "" {
          return Err(MissingOperand(ops[i]));
        }
        return Ok(t);
      }
    }
    FirstOp(rest, ops, |ops|);
    if QuoteWrapped(rest) {
      t := t.(phrase := true);
      t := t.(value := rest[1..|rest| - 1]);
    } else {
      if field != "" && rest == "" {
        return Err(MissingValue(field));
      }
      t := t.(value := rest);
    }
    var bad := FieldValueError(loc, field, t.value);
    if bad.Some? {
      return Err(bad.value);
    }
    return Ok(t);
  }

  /** Trying the comparisons in order finds the leading one. */
  lemma FirstOp(rest: string, ops: seq<Op>, i: nat)
    requires ops == [Ge, Le, Gt, Lt, Eq] && i <= |ops|
    requires forall j :: 0 <= j < i ==> !HasPrefix(rest, Symbol(ops[j]))
    requires i < |ops| ==> HasPrefix(rest, Symbol(ops[i]))
    ensures LeadingOp(rest) == if i < |ops| then ops[i] else NoOp
  {
    assert i > 0 ==> !HasPrefix(rest, Symbol(ops[0]));
    assert i > 1 ==> !HasPrefix(rest, Symbol(ops[1]));
    assert i > 2 ==> !HasPrefix(rest, Symbol(ops[2]));
    assert i > 3 ==> !HasPrefix(rest, Symbol(ops[3]));
    assert i > 4 ==> !HasPrefix(rest, Symbol(ops[4]));
  }

  // ---- Writing a term out, and reading it back ----

  function Quote(s: string): (r: string)
    ensures QuoteWrapped(r) && r[1..|r| - 1] == s
  {
    "\"" + s + "\""
  }

  /** `quoted` chooses whether a compared value is wrapped in quotes. */
  function Body(t: Term, quoted: bool): string {
    match t.op
    case Range => "[" + (t.lo + " TO " + t.hi) + "]"
    case NoOp => if t.phrase then Quote(t.value) else t.value
    case _ => Symbol(t.op) + if quoted then Quote(t.value) else t.value
  }

  function Show(t: Term, quoted: bool): string {
    if t.field == "" then Body(t, quoted) else t.field + ":" + Body(t, quoted)
  }

  /** Terms that some text stands for, with the way each has to be written. */
  predicate Writable(loc: Locale, t: Term, quoted: bool) {
    (t.field == "" || t.field in loc.fields) && WritableBody(loc, t, quoted)
  }

  predicate WritableBody(loc: Locale, t: Term, quoted: bool) {
    match t.op
    case Range =>
      && t.value == "" && !t.phrase
      && loc.Trimmed(t.lo) && loc.Trimmed(t.hi)
      && IndexOf(Fold(loc.upper, t.lo + " TO"), " TO ") < 0
    case NoOp =>
      && t.lo == "" && t.hi == ""
      && Allowed(loc, t.field, t.value)
      && (t.phrase || PlainValue(loc, t.field, t.value))
    case _ =>
      && t.lo == "" && t.hi == "" && !t.phrase && t.value != ""
      && (quoted || ComparedValue(loc, t.op, t.value))
  }

  /** A type is a known one or all beacons, a direction is one of five, and other fields take any value. */
  predicate Allowed(loc: Locale, field: string, value: string) {
    && (field == "type" ==> loc.equalFold(value, "beacons") || loc.knownType(value))
    && (field == "dir" ==> Fold(loc.lower, value) in DIRECTIONS)
  }

  lemma AllowedIff(loc: Locale, field: string, value: string)
    ensures Allowed(loc, field, value) <==> FieldValueError(loc, field, value).None?
  {
    assert "type"[0] != "dir"[0];
  }

  /** An unquoted value must not look like a range, a comparison, a phrase, or (bare) a field. */
  predicate PlainValue(loc: Locale, field: string, value: string) {
    && !Bracketed(value) && LeadingOp(value) == NoOp && !QuoteWrapped(value)
    && (if field == "" then !NamesField(value) else value != "")
  }

  /** The text up to some colon is an identifier. */
  predicate NamesField(raw: string) {
    exists k :: 0 < k < |raw| && raw[k] == ':' && Identifier(raw[..k])
  }

  predicate ComparedValue(loc: Locale, op: Op, value: string) {
    && loc.Trimmed(value) && !QuoteWrapped(value)
    && (op in {Gt, Lt} ==> value[0] != '=')
  }

  lemma TrimTrimmed(loc: Locale, s: string)
    requires loc.Trimmed(s)
    ensures TrimSpace(loc.space, s) == s
  {
  }

  /** Writing " TO " between two trimmed bounds puts the first separator right after the low bound. */
  lemma SeparatorIndex(loc: Locale, lo: string, hi: string)
    requires loc.Sane()
    requires IndexOf(Fold(loc.upper, lo + " TO"), " TO ") < 0
    ensures IndexOf(Fold(loc.upper, lo + " TO " + hi), " TO ") == |lo|
  {
    var up, head := Fold(loc.upper, lo + " TO " + hi), Fold(loc.upper, lo + " TO");
    assert up[..|lo| + 3] == head;
    assert up[|lo|..][..4] == " TO ";
    assert OccursAt(" TO ", up, |lo|);
    forall k | 0 <= k < |lo| ensures !OccursAt(" TO ", up, k) {
      assert head[k..] == up[k..][..|lo| + 3 - k];
      assert !OccursAt(" TO ", head, k);
    }
  }

  lemma RangeSplits(loc: Locale, lo: string, hi: string)
    requires loc.Sane() && loc.Trimmed(lo) && loc.Trimmed(hi)
    requires IndexOf(Fold(loc.upper, lo + " TO"), " TO ") < 0
    ensures SplitRange(loc, lo + " TO " + hi) == Some((lo, hi))
  {
    var s := lo + " TO " + hi;
    SeparatorIndex(loc, lo, hi);
    assert s[..|lo|] == lo && s[|lo| + 4..] == hi;
    TrimTrimmed(loc, lo);
    TrimTrimmed(loc, hi);
  }

  lemma BodyReadsBack(loc: Locale, t: Term, quoted: bool)
    requires loc.Sane() && WritableBody(loc, t, quoted)
    ensures BodyOf(loc, t.field, Body(t, quoted)) == Ok(t)
  {
    AllowedIff(loc, t.field, t.value);
    hide Allowed; hide FieldValueError; hide SplitRange; hide ProperTables;
    var b := Body(t, quoted);
    if t.op == Range {
      RangeSplits(loc, t.lo, t.hi);
      RangeReadsBack(loc, t);
    } else if t.op == NoOp {
      assert t.phrase ==> b[0] == '"';
    } else {
      ComparisonReadsBack(loc, t, quoted);
    }
  }

  lemma RangeReadsBack(loc: Locale, t: Term)
    requires t.op == Range && t.value == "" && !t.phrase
    requires SplitRange(loc, t.lo + " TO " + t.hi) == Some((t.lo, t.hi))
    ensures BodyOf(loc, t.field, Body(t, false)) == BodyOf(loc, t.field, Body(t, true)) == Ok(t)
  {
    var b := Body(t, false);
    assert b[0] == '[' && b[|b| - 1] == ']';
    assert b[1..|b| - 1] == t.lo + " TO " + t.hi;
  }

  lemma ComparisonReadsBack(loc: Locale, t: Term, quoted: bool)
    requires loc.Sane() && WritableBody(loc, t, quoted) && t.op != Range && t.op != NoOp
    ensures BodyOf(loc, t.field, Body(t, quoted)) == Ok(t)
  {
    var b := Body(t, quoted);
    var v := if quoted then Quote(t.value) else t.value;
    assert b[|Symbol(t.op)|..] == v;
    LeadingOpOf(t.op, v);
    assert loc.Trimmed(v);
    TrimTrimmed(loc, v);
  }

  lemma LeadingOpOf(op: Op, v: string)
    requires op != Range && op != NoOp && v != "" && (op in {Gt, Lt} ==> v[0] != '=')
    ensures LeadingOp(Symbol(op) + v) == op && !Bracketed(Symbol(op) + v)
  {
    var b := Symbol(op) + v;
    assert b[0] == Symbol(op)[0] && (|Symbol(op)| == 1 ==> b[1] == v[0]);
    assert |Symbol(op)| == 2 ==> b[1] == Symbol(op)[1];
  }

  lemma FieldSplits(loc: Locale, field: string, body: string)
    requires loc.Sane() && field in loc.fields
    ensures SplitField(loc, field + ":" + body) == (field, body)
  {
    var raw := field + ":" + body;
    assert raw[|field|..][..1] == ":";
    assert OccursAt(":", raw, |field|);
    var k := IndexOf(raw, ":");
    assert raw[k..][0] == raw[k] == ':';
    assert forall i :: 0 <= i < |field| ==> raw[i] == field[i];
    assert k == |field|;
    assert raw[..k] == field && raw[k + 1..] == body;
    assert Fold(loc.lower, field) == field;
    assert raw[0] == field[0];
  }

  /** A text whose first character cannot start a field name is read as a bare term. */
  lemma BareSplits(loc: Locale, raw: string)
    requires raw != "" && !IdentChar(raw[0])
    ensures SplitField(loc, raw) == ("", raw)
  {
    var k := IndexOf(raw, ":");
    assert k > 0 ==> raw[..k][0] == raw[0];
  }

  /** Term round trip: the text of a writable term parses to that very term. */
  lemma TermRoundTrip(loc: Locale, t: Term, quoted: bool)
    requires loc.Sane() && Writable(loc, t, quoted)
    ensures TermOf(loc, Show(t, quoted)) == Ok(t)
  {
    BodyReadsBack(loc, t, quoted);
    if t.field == "" {
      BareBodySplits(loc, t, quoted);
    } else {
      FieldSplits(loc, t.field, Body(t, quoted));
    }
  }

  lemma BareBodySplits(loc: Locale, t: Term, quoted: bool)
    requires t.field == "" && WritableBody(loc, t, quoted)
    ensures SplitField(loc, Body(t, quoted)) == ("", Body(t, quoted))
  {
    if t.op != NoOp || t.phrase {
      var b := Body(t, quoted);
      assert b[0] == if t.op == Range then '[' else if t.phrase then '"' else Symbol(t.op)[0];
      BareSplits(loc, b);
    }
  }

  /**
   A bare value is readable exactly when it is none of the other shapes; in
   particular a value such as an IPv6 address, whose text up to its first colon
   is an identifier, is taken for a field.
   */
  lemma BareValueReadsBackIff(loc: Locale, value: string)
    requires loc.Sane()
    ensures TermOf(loc, value) == Ok(Term("", NoOp, value, "", "", false)) <==> PlainValue(loc, "", value)
  {
    var (name, rest) := SplitField(loc, value);
    if NamesField(value) {
      FieldSplitsOff(loc, value);
    } else {
      NoFieldSplits(loc, value);
    }
    if name == "" {
      BareBody(loc, value);
    } else {
      NamedKeepsField(loc, name, rest);
      assert ResolveField(loc, name) in loc.fields ==> ResolveField(loc, name) != "";
    }
  }

  /** A named term that is accepted carries the field its name resolves to, a known one. */
  lemma NamedKeepsField(loc: Locale, name: string, rest: string)
    requires name != ""
    ensures NamedTerm(loc, name, rest).Ok? ==>
      NamedTerm(loc, name, rest).value.field == ResolveField(loc, name) && ResolveField(loc, name) in loc.fields
  {
    BodyKeepsField(loc, ResolveField(loc, name), rest);
  }

  lemma BodyKeepsField(loc: Locale, field: string, rest: string)
    ensures BodyOf(loc, field, rest).Ok? ==> BodyOf(loc, field, rest).value.field == field
  {
  }

  lemma BareBody(loc: Locale, value: string)
    ensures BodyOf(loc, "", value) == Ok(Term("", NoOp, value, "", "", false)) <==>
              !Bracketed(value) && LeadingOp(value) == NoOp && !QuoteWrapped(value)
  {
  }

  /** The program's own tables are proper. */
  lemma ArcherTables()
    ensures ProperTables(KNOWN_FIELDS, FIELD_ALIAS)
  {
    forall f | f in KNOWN_FIELDS ensures Identifier(f) && f !in FIELD_ALIAS && NoCapital(f) {
      KnownFieldProper(f);
      KnownFieldNoAlias(f);
    }
    forall a | a in FIELD_ALIAS ensures Identifier(a) && NoCapital(a) && FIELD_ALIAS[a] in KNOWN_FIELDS {
      AliasProper(a);
    }
  }

  lemma AliasProper(a: string)
    requires a in FIELD_ALIAS
    ensures Identifier(a) && NoCapital(a) && FIELD_ALIAS[a] in KNOWN_FIELDS
  {
  }

  /** Writing an alias is writing the field it stands for. */
  lemma AliasReads(loc: Locale, a: string, rest: string)
    requires loc.Sane() && a in loc.aliases
    ensures TermOf(loc, a + ":" + rest) == TermOf(loc, loc.aliases[a] + ":" + rest)
  {
    hide SplitField; hide BodyOf; hide NoCapital;
    var field := loc.aliases[a];
    assert Fold(loc.lower, a) == a && Fold(loc.lower, field) == field by {
      LowerStays(loc, a);
      LowerStays(loc, field);
    }
    IdentifierSplits(loc, a, rest);
    IdentifierSplits(loc, field, rest);
  }

  lemma LowerStays(loc: Locale, name: string)
    requires loc.Sane() && Identifier(name) && NoCapital(name)
    ensures Fold(loc.lower, name) == name
  {
  }

  lemma KnownFieldProper(f: string)
    requires f in KNOWN_FIELDS
    ensures Identifier(f) && NoCapital(f)
  {
  }

  lemma KnownFieldNoAlias(f: string)
    requires f in KNOWN_FIELDS
    ensures f !in FIELD_ALIAS
  {
    ShortName(f);
    if f in FIELD_ALIAS {
      AliasName(f);
    }
  }

  lemma ShortName(f: string)
    requires f in KNOWN_FIELDS
    ensures |f| <= 8 && (|f| > 3 ==> f[3] != '_')
  {
  }

  lemma AliasName(a: string)
    requires a in FIELD_ALIAS
    ensures |a| > 8 || (|a| > 3 && a[3] == '_')
  {
  }

  lemma IdentifierSplits(loc: Locale, name: string, rest: string)
    requires Identifier(name)
    ensures SplitField(loc, name + ":" + rest) == (Fold(loc.lower, name), rest)
  {
    var raw := name + ":" + rest;
    assert raw[|name|..][..1] == ":";
    assert OccursAt(":", raw, |name|);
    var k := IndexOf(raw, ":");
    assert raw[k..][0] == raw[k] == ':';
    assert forall i :: 0 <= i < |name| ==> raw[i] == name[i];
    assert k == |name| && raw[..k] == name && raw[k + 1..] == rest;
    assert raw[0] == name[0];
  }

  /** Any other text, whatever dots, dashes or colons it holds, is a bare term. */
  lemma NoFieldSplits(loc: Locale, raw: string)
    requires !NamesField(raw)
    ensures SplitField(loc, raw) == ("", raw)
  {
    hide Identifier;
    var k := IndexOf(raw, ":");
    if k > 0 {
      assert OccursAt(":", raw, k);
      assert raw[k..][0] == raw[k] == ':';
    }
  }

  lemma FieldSplitsOff(loc: Locale, raw: string)
    requires NamesField(raw)
    ensures SplitField(loc, raw).0 != ""
  {
    var k :| 0 < k < |raw| && raw[k] == ':' && Identifier(raw[..k]);
    assert raw == raw[..k] + ":" + raw[k + 1..];
    IdentifierSplits(loc, raw[..k], raw[k + 1..]);
    assert |Fold(loc.lower, raw[..k])| == k;
  }

  lemma NamesFieldMeans(raw: string)
    ensures NamesField(raw) <==> exists name, rest :: Identifier(name) && raw == name + ":" + rest
  {
    if NamesField(raw) {
      var k :| 0 < k < |raw| && raw[k] == ':' && Identifier(raw[..k]);
      assert raw == raw[..k] + ":" + raw[k + 1..];
    }
    if name, rest :| Identifier(name) && raw == name + ":" + rest {
      assert raw[..|name|] == name && raw[|name|] == ':';
    }
  }

  /** Only a text that names a field is read as one: an address with a port, or a host name with one, is searched for as it stands. */
  lemma OtherwiseBare(loc: Locale, raw: string)
    requires forall name, rest :: Identifier(name) ==> raw != name + ":" + rest
    ensures TermOf(loc, raw) == BodyOf(loc, "", raw)
    ensures PlainText(raw) ==> TermOf(loc, raw) == Ok(Term("", NoOp, raw, "", "", false))
  {
    hide Identifier; hide SplitField;
    NamesFieldMeans(raw);
    NoFieldSplits(loc, raw);
    if PlainText(raw) {
      PlainTextReads(loc, raw);
    }
  }

  /** The text begins with no comparison, and is neither in brackets nor in quotes. */
  predicate PlainText(raw: string) {
    raw != "" && raw[0] !in "<>=" && !Within(raw, '[', ']') && !Within(raw, '"', '"')
  }

  predicate Within(raw: string, open: char, close: char) {
    |raw| >= 2 && raw[0] == open && raw[|raw| - 1] == close
  }

  lemma WithinIff(raw: string)
    ensures Within(raw, '[', ']') <==> Bracketed(raw)
    ensures Within(raw, '"', '"') <==> QuoteWrapped(raw)
  {
  }

  lemma PlainTextReads(loc: Locale, raw: string)
    requires PlainText(raw)
    ensures BodyOf(loc, "", raw) == Ok(Term("", NoOp, raw, "", "", false))
  {
    WithinIff(raw);
    assert raw[0] in raw;
    BareBody(loc, raw);
  }

  /** Such as an address followed by a port. */
  lemma AddressWithPort(loc: Locale)
    ensures TermOf(loc, "10.0.0.5:443") == Ok(Term("", NoOp, "10.0.0.5:443", "", "", false))
  {
    hide Identifier; hide SplitField;
    var raw := "10.0.0.5:443";
    forall k | 0 < k < |raw| && raw[k] == ':'
      ensures !Identifier(raw[..k])
    {
      DotInside(raw[..k]);
    }
    NamesFieldMeans(raw);
    OtherwiseBare(loc, raw);
  }

  lemma DotInside(s: string)
    requires |s| > 2 && s[2] == '.'
    ensures !Identifier(s)
  {
  }

  /**
   Conversely every accepted term can be written: it has a value that its field allows, a
   comparison has an operand, and both bounds of a range are trimmed and not empty.
   */
  lemma AcceptedIsWritable(loc: Locale, raw: string, t: Term)
    requires loc.Sane() && TermOf(loc, raw) == Ok(t)
    ensures t.field == "" || t.field in loc.fields
    ensures if t.op == Range then t.value == "" && !t.phrase && loc.Trimmed(t.lo) && loc.Trimmed(t.hi) else WritableBody(loc, t, true)
  {
    hide FieldValueError; hide NoCapital; hide BodyOf;
    var (name, rest) := SplitField(loc, raw);
    if name != "" {
      NamedKeepsField(loc, name, rest);
      assert ResolveField(loc, name) != "" by {
        assert Identifier(ResolveField(loc, name));
      }
      BodyIsWritable(loc, ResolveField(loc, name), rest, t);
    } else {
      if NamesField(raw) {
        FieldSplitsOff(loc, raw);
      }
      assert rest == raw;
      BodyIsWritable(loc, "", rest, t);
    }
  }

  lemma BodyIsWritable(loc: Locale, field: string, rest: string, t: Term)
    requires BodyOf(loc, field, rest) == Ok(t) && (field == "" ==> !NamesField(rest))
    ensures t.field == field
    ensures if t.op == Range then t.value == "" && !t.phrase && loc.Trimmed(t.lo) && loc.Trimmed(t.hi) else WritableBody(loc, t, true)
  {
    AllowedIff(loc, field, t.value);
    hide Identifier; hide FieldValueError; hide NamesField; hide TrimSpace; hide Allowed;
    assert LeadingOp(rest) != Range;
  }

  /** A leading operator asks for an operand that is not blank, brackets for a range, and a named field for a value. */
  lemma RejectedBodies(loc: Locale, field: string, op: Op, blanks: string, text: string)
    requires op != Range && op != NoOp && forall i :: 0 <= i < |blanks| ==> loc.space(blanks[i]) && blanks[i] != '='
    requires field != "" && LeadingOp(text) == NoOp && !QuoteWrapped(text) && !Bracketed(text) && text != ""
    ensures BodyOf(loc, field, Symbol(op) + blanks) == Err(MissingOperand(op))
    ensures BodyOf(loc, field, "") == Err(MissingValue(field)) && BodyOf(loc, field, "[]") == Err(MalformedRange("[]"))
    ensures IndexOf(Fold(loc.upper, text), " TO ") < 0 ==> BodyOf(loc, field, "[" + text + "]") == Err(MalformedRange("[" + text + "]"))
    ensures field == "dir" && Fold(loc.lower, text) !in DIRECTIONS ==> BodyOf(loc, field, text) == Err(UnknownDirection(text))
    ensures field == "type" && !loc.equalFold(text, "beacons") && !loc.knownType(text) ==> BodyOf(loc, field, text) == Err(UnknownType(text))
  {
    hide IndexOf;
    BlankOperand(loc, op, blanks);
    var range := "[" + text + "]";
    assert range[0] == '[' && range[|range| - 1] == ']' && range[1..|range| - 1] == text;
  }

  lemma BlankOperand(loc: Locale, op: Op, blanks: string)
    requires op != Range && op != NoOp && forall i :: 0 <= i < |blanks| ==> loc.space(blanks[i]) && blanks[i] != '='
    ensures LeadingOp(Symbol(op) + blanks) == op && !Bracketed(Symbol(op) + blanks)
    ensures Operand(loc, (Symbol(op) + blanks)[|Symbol(op)|..]) == ""
  {
    AllTrimmed(loc.space, blanks);
    assert (Symbol(op) + blanks)[|Symbol(op)|..] == blanks;
    if blanks == "" {
      var s := Symbol(op);
      assert s + blanks == s && s[0] in "><=" && s[0] != '[' && (|s| == 2 ==> s[1] == '=');
      assert |s| == 1 ==> !HasPrefix(s, ">=") && !HasPrefix(s, "<=");
    } else {
      LeadingOpOf(op, blanks);
    }
  }

  lemma {:induction false} AllTrimmed(space: char -> bool, s: string)
    requires forall i :: 0 <= i < |s| ==> space(s[i])
    ensures TrimSpace(space, s) == ""
  {
    if s != "" {
      AllTrimmed(space, s[1..]);
    }
  }

  /**
   A text that begins with an identifier and a colon is never a bare term: it is rejected
   unless the identifier names a known field, and then carries that field.
   */
  lemma ColonReadsAsField(loc: Locale, name: string, rest: string)
    requires Identifier(name)
    ensures var field, r := ResolveField(loc, Fold(loc.lower, name)), TermOf(loc, name + ":" + rest);
      if field in loc.fields then r.Ok? ==> r.value.field == field else r == Err(UnknownField(field))
  {
    hide SplitField;
    IdentifierSplits(loc, name, rest);
    assert |Fold(loc.lower, name)| == |name|;
    NamedKeepsField(loc, Fold(loc.lower, name), rest);
  }

  /** So an IPv6 address without quotes is rejected, unless it begins with a colon. */
  lemma Ipv6Addresses(loc: Locale)
    requires loc.Sane() && loc.fields == KNOWN_FIELDS && loc.aliases == FIELD_ALIAS
    ensures TermOf(loc, "fe80::1") == Err(UnknownField("fe80"))
    ensures TermOf(loc, "::1") == Ok(Term("", NoOp, "::1", "", "", false))
  {
    hide SplitField; hide BodyOf; hide TermOf; hide Identifier; hide Fold; hide Locale.Sane;
    Fe80(loc);
    ColonReadsAsField(loc, "fe80", ":1");
    UnknownName("fe80");
    Loopback(loc);
  }

  lemma Fe80(loc: Locale)
    requires loc.Sane()
    ensures Identifier("fe80") && Fold(loc.lower, "fe80") == "fe80" && "fe80" + ":" + ":1" == "fe80::1"
  {
  }

  lemma Loopback(loc: Locale)
    ensures TermOf(loc, "::1") == Ok(Term("", NoOp, "::1", "", "", false))
  {
    hide SplitField; hide BodyOf;
    BareSplits(loc, "::1");
    BareBody(loc, "::1");
  }

  lemma UnknownName(name: string)
    requires name == "fe80"
    ensures name !in KNOWN_FIELDS && name !in FIELD_ALIAS
  {
    if name in FIELD_ALIAS {
      AliasName(name);
    }
  }
}
