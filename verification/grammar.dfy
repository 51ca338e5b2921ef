/**
 * The recursive-descent grammar of the schema language, as pure functions of
 * a token sequence and a cursor.  Each function is one parsing routine of the
 * parser: it starts at cursor `i` and either succeeds with a node and the
 * cursor after it, or fails with the error it throws and the cursor at which
 * it throws it (the parser recovers from that cursor).
 */
module Grammar {
  import opened Wrappers
  import opened Tokens
  import opened Ast
  import opened Lexical

  // ---------------------------------------------------------------------
  // The token cursor

  /** A token stream the parser accepts: non-empty and ended by the EOF token. */
  predicate WellFormed(ts: seq<Token>) {
    |ts| > 0 && ts[|ts| - 1].kind == Eof
  }

  predicate AtEnd(ts: seq<Token>, i: nat)
    requires i < |ts|
  {
    ts[i].kind == Eof
  }

  /** The current token has the given type; never holds at the end. */
  predicate Check(ts: seq<Token>, i: nat, kind: TokenType)
    requires i < |ts|
  {
    !AtEnd(ts, i) && ts[i].kind == kind
  }

  /** The cursor after `advance`: one further, except on the EOF token. */
  function Advanced(ts: seq<Token>, i: nat): (j: nat)
    requires WellFormed(ts) && i < |ts|
    ensures i <= j < |ts|
  {
    if AtEnd(ts, i) then i else i + 1
  }

  /** The token after the current one, or the last token when there is none. */
  function PeekNext(ts: seq<Token>, i: nat): Token
    requires WellFormed(ts) && i < |ts|
  {
    if i + 1 >= |ts| then ts[|ts| - 1] else ts[i + 1]
  }

  // ---------------------------------------------------------------------
  // Decimal rendering of the line and column in error messages

  function DigitChar(d: nat): (c: char)
    requires d < 10
    ensures IsDigit(c) && DigitValue(c) == d
  {
    ('0' as int + d) as char
  }

  /** The decimal numeral of n, without leading zeros. */
  function NatToString(n: nat): (r: string)
    ensures |r| >= 1 && forall k :: 0 <= k < |r| ==> IsDigit(r[k])
    ensures r[0] == '0' <==> n == 0
    ensures n < 10 ==> |r| == 1
    decreases n
  {
    if n < 10 then [DigitChar(n)] else NatToString(n / 10) + [DigitChar(n % 10)]
  }

  /** The value of a string of decimal digits. */
  function DigitsValue(r: string): nat
    requires forall k :: 0 <= k < |r| ==> IsDigit(r[k])
  {
    if r == [] then 0 else 10 * DigitsValue(r[..|r| - 1]) + DigitValue(r[|r| - 1])
  }

  function DigitValue(c: char): nat
    requires IsDigit(c)
  {
    c as int - '0' as int
  }

  /** Reading the numeral back gives the number. */
  lemma {:induction false} NatToStringRoundTrip(n: nat)
    ensures DigitsValue(NatToString(n)) == n
    decreases n
  {
    if n >= 10 {
      NatToStringRoundTrip(n / 10);
      var r := NatToString(n);
      assert r[..|r| - 1] == NatToString(n / 10);
    }
  }

  /**
   * How a template literal renders an integer: its decimal numeral without
   * leading zeros, after a minus sign when it is negative.
   */
  function IntToString(n: int): (r: string)
    ensures n >= 0 ==> |r| >= 1 && (forall k :: 0 <= k < |r| ==> IsDigit(r[k])) && DigitsValue(r) == n
    ensures n >= 0 ==> (r[0] == '0' ==> |r| == 1)
    ensures n < 0 ==> |r| >= 2 && r[0] == '-' && r[1] != '0'
    ensures n < 0 ==> (forall k :: 1 <= k < |r| ==> IsDigit(r[k])) && DigitsValue(r[1..]) == -n
  {
    if n < 0 then
      NatToStringRoundTrip(-n);
      var digits := NatToString(-n);
      assert ("-" + digits)[1..] == digits;
      "-" + digits
    else
      NatToStringRoundTrip(n);
      NatToString(n)
  }

  /** `substring` does not care in which order its bounds come, and takes the whole string when both bounds lie outside it. */
  lemma JsSubstringSymmetric(s: string, start: int, end: int)
    ensures JsSubstring(s, start, end) == JsSubstring(s, end, start)
    ensures start <= 0 && |s| <= end ==> JsSubstring(s, start, end) == s
  {
  }

  // ---------------------------------------------------------------------
  // Outcomes

  /**
   * A thrown parse error.  Its message is the routine's reason followed by
   * the line and column of the token it was thrown on; the model keeps those
   * two parts and Message() renders the text.
   */
  datatype SchemaParsingError = SchemaParsingError(reason: string, position: SourcePosition)
  {
    function Message(): (m: string)
      ensures |reason| < |m| && m[..|reason|] == reason
      ensures m[|reason|..] == " at line " + IntToString(position.line) + ", column " + IntToString(position.column)
    {
      reason + " at line " + IntToString(position.line) + ", column " + IntToString(position.column)
    }
  }

  /** The error thrown with the cursor on token i. */
  function ErrorAt(ts: seq<Token>, i: nat, message: string): (e: SchemaParsingError)
    requires i < |ts|
    ensures e.reason == message && e.position == ts[i].position
  {
    SchemaParsingError(message, ts[i].position)
  }

  /**
   * A parsing routine either returns a value and the cursor after it, or
   * throws at cursor `at` the error built from `reason` and the token there.
   */
  datatype Parsed<+T> =
    | Success(value: T, next: nat)
    | Failure(reason: string, at: nat)

  /** The error a failed routine throws. */
  function Thrown<T>(ts: seq<Token>, r: Parsed<T>): SchemaParsingError
    requires r.Failure? && r.at < |ts|
  {
    ErrorAt(ts, r.at, r.reason)
  }

  /**
   * The cursor discipline of a routine started at i: a success stops at or
   * after `least` and still inside the stream, and a failure is thrown at a
   * token no earlier than i.
   */
  predicate Within<T>(ts: seq<Token>, i: nat, least: nat, r: Parsed<T>) {
    match r
    case Success(_, next) => least <= next < |ts|
    case Failure(_, at) => i <= at < |ts|
  }

  function Consume(ts: seq<Token>, i: nat, kind: TokenType, message: string): (r: Parsed<Token>)
    requires WellFormed(ts) && i < |ts|
    ensures Within(ts, i, i + 1, r)
    ensures r.Success? <==> Check(ts, i, kind)
    ensures r.Success? ==> r.value == ts[i] && r.next == i + 1
    ensures r.Failure? ==> r.at == i && r.reason == message
  {
    if Check(ts, i, kind) then Success(ts[i], i + 1) else Failure(message, i)
  }

  // ---------------------------------------------------------------------
  // Values

  /**
   * JavaScript's `substring`: both bounds clamped to the string, swapped when
   * reversed.  Bounds in order inside the string take the plain slice.
   */
  function JsSubstring(s: string, start: int, end: int): (r: string)
    ensures |r| <= |s|
    ensures 0 <= start <= end <= |s| ==> r == s[start..end]
  {
    var a := if start < 0 then 0 else if start > |s| then |s| else start;
    var b := if end < 0 then 0 else if end > |s| then |s| else end;
    if a <= b then s[a..b] else s[b..a]
  }

  /** The text of a string token without its first and last character. */
  function StripQuotes(s: string): (r: string)
    ensures |s| >= 2 ==> r == s[1..|s| - 1]
    ensures |s| == 1 ==> r == s
    ensures |s| == 0 ==> r == ""
  {
    JsSubstring(s, 1, |s| - 1)
  }

  /** A quoted text loses exactly its two quotes. */
  lemma StripQuotesInverse(quote: char, text: string)
    ensures StripQuotes([quote] + text + [quote]) == text
  {
    var s := [quote] + text + [quote];
    assert s[1..|s| - 1] == text;
  }

  /** The token types a value can start with. */
  predicate StartsValue(kind: TokenType) {
    kind == String || kind == Number || kind == Boolean || kind == BracketLeft || kind == Identifier
  }

  /** A value built only from the five kinds the grammar writes: no null and no call nodes, at any depth. */
  predicate Plain(v: ValueNode)
    decreases v
  {
    match v
    case NullValue(_) => false
    case CallValue(_, _, _) => false
    case ArrayValue(elements, _) => AllPlain(elements)
    case _ => true
  }

  predicate AllPlain(vs: seq<ValueNode>)
    decreases vs
  {
    forall k :: 0 <= k < |vs| ==> Plain(vs[k])
  }

  predicate PlainArguments(args: seq<ArgumentNode>) {
    forall k :: 0 <= k < |args| ==> Plain(args[k].value)
  }

  function ParseValueAt(ts: seq<Token>, i: nat): (r: Parsed<ValueNode>)
    requires WellFormed(ts) && i < |ts|
    ensures Within(ts, i, i + 1, r)
    ensures r.Success? ==> StartsValue(ts[i].kind) && r.value.location == ts[i].position
    ensures !StartsValue(ts[i].kind) ==> r == Failure("Expected value, got " + ts[i].kind.Name(), i)
    ensures ts[i].kind == String ==> r == Success(StringValue(StripQuotes(ts[i].value), ts[i].position), i + 1)
    ensures ts[i].kind == Number ==> r == Success(NumberValue(ts[i].value, ts[i].position), i + 1)
    ensures ts[i].kind == Boolean ==> r == Success(BooleanValue(ts[i].value == "true", ts[i].position), i + 1)
    ensures ts[i].kind == Identifier ==> r == Success(IdentifierValue(ts[i].value, ts[i].position), i + 1)
    ensures r.Success? && ts[i].kind == BracketLeft ==> r.value.ArrayValue?
    decreases |ts| - i, 0
  {
    var token := ts[i];
    if Check(ts, i, String) then
      Success(CreateStringNode(StripQuotes(token.value), token.position), i + 1)
    else if Check(ts, i, Number) then
      Success(CreateNumberNode(token.value, token.position), i + 1)
    else if Check(ts, i, Boolean) then
      Success(CreateBooleanNode(token.value == "true", token.position), i + 1)
    else if Check(ts, i, BracketLeft) then
      ArrayAt(ts, i + 1, token.position)
    else if Check(ts, i, Identifier) then
      Success(CreateIdentifierNode(token.value, token.position), i + 1)
    else
      Failure("Expected value, got " + token.kind.Name(), i)
  }

  /** The rest of an array whose `[` is the token before i, located at `location`. */
  function ArrayAt(ts: seq<Token>, i: nat, location: SourcePosition): (r: Parsed<ValueNode>)
    requires WellFormed(ts) && i < |ts|
    ensures Within(ts, i, i + 1, r)
    ensures r.Success? ==> r.value.ArrayValue? && r.value.location == location
    ensures r.Success? ==> ts[r.next - 1].kind == BracketRight
    decreases |ts| - i, 3
  {
    var elements: Parsed<seq<ValueNode>> :=
      if Check(ts, i, BracketRight) then Success([], i) else ElementsAt(ts, i, []);
    match elements
    case Failure(e, at) => Failure(e, at)
    case Success(values, j) =>
      if Check(ts, j, BracketRight) then Success(CreateArrayNode(values, location), j + 1)
      else Failure("Expected \"]\" after array elements", j)
  }

  /** Array elements after `acc`: one value, then more for as long as a comma follows. */
  function ElementsAt(ts: seq<Token>, i: nat, acc: seq<ValueNode>): (r: Parsed<seq<ValueNode>>)
    requires WellFormed(ts) && i < |ts|
    ensures Within(ts, i, i + 1, r)
    ensures r.Success? ==> acc < r.value && !Check(ts, r.next, Comma)
    decreases |ts| - i, 2
  {
    match ParseValueAt(ts, i)
    case Failure(e, at) => Failure(e, at)
    case Success(v, j) =>
      if Check(ts, j, Comma) then ElementsAt(ts, j + 1, acc + [v]) else Success(acc + [v], j)
  }

  // ---------------------------------------------------------------------
  // Attributes and their arguments

  /** The argument at i is written `name: value`. */
  predicate Named(ts: seq<Token>, i: nat)
    requires WellFormed(ts) && i < |ts|
  {
    Check(ts, i, Identifier) && PeekNext(ts, i).kind == Colon
  }

  function ParseArgumentAt(ts: seq<Token>, i: nat): (r: Parsed<ArgumentNode>)
    requires WellFormed(ts) && i < |ts|
    ensures Within(ts, i, i + 1, r)
    ensures r.Success? ==> r.value.location == ts[i].position
    ensures r.Success? ==> (r.value.name.Some? <==> Named(ts, i))
    ensures r.Success? && Named(ts, i) ==>
      i + 2 < |ts| && r.value.name == Some(ts[i].value) && r.value.value.location == ts[i + 2].position
    ensures r.Success? && !Named(ts, i) ==> r.value.value.location == ts[i].position
  {
    // When the argument is named, the token after the name is the colon, so
    // the consume that checks for it always succeeds.
    var location := ts[i].position;
    var name := if Named(ts, i) then Some(ts[i].value) else None;
    var start := if Named(ts, i) then i + 2 else i;
    match ParseValueAt(ts, start)
    case Failure(e, at) => Failure(e, at)
    case Success(value, k) => Success(CreateArgumentNode(value, name, location), k)
  }

  /** Arguments after `acc`: one argument, then more for as long as a comma follows. */
  function ArgumentsAt(ts: seq<Token>, i: nat, acc: seq<ArgumentNode>): (r: Parsed<seq<ArgumentNode>>)
    requires WellFormed(ts) && i < |ts|
    ensures Within(ts, i, i + 1, r)
    ensures r.Success? ==> acc < r.value && !Check(ts, r.next, Comma)
    decreases |ts| - i
  {
    match ParseArgumentAt(ts, i)
    case Failure(e, at) => Failure(e, at)
    case Success(a, j) =>
      if Check(ts, j, Comma) then ArgumentsAt(ts, j + 1, acc + [a]) else Success(acc + [a], j)
  }

  /** The arguments and closing `)` of an argument list whose `(` is the token before i. */
  function ArgumentListAt(ts: seq<Token>, i: nat): (r: Parsed<seq<ArgumentNode>>)
    requires WellFormed(ts) && i < |ts|
    ensures Within(ts, i, i + 1, r)
    ensures r.Success? ==> ts[r.next - 1].kind == ParenRight
  {
    var args: Parsed<seq<ArgumentNode>> :=
      if Check(ts, i, ParenRight) then Success([], i) else ArgumentsAt(ts, i, []);
    match args
    case Failure(e, at) => Failure(e, at)
    case Success(arguments, k) =>
      if Check(ts, k, ParenRight) then Success(arguments, k + 1)
      else Failure("Expected \")\" after arguments", k)
  }

  /**
   * An attribute whose `@` or `@@` is the token before i; isField tells
   * which of the two introduced it.
   */
  function ParseAttributeAt(ts: seq<Token>, i: nat, isField: bool): (r: Parsed<AttributeNode>)
    requires WellFormed(ts) && 1 <= i < |ts|
    ensures Within(ts, i, i + 1, r)
    ensures r.Success? ==> r.value.name == ts[i].value && r.value.isField == isField
    ensures r.Success? ==> r.value.location == ts[i - 1].position
    ensures r.Success? && r.value.arguments != [] ==> i + 1 < |ts| && ts[i + 1].kind == ParenLeft
    ensures !Check(ts, i, Identifier) ==> r == Failure("Expected attribute name", i)
  {
    var location := ts[i - 1].position;
    if !Check(ts, i, Identifier) then Failure("Expected attribute name", i)
    else
      match AttributeArgumentsAt(ts, i + 1)
      case Failure(e, at) => Failure(e, at)
      case Success(arguments, m) => Success(CreateAttributeNode(ts[i].value, isField, arguments, location), m)
  }

  /** An attribute with a name: what its arguments give, wrapped in the attribute node. */
  lemma AttributeOutcome(ts: seq<Token>, i: nat, isField: bool)
    requires WellFormed(ts) && 1 <= i < |ts| && Check(ts, i, Identifier)
    ensures var a := AttributeArgumentsAt(ts, i + 1);
      a.Failure? ==> ParseAttributeAt(ts, i, isField) == Failure(a.reason, a.at)
    ensures var a := AttributeArgumentsAt(ts, i + 1);
      a.Success? ==>
        ParseAttributeAt(ts, i, isField) ==
        Success(CreateAttributeNode(ts[i].value, isField, a.value, ts[i - 1].position), a.next)
  {
  }

  /** The parenthesised arguments after an attribute's name at j, or none when no `(` follows it. */
  function AttributeArgumentsAt(ts: seq<Token>, j: nat): (r: Parsed<seq<ArgumentNode>>)
    requires WellFormed(ts) && j < |ts|
    ensures Within(ts, j, j, r)
    ensures r.Success? && r.value != [] ==> Check(ts, j, ParenLeft)
    ensures r.Success? && !Check(ts, j, ParenLeft) ==> r == Success([], j)
  {
    if Check(ts, j, ParenLeft) then ArgumentListAt(ts, j + 1) else Success([], j)
  }

  // ---------------------------------------------------------------------
  // One turn of the comma-separated argument loop, for the parser's loop proof

  lemma ArgumentsStep(ts: seq<Token>, i: nat, acc: seq<ArgumentNode>)
    requires WellFormed(ts) && i < |ts|
    ensures ParseArgumentAt(ts, i).Failure? ==>
      ArgumentsAt(ts, i, acc) == Failure(ParseArgumentAt(ts, i).reason, ParseArgumentAt(ts, i).at)
    ensures ParseArgumentAt(ts, i).Success? ==>
      var (a, j) := (ParseArgumentAt(ts, i).value, ParseArgumentAt(ts, i).next);
      ArgumentsAt(ts, i, acc) == if Check(ts, j, Comma) then ArgumentsAt(ts, j + 1, acc + [a]) else Success(acc + [a], j)
  {
  }

  // ---------------------------------------------------------------------
  // The grammar writes no null and no function-call values

  lemma {:induction false} ValuePlain(ts: seq<Token>, i: nat)
    requires WellFormed(ts) && i < |ts|
    ensures ParseValueAt(ts, i).Success? ==> Plain(ParseValueAt(ts, i).value)
    decreases |ts| - i, 0
  {
    if Check(ts, i, BracketLeft) {
      ArrayPlain(ts, i + 1, ts[i].position);
    }
  }

  lemma {:induction false} ArrayPlain(ts: seq<Token>, i: nat, location: SourcePosition)
    requires WellFormed(ts) && i < |ts|
    ensures ArrayAt(ts, i, location).Success? ==> Plain(ArrayAt(ts, i, location).value)
    decreases |ts| - i, 3
  {
    if !Check(ts, i, BracketRight) {
      ElementsPlain(ts, i, []);
    }
  }

  lemma {:induction false} ElementsPlain(ts: seq<Token>, i: nat, acc: seq<ValueNode>)
    requires WellFormed(ts) && i < |ts| && AllPlain(acc)
    ensures ElementsAt(ts, i, acc).Success? ==> AllPlain(ElementsAt(ts, i, acc).value)
    decreases |ts| - i, 2
  {
    ValuePlain(ts, i);
    match ParseValueAt(ts, i)
    case Failure(_, _) =>
    case Success(v, j) =>
      assert AllPlain(acc + [v]);
      if Check(ts, j, Comma) {
        ElementsPlain(ts, j + 1, acc + [v]);
      }
  }

  lemma ArgumentPlain(ts: seq<Token>, i: nat)
    requires WellFormed(ts) && i < |ts|
    ensures ParseArgumentAt(ts, i).Success? ==> Plain(ParseArgumentAt(ts, i).value.value)
  {
    ValuePlain(ts, if Named(ts, i) then i + 2 else i);
  }

  lemma {:induction false} ArgumentsPlain(ts: seq<Token>, i: nat, acc: seq<ArgumentNode>)
    requires WellFormed(ts) && i < |ts| && PlainArguments(acc)
    ensures ArgumentsAt(ts, i, acc).Success? ==> PlainArguments(ArgumentsAt(ts, i, acc).value)
    decreases |ts| - i
  {
    ArgumentPlain(ts, i);
    match ParseArgumentAt(ts, i)
    case Failure(_, _) =>
    case Success(a, j) =>
      assert PlainArguments(acc + [a]);
      if Check(ts, j, Comma) {
        ArgumentsPlain(ts, j + 1, acc + [a]);
      }
  }

  /** Every value inside a parsed attribute's arguments is plain. */
  lemma AttributePlain(ts: seq<Token>, i: nat, isField: bool)
    requires WellFormed(ts) && 1 <= i < |ts|
    ensures ParseAttributeAt(ts, i, isField).Success? ==> PlainArguments(ParseAttributeAt(ts, i, isField).value.arguments)
  {
    if Check(ts, i, Identifier) && Check(ts, i + 1, ParenLeft) && !Check(ts, i + 2, ParenRight) {
      ArgumentsPlain(ts, i + 2, []);
    }
  }

  // ---------------------------------------------------------------------
  // Fields and models

  /** The attributes of a field after `acc`: one more for each `@`. */
  function FieldAttributesAt(ts: seq<Token>, i: nat, acc: seq<AttributeNode>): (r: Parsed<seq<AttributeNode>>)
    requires WellFormed(ts) && i < |ts|
    ensures Within(ts, i, i, r)
    ensures r.Success? ==> acc <= r.value && !Check(ts, r.next, At)
    ensures r.Success? ==> forall k :: |acc| <= k < |r.value| ==> r.value[k].isField
    decreases |ts| - i
  {
    if Check(ts, i, At) then
      match ParseAttributeAt(ts, i + 1, true)
      case Failure(e, at) => Failure(e, at)
      case Success(a, j) => FieldAttributesAt(ts, j, acc + [a])
    else
      Success(acc, i)
  }

  /** Where the optional `?` after a type ending at k is looked for. */
  function QuestionAt(k: nat, isArray: bool): nat {
    if isArray then k + 2 else k
  }

  /** The optional `[]` and `?` after a field type, from cursor k: (isArray, isRequired). */
  function TypeModifiersAt(ts: seq<Token>, k: nat): (r: Parsed<(bool, bool)>)
    requires WellFormed(ts) && k < |ts|
    ensures Within(ts, k, k, r)
    ensures r.Success? ==> (r.value.0 <==> Check(ts, k, BracketLeft))
    ensures r.Success? ==> QuestionAt(k, r.value.0) < |ts|
    ensures r.Success? ==> (r.value.1 <==> !Check(ts, QuestionAt(k, r.value.0), Question))
  {
    var brackets: Parsed<bool> :=
      if !Check(ts, k, BracketLeft) then Success(false, k)
      else if Check(ts, k + 1, BracketRight) then Success(true, k + 2)
      else Failure("Expected \"]\" after \"[\"", k + 1);
    match brackets
    case Failure(e, at) => Failure(e, at)
    case Success(isArray, m) =>
      if Check(ts, m, Question) then Success((isArray, false), m + 1) else Success((isArray, true), m)
  }

  function ParseFieldAt(ts: seq<Token>, i: nat): (r: Parsed<FieldNode>)
    requires WellFormed(ts) && i < |ts|
    ensures Within(ts, i, i + 2, r)
    ensures r.Success? ==> r.value.name == ts[i].value && r.value.location == ts[i].position
    ensures r.Success? ==>
      r.value.fieldType.name == ts[i + 1].value && r.value.fieldType.location == ts[i + 1].position
    ensures r.Success? ==> (r.value.isArray <==> Check(ts, i + 2, BracketLeft))
    ensures r.Success? ==> QuestionAt(i + 2, r.value.isArray) < |ts|
    ensures r.Success? ==> (r.value.isRequired <==> !Check(ts, QuestionAt(i + 2, r.value.isArray), Question))
    ensures r.Success? ==>
      r.value.fieldType.isArray == r.value.isArray && r.value.fieldType.isRequired == r.value.isRequired
    ensures r.Success? ==> forall k :: 0 <= k < |r.value.attributes| ==> r.value.attributes[k].isField
    ensures !Check(ts, i, Identifier) ==> r == Failure("Expected field name", i)
  {
    if !Check(ts, i, Identifier) then Failure("Expected field name", i)
    else if !Check(ts, i + 1, Identifier) then Failure("Expected field type", i + 1)
    else
      match TypeModifiersAt(ts, i + 2)
      case Failure(e, at) => Failure(e, at)
      case Success(modifiers, n) =>
        var (isArray, isRequired) := modifiers;
        var fieldType := CreateTypeReferenceNode(ts[i + 1].value, isArray, isRequired, ts[i + 1].position);
        match FieldAttributesAt(ts, n, [])
        case Failure(e, at) => Failure(e, at)
        case Success(attributes, p) =>
          Success(CreateFieldNode(ts[i].value, fieldType, isRequired, isArray, attributes, ts[i].position), p)
  }

  /** `@` attributes sit on fields and `@@` attributes on the model. */
  predicate Routed(fields: seq<FieldNode>, attributes: seq<AttributeNode>) {
    (forall k :: 0 <= k < |attributes| ==> !attributes[k].isField)
    && (forall k, m :: 0 <= k < |fields| && 0 <= m < |fields[k].attributes| ==> fields[k].attributes[m].isField)
  }

  /**
   * The body of a model after the fields and model attributes collected so
   * far: comments are skipped, `@@` starts a model attribute, anything else a
   * field, until `}` or the end.
   */
  function ModelBodyAt(ts: seq<Token>, i: nat, fields: seq<FieldNode>, attributes: seq<AttributeNode>)
    : (r: Parsed<(seq<FieldNode>, seq<AttributeNode>)>)
    requires WellFormed(ts) && i < |ts|
    ensures Within(ts, i, i, r)
    ensures r.Success? ==> Check(ts, r.next, BraceRight) || AtEnd(ts, r.next)
    ensures r.Success? ==> fields <= r.value.0 && attributes <= r.value.1
    decreases |ts| - i
  {
    if Check(ts, i, BraceRight) || AtEnd(ts, i) then
      Success((fields, attributes), i)
    else if Check(ts, i, Comment) then
      ModelBodyAt(ts, i + 1, fields, attributes)
    else if Check(ts, i, AtAt) then
      match ParseAttributeAt(ts, i + 1, false)
      case Failure(e, at) => Failure(e, at)
      case Success(a, j) => ModelBodyAt(ts, j, fields, attributes + [a])
    else
      match ParseFieldAt(ts, i)
      case Failure(e, at) => Failure(e, at)
      case Success(f, j) => ModelBodyAt(ts, j, fields + [f], attributes)
  }

  /** A model whose `model` keyword is the token before i. */
  function ParseModelAt(ts: seq<Token>, i: nat): (r: Parsed<ModelNode>)
    requires WellFormed(ts) && 1 <= i < |ts|
    ensures Within(ts, i, i + 3, r)
    ensures r.Success? ==> r.value.name == ts[i].value && r.value.location == ts[i - 1].position
    ensures r.Success? ==> ts[i + 1].kind == BraceLeft && ts[r.next - 1].kind == BraceRight
    ensures !Check(ts, i, Identifier) ==> r == Failure("Expected model name", i)
  {
    if !Check(ts, i, Identifier) then Failure("Expected model name", i)
    else if !Check(ts, i + 1, BraceLeft) then Failure("Expected \"{\" after model name", i + 1)
    else
      match ModelBodyAt(ts, i + 2, [], [])
      case Failure(e, at) => Failure(e, at)
      case Success(body, m) =>
        if Check(ts, m, BraceRight) then Success(CreateModelNode(ts[i].value, body.0, body.1, ts[i - 1].position), m + 1)
        else Failure("Expected \"}\" after model body", m)
  }

  // ---------------------------------------------------------------------
  // Error recovery and the top level

  /** The keywords that begin a top-level definition (every keyword but `env`). */
  const DefinitionKeywords: set<string> := {"model", "enum", "type", "view", "datasource", "generator"}

  /** Recovery stops at j: just after a `}`, or on a definition keyword. */
  predicate SyncPoint(ts: seq<Token>, j: nat)
    requires 1 <= j < |ts|
  {
    ts[j - 1].kind == BraceRight || (Check(ts, j, Keyword) && ts[j].value in DefinitionKeywords)
  }

  function SyncLoop(ts: seq<Token>, j: nat): (r: nat)
    requires WellFormed(ts) && j < |ts| && (1 <= j || AtEnd(ts, j))
    ensures j <= r < |ts|
    ensures AtEnd(ts, r) || (1 <= r && SyncPoint(ts, r))
    ensures forall q :: j <= q < r ==> 1 <= q && !AtEnd(ts, q) && !SyncPoint(ts, q)
    decreases |ts| - j
  {
    if AtEnd(ts, j) || SyncPoint(ts, j) then j else SyncLoop(ts, j + 1)
  }

  /** Where parsing resumes after an error thrown at cursor i: one token on, then the first sync point. */
  function Synchronize(ts: seq<Token>, i: nat): (r: nat)
    requires WellFormed(ts) && i < |ts|
    ensures i <= r < |ts| && (!AtEnd(ts, i) ==> i < r)
    ensures AtEnd(ts, r) || (1 <= r && SyncPoint(ts, r))
  {
    SyncLoop(ts, Advanced(ts, i))
  }

  /**
   * The top-level loop from cursor i with the models found so far: comments
   * are skipped, `model` starts a model, and any other token is an error.
   * A thrown error is caught and discarded, and parsing resumes at the next
   * sync point; a model that fails is therefore dropped.
   */
  function SchemaLoop(ts: seq<Token>, i: nat, models: seq<ModelNode>): (r: seq<ModelNode>)
    requires WellFormed(ts) && i < |ts|
    ensures models <= r
    decreases |ts| - i
  {
    if AtEnd(ts, i) then models
    else if Check(ts, i, Comment) then SchemaLoop(ts, i + 1, models)
    else if Check(ts, i, Keyword) then
      if ts[i].value == "model" then
        match ParseModelAt(ts, i + 1)
        case Success(m, j) => SchemaLoop(ts, j, models + [m])
        case Failure(_, at) => SchemaLoop(ts, Synchronize(ts, at), models)
      else
        // "Unexpected keyword", thrown once the keyword is consumed
        SchemaLoop(ts, Synchronize(ts, i + 1), models)
    else
      // "Unexpected token", thrown on the token itself
      SchemaLoop(ts, Synchronize(ts, i), models)
  }

  /** The schema of a token stream: located at its first token, holding only models. */
  function ParseSchema(ts: seq<Token>): (s: SchemaNode)
    requires WellFormed(ts)
    ensures s.Tag() == SchemaTag && s.location == ts[0].position
    ensures s.datasources == [] && s.generators == [] && s.enums == [] && s.types == [] && s.views == []
  {
    CreateSchemaNode(ts[0].position).(models := SchemaLoop(ts, 0, []))
  }

  // ---------------------------------------------------------------------
  // Properties of the top level

  /** The tokenizer's output is a stream the parser accepts. */
  lemma TokenizationWellFormed(s: string, ts: seq<Token>)
    requires IsTokenization(s, ts)
    ensures WellFormed(ts)
  {
    TokenizationKinds(s, ts);
  }

  /** The model body sends `@@` attributes to the model and every field keeps its `@` attributes. */
  lemma {:induction false} ModelBodyRouted(ts: seq<Token>, i: nat, fields: seq<FieldNode>, attributes: seq<AttributeNode>)
    requires WellFormed(ts) && i < |ts| && Routed(fields, attributes)
    ensures ModelBodyAt(ts, i, fields, attributes).Success? ==>
      Routed(ModelBodyAt(ts, i, fields, attributes).value.0, ModelBodyAt(ts, i, fields, attributes).value.1)
    decreases |ts| - i
  {
    if Check(ts, i, BraceRight) || AtEnd(ts, i) {
    } else if Check(ts, i, Comment) {
      ModelBodyRouted(ts, i + 1, fields, attributes);
    } else if Check(ts, i, AtAt) {
      match ParseAttributeAt(ts, i + 1, false)
      case Failure(_, _) =>
      case Success(a, j) =>
        ModelBodyRouted(ts, j, fields, attributes + [a]);
    } else {
      match ParseFieldAt(ts, i)
      case Failure(_, _) =>
      case Success(f, j) =>
        ModelBodyRouted(ts, j, fields + [f], attributes);
    }
  }

  /** A parsed model keeps `@@` attributes on the model and `@` attributes on its fields. */
  lemma ModelRouted(ts: seq<Token>, i: nat)
    requires WellFormed(ts) && 1 <= i < |ts|
    ensures ParseModelAt(ts, i).Success? ==> Routed(ParseModelAt(ts, i).value.fields, ParseModelAt(ts, i).value.attributes)
  {
    if Check(ts, i, Identifier) && Check(ts, i + 1, BraceLeft) {
      ModelBodyRouted(ts, i + 2, [], []);
    }
  }

  /** Model m is what parsing a model gives at some `model` keyword after cursor i. */
  ghost predicate ModelFrom(ts: seq<Token>, i: nat, m: ModelNode)
    requires WellFormed(ts)
  {
    exists q :: i < q < |ts| && Check(ts, q - 1, Keyword) && ts[q - 1].value == "model"
      && ParseModelAt(ts, q).Success? && ParseModelAt(ts, q).value == m
  }

  /**
   * Every model the top-level loop adds comes from a `model` keyword at or
   * after the cursor, and the models found before are kept in front.
   */
  lemma {:induction false} SchemaLoopSound(ts: seq<Token>, i: nat, models: seq<ModelNode>)
    requires WellFormed(ts) && i < |ts|
    ensures models <= SchemaLoop(ts, i, models)
    ensures forall k :: |models| <= k < |SchemaLoop(ts, i, models)| ==>
      ModelFrom(ts, i, SchemaLoop(ts, i, models)[k])
    decreases |ts| - i
  {
    var r := SchemaLoop(ts, i, models);
    if AtEnd(ts, i) {
    } else if Check(ts, i, Comment) {
      SchemaLoopSound(ts, i + 1, models);
    } else if Check(ts, i, Keyword) {
      if ts[i].value == "model" {
        match ParseModelAt(ts, i + 1)
        case Success(m, j) =>
          SchemaLoopSound(ts, j, models + [m]);
          assert r[|models|] == m;
          assert ModelFrom(ts, i, m);
        case Failure(_, at) =>
          SchemaLoopSound(ts, Synchronize(ts, at), models);
      } else {
        SchemaLoopSound(ts, Synchronize(ts, i + 1), models);
      }
    } else {
      SchemaLoopSound(ts, Synchronize(ts, i), models);
    }
  }

  /**
   * Every model of the schema is one the `model` rule produced, with its
   * `@` attributes on fields and its `@@` attributes on the model.
   */
  lemma SchemaModels(ts: seq<Token>)
    requires WellFormed(ts)
    ensures forall k :: 0 <= k < |ParseSchema(ts).models| ==> ModelFrom(ts, 0, ParseSchema(ts).models[k])
    ensures forall k :: 0 <= k < |ParseSchema(ts).models| ==>
      Routed(ParseSchema(ts).models[k].fields, ParseSchema(ts).models[k].attributes)
  {
    SchemaLoopSound(ts, 0, []);
    forall k | 0 <= k < |ParseSchema(ts).models|
      ensures Routed(ParseSchema(ts).models[k].fields, ParseSchema(ts).models[k].attributes)
    {
      assert ModelFrom(ts, 0, ParseSchema(ts).models[k]);
      var q :| 0 < q < |ts| && Check(ts, q - 1, Keyword) && ts[q - 1].value == "model"
        && ParseModelAt(ts, q).Success? && ParseModelAt(ts, q).value == ParseSchema(ts).models[k];
      ModelRouted(ts, q);
    }
  }

  /**
   * A definition other than a model whose body holds no `}` and no
   * definition keyword is skipped whole: parsing resumes after its `}`.
   */
  lemma FlatDefinitionSkipped(ts: seq<Token>, i: nat, close: nat, models: seq<ModelNode>)
    requires WellFormed(ts) && i < close < |ts|
    requires Check(ts, i, Keyword) && ts[i].value != "model"
    requires ts[close].kind == BraceRight
    requires forall q :: i < q < close ==>
      ts[q].kind != BraceRight && ts[q].kind != Eof && !(ts[q].kind == Keyword && ts[q].value in DefinitionKeywords)
    ensures close + 1 < |ts|
    ensures SchemaLoop(ts, i, models) == SchemaLoop(ts, close + 1, models)
  {
    var r := Synchronize(ts, i + 1);
    assert SyncPoint(ts, close + 1);
    assert forall q :: i + 2 <= q <= close ==> !AtEnd(ts, q) && !SyncPoint(ts, q);
    assert r == close + 1;
  }

  /** Blank input parses to an empty schema located at the end of the input. */
  lemma BlankSchema(s: string, ts: seq<Token>)
    requires forall k :: 0 <= k < |s| ==> IsWhitespace(s[k])
    requires IsTokenization(s, ts)
    ensures WellFormed(ts)
    ensures ParseSchema(ts) == CreateSchemaNode(PositionAt(s, |s|))
  {
    BlankInput(s, ts);
  }
}
