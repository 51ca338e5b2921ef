/**
 * The lexical specification of the schema language.
 *
 * `LexemeAt(s, i)` says which token the tokenizer reads when its main loop
 * stands at offset `i` on a character that is not whitespace; `PositionAt`
 * says where the cursor is after a prefix of the input; `IsTokenization(s, ts)`
 * says what a complete token list for `s` is: the lexemes at the first
 * non-whitespace offsets, one after the other, with nothing but whitespace in
 * between, and a final end-of-input token.  The imperative tokenizer is proved
 * to produce such a list, and the lemmas here show that the list is unique and
 * has the properties the tokenizer promises.
 */
module Lexical {
  import opened Wrappers
  import opened Tokens

  // ---------------------------------------------------------------------
  // Character classes

  /** The characters of the `\s` class of JavaScript regular expressions. */
  predicate IsWhitespace(c: char): (r: bool)
    ensures c in " \t\n\r" ==> r
    ensures r ==> c !in "_0123456789"
  {
    c == ' ' || c == '\t' || c == '\n' || c == '\r' || c == '\U{000B}' || c == '\U{000C}'
    || c == '\U{00A0}' || c == '\U{1680}' || ('\U{2000}' <= c <= '\U{200A}')
    || c == '\U{2028}' || c == '\U{2029}' || c == '\U{202F}' || c == '\U{205F}'
    || c == '\U{3000}' || c == '\U{FEFF}'
  }

  /** `[a-zA-Z0-9_]` */
  predicate IsIdentifierChar(c: char): (r: bool)
    ensures r ==> c as int < 0x80
    ensures c in "_0123456789" ==> r
  {
    ('a' <= c <= 'z') || ('A' <= c <= 'Z') || ('0' <= c <= '9') || c == '_'
  }

  /** `[0-9]` */
  predicate IsDigit(c: char): (r: bool)
    ensures r <==> c in "0123456789"
  {
    '0' <= c <= '9'
  }

  /**
   * How the character classes meet: every digit is an identifier character,
   * and whitespace is none of the characters a token can start with by name.
   */
  lemma CharacterClasses(c: char)
    ensures IsDigit(c) ==> IsIdentifierChar(c)
    ensures IsWhitespace(c) ==> !IsIdentifierChar(c) && c !in "\"'/@{}[]()=.,:?"
  {
  }

  /** The test that ends a line comment. */
  predicate NotNewline(c: char) {
    c != '\n'
  }

  // ---------------------------------------------------------------------
  // Source positions

  const StartPosition := SourcePosition(1, 1, 0)

  /** The cursor after consuming `c`: a newline starts a new line, anything else moves one column. */
  function StepPosition(p: SourcePosition, c: char): SourcePosition {
    if c == '\n' then SourcePosition(p.line + 1, 1, p.offset + 1)
    else SourcePosition(p.line, p.column + 1, p.offset + 1)
  }

  /** The cursor after consuming the first `i` characters of `s` from the start position. */
  function PositionAt(s: string, i: nat): SourcePosition
    requires i <= |s|
  {
    if i == 0 then StartPosition
    else StepPosition(PositionAt(s, i - 1), s[i - 1])
  }

  /** The cursor's offset counts the characters consumed. */
  lemma {:induction false} PositionOffset(s: string, i: nat)
    requires i <= |s|
    ensures PositionAt(s, i).offset == i
  {
    if i > 0 { PositionOffset(s, i - 1); }
  }

  /**
   * What the cursor means: the offset counts the characters consumed, the line
   * is one more than the newlines among them, and the column is one more than
   * the characters consumed since the last newline.
   */
  lemma {:induction false} PositionAtMeaning(s: string, i: nat)
    requires i <= |s|
    ensures PositionAt(s, i).offset == i
    ensures PositionAt(s, i).line == 1 + multiset(s[..i])['\n']
    ensures 1 <= PositionAt(s, i).column <= i + 1
    ensures forall k :: i - (PositionAt(s, i).column - 1) <= k < i ==> s[k] != '\n'
    ensures PositionAt(s, i).column <= i ==> s[i - PositionAt(s, i).column] == '\n'
  {
    PositionOffset(s, i);
    if i > 0 {
      PositionAtMeaning(s, i - 1);
      assert s[..i] == s[..i - 1] + [s[i - 1]];
      assert multiset(s[..i]) == multiset(s[..i - 1]) + multiset{s[i - 1]};
    }
  }

  // ---------------------------------------------------------------------
  // Spans scanned by the tokenizer's helpers

  /** The end of the longest run of characters satisfying `p` that starts at `i`. */
  function SpanWhile(s: string, i: nat, p: char -> bool): (j: nat)
    requires i <= |s|
    ensures i <= j <= |s|
    ensures forall k :: i <= k < j ==> p(s[k])
    ensures j == |s| || !p(s[j])
    decreases |s| - i
  {
    if i == |s| || !p(s[i]) then i else SpanWhile(s, i + 1, p)
  }

  /** `*` followed by `/` at `k`. */
  predicate ClosesAt(s: string, k: int) {
    0 <= k && k + 1 < |s| && s[k] == '*' && s[k + 1] == '/'
  }

  /** The first offset at or after `i` where a block comment closes, or `|s|` when none does. */
  function FindClose(s: string, i: nat): (j: nat)
    requires i <= |s|
    ensures i <= j <= |s|
    ensures j < |s| ==> ClosesAt(s, j)
    ensures forall k :: i <= k < j ==> !ClosesAt(s, k)
    decreases |s| - i
  {
    if i == |s| then i else if ClosesAt(s, i) then i else FindClose(s, i + 1)
  }

  /**
   * Where a string literal whose body starts at `k` ends: just after the first
   * `quote` that is not escaped, or at the end of the input.  A backslash takes
   * the next character with it, whatever it is.
   */
  function StringEnd(s: string, k: nat, quote: char): (j: nat)
    requires k <= |s|
    ensures k <= j <= |s|
    ensures j == |s| || (k < j && s[j - 1] == quote)
    decreases |s| - k
  {
    if k == |s| then k
    else if s[k] == '\\' then (if k + 1 < |s| then StringEnd(s, k + 2, quote) else |s|)
    else if s[k] == quote then k + 1
    else StringEnd(s, k + 1, quote)
  }

  /** How many backslashes stand just before offset `p`, looking back no further than `k`. */
  function BackslashRun(s: string, k: nat, p: nat): (n: nat)
    requires k <= p <= |s|
    ensures n <= p - k
    ensures n > 0 ==> s[p - 1] == '\\'
    decreases p
  {
    if p == k || s[p - 1] != '\\' then 0 else 1 + BackslashRun(s, k, p - 1)
  }

  /**
   * The character at `p` of a string literal whose body starts at `k` is
   * escaped: an odd number of backslashes of the body stand just before it.
   */
  predicate Escaped(s: string, k: nat, p: nat)
    requires k <= p < |s|
  {
    BackslashRun(s, k, p) % 2 == 1
  }

  /** The character at `p` is a `quote` that is not escaped. */
  predicate ClosingQuote(s: string, k: nat, p: nat, quote: char)
    requires k <= p < |s|
  {
    s[p] == quote && !Escaped(s, k, p)
  }

  /**
   * The scan of StringEnd, from an offset `m` it reaches: when no closing
   * quote lies in `k..m` and `m` is not escaped, the scan stops just after
   * the first closing quote, or at the end of the input when there is none.
   */
  lemma {:induction false} StringEndScan(s: string, k: nat, m: nat, quote: char)
    requires k <= m <= |s| && quote != '\\'
    requires BackslashRun(s, k, m) % 2 == 0
    requires forall p :: k <= p < m ==> !ClosingQuote(s, k, p, quote)
    ensures var j := StringEnd(s, m, quote);
      forall p :: k <= p < j && ClosingQuote(s, k, p, quote) ==> p == j - 1
    ensures var j := StringEnd(s, m, quote);
      j < |s| ==> m < j && ClosingQuote(s, k, j - 1, quote)
    decreases |s| - m
  {
    if m == |s| {
    } else if s[m] == '\\' {
      if m + 1 < |s| {
        assert BackslashRun(s, k, m + 1) == 1 + BackslashRun(s, k, m);
        if s[m + 1] == '\\' {
          assert BackslashRun(s, k, m + 2) == 1 + BackslashRun(s, k, m + 1);
        }
        assert Escaped(s, k, m + 1);
        StringEndScan(s, k, m + 2, quote);
      }
    } else if s[m] == quote {
      assert ClosingQuote(s, k, m, quote);
    } else {
      assert BackslashRun(s, k, m + 1) == 0;
      StringEndScan(s, k, m + 1, quote);
    }
  }

  /**
   * A string literal whose body starts at `k` ends just after the first
   * closing quote of its body; when the input ends first, the body has no
   * closing quote at all.
   */
  lemma StringEndFirstQuote(s: string, k: nat, quote: char)
    requires k <= |s| && quote != '\\'
    ensures var j := StringEnd(s, k, quote);
      forall p :: k <= p < j && ClosingQuote(s, k, p, quote) ==> p == j - 1
    ensures var j := StringEnd(s, k, quote);
      j < |s| ==> k < j && ClosingQuote(s, k, j - 1, quote)
  {
    StringEndScan(s, k, k, quote);
  }

  /** `'a\'b'`: the escaped quote does not close the literal; the last quote does. */
  lemma StringEndEscapedQuote()
    ensures StringEnd("'a\\'b'", 1, '\'') == 6
    ensures Escaped("'a\\'b'", 1, 3)
  {
    var s := "'a\\'b'";
    assert BackslashRun(s, 1, 3) == 1 by {
      assert s[2] == '\\' && s[1] != '\\';
      assert BackslashRun(s, 1, 2) == 0;
    }
  }

  /** Where a number literal starting at `i` ends: digits, then optionally `.` and digits. */
  function NumberEnd(s: string, i: nat): (j: nat)
    requires i <= |s|
    ensures i <= j <= |s|
    ensures forall k :: i <= k < j ==> IsDigit(s[k]) || s[k] == '.'
    ensures forall k, m :: i <= k < m < j && s[k] == '.' ==> s[m] != '.'
    ensures j == |s| || !IsDigit(s[j])
    ensures j < |s| && s[j] == '.' ==> exists k :: i <= k < j && s[k] == '.'
  {
    var d := SpanWhile(s, i, IsDigit);
    if d < |s| && s[d] == '.' then SpanWhile(s, d + 1, IsDigit) else d
  }

  // ---------------------------------------------------------------------
  // Single lexemes

  /** A lexeme: the kind and raw value of a token and the offset where reading it stopped. */
  datatype Lexeme = Lexeme(kind: TokenType, value: string, end: nat)

  /** The kind of a word made of identifier characters. */
  function ClassifyWord(w: string): (k: TokenType)
    ensures k == Boolean <==> (w == "true" || w == "false")
    ensures k == Keyword <==> w in Keywords
    ensures k in {Boolean, Keyword, Identifier}
  {
    KeywordTable();
    if w == "true" || w == "false" then Boolean
    else if w in Keywords then Keyword
    else Identifier
  }

  /** The kind of a one-character punctuation token (`@` when not doubled). */
  function PunctuationKind(c: char): TokenType {
    match c
    case '{' => BraceLeft
    case '}' => BraceRight
    case '[' => BracketLeft
    case ']' => BracketRight
    case '(' => ParenLeft
    case ')' => ParenRight
    case '=' => Equals
    case '.' => Dot
    case ',' => Comma
    case ':' => Colon
    case '?' => Question
    case '@' => At
    case _ => Unknown
  }

  /** The character a one-character punctuation kind stands for. */
  function PunctuationChar(k: TokenType): Option<char> {
    match k
    case BraceLeft => Some('{')
    case BraceRight => Some('}')
    case BracketLeft => Some('[')
    case BracketRight => Some(']')
    case ParenLeft => Some('(')
    case ParenRight => Some(')')
    case Equals => Some('=')
    case Dot => Some('.')
    case Comma => Some(',')
    case Colon => Some(':')
    case Question => Some('?')
    case At => Some('@')
    case _ => None
  }

  /** The punctuation table is one-to-one: every character other than the twelve is UNKNOWN. */
  lemma PunctuationOneToOne(c: char)
    ensures PunctuationKind(c) == Unknown <==> c !in "{}[]()=.,:?@"
    ensures PunctuationKind(c) != Unknown ==> PunctuationChar(PunctuationKind(c)) == Some(c)
  {
  }

  /** A block comment at `i` that never closes. */
  predicate UnterminatedBlockComment(s: string, i: nat) {
    i + 1 < |s| && s[i] == '/' && s[i + 1] == '*' && FindClose(s, i + 2) == |s|
  }

  /**
   * The token the main loop reads at offset `i`.  The tests come in the
   * loop's order: comments, strings, numbers, words, then punctuation, with
   * `@@` tried before `@`.
   */
  function LexemeAt(s: string, i: nat): (l: Lexeme)
    requires i < |s|
    ensures i < l.end <= |s|
    ensures l.kind != Eof && l.kind != Whitespace
    ensures if UnterminatedBlockComment(s, i) then l.value == s[i..] + "*/" && l.end == |s|
            else l.value == s[i..l.end]
  {
    var c := s[i];
    if c == '/' && i + 1 < |s| && s[i + 1] == '/' then
      var e := SpanWhile(s, i + 2, NotNewline);
      Lexeme(Comment, s[i..e], e)
    else if c == '/' && i + 1 < |s| && s[i + 1] == '*' then
      var j := FindClose(s, i + 2);
      if j < |s| then Lexeme(Comment, s[i..j + 2], j + 2)
      else Lexeme(Comment, s[i..] + "*/", |s|)
    else if c == '"' || c == '\'' then
      var e := StringEnd(s, i + 1, c);
      Lexeme(String, s[i..e], e)
    else if IsDigit(c) then
      var e := NumberEnd(s, i);
      Lexeme(Number, s[i..e], e)
    else if IsIdentifierChar(c) then
      var e := SpanWhile(s, i, IsIdentifierChar);
      Lexeme(ClassifyWord(s[i..e]), s[i..e], e)
    else if c == '@' && i + 1 < |s| && s[i + 1] == '@' then
      Lexeme(AtAt, "@@", i + 2)
    else
      Lexeme(PunctuationKind(c), [c], i + 1)
  }

  /** A comment opens at `i`: two slashes, or a slash and a star. */
  predicate OpensComment(s: string, i: nat) {
    i + 1 < |s| && s[i] == '/' && (s[i + 1] == '/' || s[i + 1] == '*')
  }

  /**
   * Which kind of token starts on which character: comments on two slashes
   * or a slash and a star, strings on a quote, numbers on a digit, words on any other
   * identifier character, `@@` on two at-signs (before `@`), and every other
   * character alone as its punctuation kind, UNKNOWN when it has none.
   */
  lemma LexemeKinds(s: string, i: nat)
    requires i < |s|
    ensures var l := LexemeAt(s, i);
      l.kind == Comment <==> OpensComment(s, i)
    ensures var l := LexemeAt(s, i);
      l.kind == String <==> s[i] == '"' || s[i] == '\''
    ensures var l := LexemeAt(s, i);
      (s[i] == '"' || s[i] == '\'') ==> l.end == StringEnd(s, i + 1, s[i])
    ensures var l := LexemeAt(s, i);
      l.kind == Number <==> IsDigit(s[i])
    ensures var l := LexemeAt(s, i);
      IsDigit(s[i]) ==> l.end == NumberEnd(s, i) && l.value == s[i..NumberEnd(s, i)]
    ensures var l := LexemeAt(s, i);
      (l.kind == Boolean || l.kind == Keyword || l.kind == Identifier) <==> IsIdentifierChar(s[i]) && !IsDigit(s[i])
    ensures var l := LexemeAt(s, i);
      IsIdentifierChar(s[i]) && !IsDigit(s[i]) ==> l.end == SpanWhile(s, i, IsIdentifierChar)
    ensures var l := LexemeAt(s, i);
      l.kind == AtAt <==> i + 1 < |s| && s[i] == '@' && s[i + 1] == '@'
    ensures i + 1 < |s| && s[i] == '@' && s[i + 1] == '@' ==> LexemeAt(s, i) == Lexeme(AtAt, "@@", i + 2)
    ensures var l := LexemeAt(s, i);
      l.kind == At <==> s[i] == '@' && !(i + 1 < |s| && s[i + 1] == '@')
    ensures var l := LexemeAt(s, i);
      !OpensComment(s, i) && s[i] !in "\"'@" && !IsIdentifierChar(s[i]) ==>
        l == Lexeme(PunctuationKind(s[i]), [s[i]], i + 1)
  {
  }

  /** The token read at offset `i`, positioned where the cursor stands after the first `i` characters. */
  function TokenAt(s: string, i: nat): (t: Token)
    requires i < |s|
    ensures t.position.offset == i
    ensures t.kind != Eof && t.kind != Whitespace && t.value != []
  {
    PositionOffset(s, i);
    var l := LexemeAt(s, i);
    CreateToken(l.kind, l.value, PositionAt(s, i))
  }

  /** Where reading the token at offset `o` stops. */
  function End(s: string, o: int): int {
    if 0 <= o < |s| then LexemeAt(s, o).end else o
  }

  // ---------------------------------------------------------------------
  // Whole token lists

  /** A token starts at `o` when the main loop finds a non-whitespace character there. */
  predicate StartsToken(s: string, o: int) {
    0 <= o < |s| && !IsWhitespace(s[o])
  }

  predicate WhitespaceBetween(s: string, lo: int, hi: int) {
    0 <= lo <= hi <= |s| && forall k :: lo <= k < hi ==> IsWhitespace(s[k])
  }

  function Offset(t: Token): int {
    t.position.offset
  }

  /** Where the scan that precedes the `n`-th token starts. */
  function Lo(s: string, toks: seq<Token>, n: nat): int
    requires n <= |toks|
  {
    if n == 0 then 0 else End(s, Offset(toks[n - 1]))
  }

  /** The `n`-th token starts on a character that is not whitespace. */
  predicate StartsAt(s: string, toks: seq<Token>, n: nat)
    requires n < |toks|
  {
    StartsToken(s, Offset(toks[n]))
  }

  /** The `n`-th token is the lexeme at its own offset. */
  predicate TokenFits(s: string, toks: seq<Token>, n: nat)
    requires n < |toks| && StartsAt(s, toks, n)
  {
    toks[n] == TokenAt(s, Offset(toks[n]))
  }

  /** Only whitespace lies between the end of the previous token and the `n`-th token. */
  predicate GapBefore(s: string, toks: seq<Token>, n: nat)
    requires n < |toks|
  {
    WhitespaceBetween(s, Lo(s, toks, n), Offset(toks[n]))
  }

  /** Every token is the lexeme at its own offset, and only whitespace lies before each. */
  predicate TokensAt(s: string, toks: seq<Token>) {
    && (forall n {:trigger StartsAt(s, toks, n)} :: 0 <= n < |toks| ==> StartsAt(s, toks, n))
    && (forall n {:trigger TokenFits(s, toks, n)} :: 0 <= n < |toks| ==> StartsAt(s, toks, n) && TokenFits(s, toks, n))
    && (forall n {:trigger GapBefore(s, toks, n)} :: 0 <= n < |toks| ==> GapBefore(s, toks, n))
  }

  /** `toks` is what the main loop has pushed when its cursor stands at `upTo`. */
  predicate Scanned(s: string, toks: seq<Token>, upTo: int) {
    TokensAt(s, toks) && WhitespaceBetween(s, Lo(s, toks, |toks|), upTo)
  }

  function EofToken(s: string): Token {
    CreateToken(Eof, "", PositionAt(s, |s|))
  }

  /** A complete tokenization of `s`: the scan of the whole input, then one end-of-input token. */
  predicate IsTokenization(s: string, toks: seq<Token>) {
    |toks| >= 1 && Scanned(s, toks[..|toks| - 1], |s|) && toks[|toks| - 1] == EofToken(s)
  }

  // ---------------------------------------------------------------------
  // Building a scan step by step

  /** Skipping whitespace keeps a scan a scan. */
  lemma ScannedSkip(s: string, toks: seq<Token>, o: int, o': int)
    requires Scanned(s, toks, o) && WhitespaceBetween(s, o, o')
    ensures Scanned(s, toks, o')
  {
  }

  /** Appending a token keeps what held of the tokens before it. */
  lemma PushKeeps(s: string, toks: seq<Token>, t: Token, n: nat)
    requires TokensAt(s, toks) && n < |toks|
    ensures StartsAt(s, toks + [t], n) && TokenFits(s, toks + [t], n) && GapBefore(s, toks + [t], n)
  {
    var toks' := toks + [t];
    assert StartsAt(s, toks, n) && TokenFits(s, toks, n) && GapBefore(s, toks, n);
    assert toks'[n] == toks[n];
    if n > 0 { assert toks'[n - 1] == toks[n - 1]; }
  }

  /** Pushing the lexeme at the cursor extends a scan up to where the lexeme ends. */
  lemma ScannedPush(s: string, toks: seq<Token>, o: int)
    requires Scanned(s, toks, o) && StartsToken(s, o)
    ensures Scanned(s, toks + [TokenAt(s, o)], End(s, o))
  {
    var toks' := toks + [TokenAt(s, o)];
    forall n | 0 <= n < |toks|
      ensures StartsAt(s, toks', n) && TokenFits(s, toks', n) && GapBefore(s, toks', n)
    {
      PushKeeps(s, toks, TokenAt(s, o), n);
    }
    var m := |toks|;
    assert toks'[m] == TokenAt(s, o);
    if m > 0 { assert toks'[m - 1] == toks[m - 1]; }
    assert StartsAt(s, toks', m) && TokenFits(s, toks', m) && GapBefore(s, toks', m);
    assert Lo(s, toks', |toks'|) == End(s, o);
  }

  // ---------------------------------------------------------------------
  // What a tokenization is

  /** The scan that precedes the end-of-input token of a tokenization. */
  function Body(toks: seq<Token>): seq<Token>
    requires |toks| >= 1
  {
    toks[..|toks| - 1]
  }

  /** Two scans that agree on their first `m` tokens start scanning for the next one at the same offset. */
  lemma SameLo(s: string, a: seq<Token>, b: seq<Token>, m: nat)
    requires m <= |a| && m <= |b| && a[..m] == b[..m]
    ensures Lo(s, a, m) == Lo(s, b, m)
  {
    if m > 0 { assert a[m - 1] == a[..m][m - 1] == b[..m][m - 1] == b[m - 1]; }
  }

  /**
   * Two scans whose next tokens are sought from the same offset find them at
   * the same offset: each starts on the first character that is not whitespace.
   */
  lemma SameStart(s: string, a: seq<Token>, b: seq<Token>, m: nat)
    requires m < |a| && m < |b| && Lo(s, a, m) == Lo(s, b, m)
    requires StartsAt(s, a, m) && GapBefore(s, a, m)
    requires StartsAt(s, b, m) && GapBefore(s, b, m)
    ensures Offset(a[m]) == Offset(b[m])
  {
    assert !IsWhitespace(s[Offset(a[m])]) && !IsWhitespace(s[Offset(b[m])]);
  }

  /** Two scans that agree on their first `m` tokens agree on the next one. */
  lemma AgreeStep(s: string, a: seq<Token>, b: seq<Token>, m: nat)
    requires TokensAt(s, a) && TokensAt(s, b)
    requires m < |a| && m < |b| && a[..m] == b[..m]
    ensures a[m] == b[m]
  {
    SameLo(s, a, b, m);
    assert StartsAt(s, a, m) && GapBefore(s, a, m);
    assert StartsAt(s, b, m) && GapBefore(s, b, m);
    SameStart(s, a, b, m);
    assert TokenFits(s, a, m) && TokenFits(s, b, m);
  }

  /** Two scans agree token by token on their common length. */
  lemma {:induction false} ScansAgree(s: string, a: seq<Token>, b: seq<Token>, n: nat)
    requires TokensAt(s, a) && TokensAt(s, b)
    requires n <= |a| && n <= |b|
    ensures a[..n] == b[..n]
  {
    if n > 0 {
      ScansAgree(s, a, b, n - 1);
      AgreeStep(s, a, b, n - 1);
      assert a[..n] == a[..n - 1] + [a[n - 1]] && b[..n] == b[..n - 1] + [b[n - 1]];
    }
  }

  /** Each token of a scan starts on a character that is not whitespace, after the previous token. */
  lemma NextStart(s: string, toks: seq<Token>, m: nat)
    requires TokensAt(s, toks) && m < |toks|
    ensures StartsToken(s, Offset(toks[m])) && Lo(s, toks, m) <= Offset(toks[m])
  {
    assert StartsAt(s, toks, m) && GapBefore(s, toks, m);
  }

  /** A scan of the whole input is at least as long as any scan: none extends it. */
  lemma ScanIsLongest(s: string, a: seq<Token>, b: seq<Token>)
    requires Scanned(s, a, |s|) && TokensAt(s, b)
    ensures |b| <= |a|
  {
    if |a| < |b| {
      ScansAgree(s, a, b, |a|);
      SameLo(s, a, b, |a|);
      NextStart(s, b, |a|);
    }
  }

  /** The tokenization of an input is unique: the specification determines the token list. */
  lemma TokenizationUnique(s: string, a: seq<Token>, b: seq<Token>)
    requires IsTokenization(s, a) && IsTokenization(s, b)
    ensures a == b
  {
    var ba, bb := Body(a), Body(b);
    ScanIsLongest(s, ba, bb);
    ScanIsLongest(s, bb, ba);
    ScansAgree(s, ba, bb, |ba|);
    assert ba == ba[..|ba|] && bb == bb[..|bb|];
    assert a == ba + [a[|a| - 1]] && b == bb + [b[|b| - 1]];
  }

  /** A lexeme always consumes at least one character, so token offsets strictly increase. */
  lemma {:induction false} OffsetsIncreaseFrom(s: string, toks: seq<Token>, i: nat, j: nat)
    requires TokensAt(s, toks) && i < j < |toks|
    ensures Offset(toks[i]) < Offset(toks[j])
    decreases j - i
  {
    if j > i + 1 { OffsetsIncreaseFrom(s, toks, i, j - 1); }
    assert StartsAt(s, toks, j - 1) && GapBefore(s, toks, j);
  }

  /** A token of a scan: its kind, and where it starts and is positioned. */
  lemma ScannedToken(s: string, toks: seq<Token>, n: nat)
    requires TokensAt(s, toks) && n < |toks|
    ensures toks[n].kind != Eof && toks[n].kind != Whitespace
    ensures 0 <= Offset(toks[n]) < |s| && toks[n].position == PositionAt(s, Offset(toks[n]))
  {
    assert StartsAt(s, toks, n) && TokenFits(s, toks, n);
  }

  /**
   * The kinds in the tokenizer's output: exactly one end-of-input token, last,
   * with an empty value; no WHITESPACE token.
   */
  lemma TokenizationKinds(s: string, toks: seq<Token>)
    requires IsTokenization(s, toks)
    ensures toks[|toks| - 1].kind == Eof && toks[|toks| - 1].value == ""
    ensures forall n :: 0 <= n < |toks| - 1 ==> toks[n].kind != Eof && toks[n].kind != Whitespace
  {
    var body := Body(toks);
    forall n | 0 <= n < |toks| - 1
      ensures toks[n].kind != Eof && toks[n].kind != Whitespace
    {
      assert toks[n] == body[n];
      ScannedToken(s, body, n);
    }
  }

  /**
   * Every token of the tokenizer's output, the end-of-input token included, is
   * positioned where the cursor stands after the input before it.
   */
  lemma TokenizationPositions(s: string, toks: seq<Token>)
    requires IsTokenization(s, toks)
    ensures toks[|toks| - 1].position == PositionAt(s, |s|)
    ensures forall n :: 0 <= n < |toks| ==>
      0 <= Offset(toks[n]) <= |s| && toks[n].position == PositionAt(s, Offset(toks[n]))
  {
    var body := Body(toks);
    forall n | 0 <= n < |toks|
      ensures 0 <= Offset(toks[n]) <= |s| && toks[n].position == PositionAt(s, Offset(toks[n]))
    {
      if n < |toks| - 1 {
        assert toks[n] == body[n];
        ScannedToken(s, body, n);
      } else {
        PositionOffset(s, |s|);
      }
    }
  }

  /** The tokens of a tokenization start at strictly increasing offsets, the end-of-input token at `|s|`. */
  lemma TokenizationOrdered(s: string, toks: seq<Token>)
    requires IsTokenization(s, toks)
    ensures Offset(toks[|toks| - 1]) == |s|
    ensures forall i, j :: 0 <= i < j < |toks| ==> Offset(toks[i]) < Offset(toks[j])
  {
    var body := Body(toks);
    PositionOffset(s, |s|);
    forall i, j | 0 <= i < j < |toks|
      ensures Offset(toks[i]) < Offset(toks[j])
    {
      assert toks[i] == body[i];
      ScannedToken(s, body, i);
      if j < |toks| - 1 {
        assert toks[j] == body[j];
        OffsetsIncreaseFrom(s, body, i, j);
      }
    }
  }

  /** Empty or whitespace-only input tokenizes to the end-of-input token alone. */
  lemma BlankInput(s: string, toks: seq<Token>)
    requires forall k :: 0 <= k < |s| ==> IsWhitespace(s[k])
    requires IsTokenization(s, toks)
    ensures toks == [EofToken(s)]
  {
    var body := Body(toks);
    assert |body| == 0 by {
      if |body| > 0 {
        ghost var first := StartsAt(s, body, 0);
        assert false;
      }
    }
    assert toks == body + [toks[|toks| - 1]];
  }

  /** A non-whitespace character before where the scan of token `n` starts lies inside one of the tokens before it. */
  lemma {:induction false} CoveredBefore(s: string, toks: seq<Token>, k: nat, n: nat)
    requires TokensAt(s, toks) && n <= |toks|
    requires k < |s| && !IsWhitespace(s[k]) && k < Lo(s, toks, n)
    ensures exists m :: 0 <= m < n && Offset(toks[m]) <= k < End(s, Offset(toks[m]))
    decreases n
  {
    if n > 0 && !(Offset(toks[n - 1]) <= k) {
      assert GapBefore(s, toks, n - 1);
      CoveredBefore(s, toks, k, n - 1);
    }
  }

  /**
   * Every character that is not whitespace lies inside the extent of some
   * token: whitespace is the only thing the tokenizer discards.
   */
  lemma NothingElseDiscarded(s: string, toks: seq<Token>, k: nat)
    requires Scanned(s, toks, |s|) && k < |s| && !IsWhitespace(s[k])
    ensures exists n :: 0 <= n < |toks| && Offset(toks[n]) <= k < End(s, Offset(toks[n]))
  {
    CoveredBefore(s, toks, k, |toks|);
  }
}
