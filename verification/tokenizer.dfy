/**
 * The tokenizer: a scanner whose cursor (line, column, offset) moves over the
 * input one character at a time, the helpers that read one kind of token
 * each, and the main loop that skips whitespace and collects the tokens.
 * Each helper is proved to stop where the lexical specification says and
 * to build the token it says; the main loop is proved to build the unique
 * tokenization of its input.
 */
module Tokenizer {
  import opened Tokens
  import opened Lexical

  /** A slice grows by the character at its end. */
  lemma ExtendSlice(s: string, i: nat, j: nat)
    requires i <= j < |s|
    ensures s[i..j + 1] == s[i..j] + [s[j]]
  {
  }

  /** A slice is the concatenation of two adjacent slices. */
  lemma SplitSlice(s: string, i: nat, j: nat, k: nat)
    requires i <= j <= k <= |s|
    ensures s[i..k] == s[i..j] + s[j..k]
  {
  }

  /** A block comment that closes is its opening, its body and its closing. */
  lemma ClosedCommentText(s: string, o: nat, j: nat)
    requires o + 1 < |s| && s[o] == '/' && s[o + 1] == '*'
    requires o + 2 <= j && ClosesAt(s, j)
    ensures "/*" + s[o + 2..j] + "*/" == s[o..j + 2]
  {
    SplitSlice(s, o, o + 2, j);
    SplitSlice(s, o, j, j + 2);
  }

  /** A block comment that never closes is its opening and the rest of the input. */
  lemma OpenCommentText(s: string, o: nat)
    requires o + 1 < |s| && s[o] == '/' && s[o + 1] == '*'
    ensures "/*" + s[o + 2..] + "*/" == s[o..] + "*/"
  {
    SplitSlice(s, o, o + 2, |s|);
  }

  /** How reading one character of a block comment's body moves toward where it closes. */
  lemma FindCloseStep(s: string, i: nat, k: nat)
    requires i <= k < |s| && k <= FindClose(s, i)
    ensures ClosesAt(s, k) ==> FindClose(s, i) == k
    ensures !ClosesAt(s, k) ==> k < FindClose(s, i)
  {
  }

  /** How reading one character of a string literal moves where the literal ends. */
  lemma StringEndStep(s: string, k: nat, quote: char)
    requires k < |s|
    ensures s[k] == '\\' && k + 1 < |s| ==> StringEnd(s, k, quote) == StringEnd(s, k + 2, quote)
    ensures s[k] == '\\' && k + 1 == |s| ==> StringEnd(s, k, quote) == |s|
    ensures s[k] != '\\' && s[k] == quote ==> StringEnd(s, k, quote) == k + 1
    ensures s[k] != '\\' && s[k] != quote ==> StringEnd(s, k, quote) == StringEnd(s, k + 1, quote)
  {
  }

  /** The cursor of one run of the tokenizer over `input`. */
  class Scanner {
    const input: string
    var line: int
    var column: int
    var offset: int

    /** The cursor stands inside the input where consuming its prefix puts it. */
    ghost predicate Valid()
      reads this
    {
      0 <= offset <= |input| && CurrentPosition() == PositionAt(input, offset)
    }

    /** A copy of the cursor. */
    function CurrentPosition(): (p: SourcePosition)
      reads this
      ensures p.line == line && p.column == column && p.offset == offset
    {
      SourcePosition(line, column, offset)
    }

    constructor(input: string)
      ensures this.input == input && offset == 0 && Valid()
    {
      this.input := input;
      line := 1;
      column := 1;
      offset := 0;
    }

    /** Consumes `c`: a newline starts a new line, anything else moves one column. */
    method UpdatePosition(c: char)
      modifies this
      ensures CurrentPosition() == StepPosition(old(CurrentPosition()), c)
    {
      if c == '\n' {
        line := line + 1;
        column := 1;
      } else {
        column := column + 1;
      }
      offset := offset + 1;
    }

    /** Consumes the character under the cursor (the only character the tokenizer ever consumes). */
    method Step()
      requires Valid() && offset < |input|
      modifies this
      ensures Valid() && offset == old(offset) + 1
    {
      UpdatePosition(input[offset]);
    }

    /** Reads the longest run of characters satisfying `p` under the cursor. */
    method ReadWhile(p: char -> bool) returns (result: string)
      requires Valid()
      modifies this
      ensures Valid() && offset == SpanWhile(input, old(offset), p)
      ensures result == input[old(offset)..offset]
    {
      ghost var start := offset;
      result := "";
      while offset < |input|
        invariant Valid() && start <= offset
        invariant SpanWhile(input, offset, p) == SpanWhile(input, start, p)
        invariant result == input[start..offset]
        decreases |input| - offset
      {
        var c := input[offset];
        if p(c) {
          ExtendSlice(input, start, offset);
          result := result + [c];
          Step();
        } else {
          break;
        }
      }
    }

    /** Reads `//` and the rest of its line. */
    method ReadLineComment() returns (t: Token)
      requires Valid() && offset + 1 < |input| && input[offset] == '/' && input[offset + 1] == '/'
      modifies this
      ensures Valid() && offset == SpanWhile(input, old(offset) + 2, NotNewline)
      ensures t == CreateToken(Comment, input[old(offset)..offset], PositionAt(input, old(offset)))
    {
      var start := CurrentPosition();
      ghost var o := offset;
      Step();
      Step();
      var commentText := ReadWhile(NotNewline);
      SplitSlice(input, o, o + 2, offset);
      t := CreateToken(Comment, "//" + commentText, start);
    }

    // Reads a block comment up to and including the first closing star-slash;
    // a comment that never closes takes the rest of the input and is given a
    // closing star-slash all the same.
    method ReadBlockComment() returns (t: Token)
      requires Valid() && offset + 1 < |input| && input[offset] == '/' && input[offset + 1] == '*'
      modifies this
      ensures Valid()
      ensures FindClose(input, old(offset) + 2) < |input| ==>
        offset == FindClose(input, old(offset) + 2) + 2 && t.value == input[old(offset)..offset]
      ensures FindClose(input, old(offset) + 2) == |input| ==>
        offset == |input| && t.value == input[old(offset)..] + "*/"
      ensures t.kind == Comment && t.position == PositionAt(input, old(offset))
    {
      var start := CurrentPosition();
      ghost var o := offset;
      Step();
      Step();
      var commentText := ReadCommentBody();
      ghost var j := FindClose(input, o + 2);
      if j < |input| {
        ClosedCommentText(input, o, j);
      } else {
        OpenCommentText(input, o);
      }
      t := CreateToken(Comment, "/*" + commentText + "*/", start);
    }

    // The loop of ReadBlockComment: the body of a block comment, then its
    // closing star-slash when there is one.
    method ReadCommentBody() returns (commentText: string)
      requires Valid()
      modifies this
      ensures Valid()
      ensures FindClose(input, old(offset)) < |input| ==>
        offset == FindClose(input, old(offset)) + 2 && commentText == input[old(offset)..offset - 2]
      ensures FindClose(input, old(offset)) == |input| ==>
        offset == |input| && commentText == input[old(offset)..]
    {
      ghost var b := offset;
      ghost var j := FindClose(input, b);
      commentText := "";
      var ended := false;
      while offset < |input| && !ended
        invariant Valid()
        invariant !ended ==> b <= offset <= j && commentText == input[b..offset]
        invariant ended ==> j < |input| && offset == j + 2 && commentText == input[b..j]
        decreases |input| - offset, if ended then 0 else 1
      {
        var c := input[offset];
        FindCloseStep(input, b, offset);
        if ClosesAt(input, offset) {
          Step();
          Step();
          ended := true;
        } else {
          ExtendSlice(input, b, offset);
          commentText := commentText + [c];
          Step();
        }
      }
    }

    /**
     * Reads a string literal opened by `quote`, quotes and escapes kept: a
     * backslash takes the next character with it, and the literal ends at the
     * first unescaped `quote` or at the end of the input.
     */
    method ReadString(quote: char) returns (t: Token)
      requires Valid() && offset < |input| && input[offset] == quote
      requires quote == '"' || quote == '\''
      modifies this
      ensures Valid() && offset == StringEnd(input, old(offset) + 1, quote)
      ensures t == CreateToken(String, input[old(offset)..offset], PositionAt(input, old(offset)))
      ensures offset < |input| ==> ClosingQuote(input, old(offset) + 1, offset - 1, quote)
    {
      var start := CurrentPosition();
      ghost var o := offset;
      Step();
      var rest := ReadStringBody(quote);
      SplitSlice(input, o, o + 1, offset);
      assert input[o..o + 1] == [quote];
      StringEndFirstQuote(input, o + 1, quote);
      t := CreateToken(String, [quote] + rest, start);
    }

    // The loop of ReadString: the body of a string literal through its
    // closing quote, or to the end of the input.  A backslash takes the
    // next character with it.
    method ReadStringBody(quote: char) returns (text: string)
      requires Valid()
      modifies this
      ensures Valid() && old(offset) <= offset == StringEnd(input, old(offset), quote)
      ensures text == input[old(offset)..offset]
    {
      ghost var b := offset;
      text := "";
      var ended := false;
      while offset < |input| && !ended
        invariant Valid() && b <= offset && text == input[b..offset]
        invariant !ended ==> StringEnd(input, offset, quote) == StringEnd(input, b, quote)
        invariant ended ==> offset == StringEnd(input, b, quote)
        decreases |input| - offset, if ended then 0 else 1
      {
        var c := input[offset];
        ExtendSlice(input, b, offset);
        StringEndStep(input, offset, quote);
        if c == '\\' {
          text := text + [c];
          Step();
          if offset < |input| {
            var nextChar := input[offset];
            ExtendSlice(input, b, offset);
            text := text + [nextChar];
            Step();
          }
        } else if c == quote {
          text := text + [c];
          Step();
          ended := true;
        } else {
          text := text + [c];
          Step();
        }
      }
    }

    /** Reads digits, then a `.` and more digits when a `.` follows. */
    method ReadNumber() returns (t: Token)
      requires Valid() && offset < |input|
      modifies this
      ensures Valid() && offset == NumberEnd(input, old(offset))
      ensures t == CreateToken(Number, input[old(offset)..offset], PositionAt(input, old(offset)))
    {
      var start := CurrentPosition();
      ghost var o := offset;
      var numberStr := ReadWhile(IsDigit);
      if offset < |input| && input[offset] == '.' {
        ghost var d := offset;
        Step();
        numberStr := numberStr + ".";
        var fraction := ReadWhile(IsDigit);
        numberStr := numberStr + fraction;
        assert input[d..d + 1] == ".";
        SplitSlice(input, o, d, offset);
        SplitSlice(input, d, d + 1, offset);
      }
      t := CreateToken(Number, numberStr, start);
    }

    /** Reads a word of identifier characters: a boolean literal, a keyword or an identifier. */
    method ReadIdentifier() returns (t: Token)
      requires Valid() && offset < |input|
      modifies this
      ensures Valid() && offset == SpanWhile(input, old(offset), IsIdentifierChar)
      ensures t == CreateToken(ClassifyWord(input[old(offset)..offset]), input[old(offset)..offset],
                               PositionAt(input, old(offset)))
    {
      var start := CurrentPosition();
      var value := ReadWhile(IsIdentifierChar);
      if value == "true" || value == "false" {
        return CreateToken(Boolean, value, start);
      }
      if value in Keywords {
        return CreateToken(Keyword, value, start);
      }
      return CreateToken(Identifier, value, start);
    }

    /**
     * Reads the token that starts under the cursor, which is not whitespace:
     * a comment, a string, a number, a word, `@@`, or a one-character token.
     */
    method ReadToken() returns (t: Token)
      requires Valid() && offset < |input| && !IsWhitespace(input[offset])
      modifies this
      ensures Valid() && t == TokenAt(input, old(offset)) && offset == End(input, old(offset))
    {
      var o := offset;
      var c := input[o];
      if c == '/' && o + 1 < |input| && input[o + 1] == '/' {
        t := ReadLineComment();
      } else if c == '/' && o + 1 < |input| && input[o + 1] == '*' {
        t := ReadBlockComment();
      } else if c == '"' || c == '\'' {
        t := ReadString(c);
      } else if IsDigit(c) {
        t := ReadNumber();
      } else if IsIdentifierChar(c) {
        t := ReadIdentifier();
      } else {
        var tokenStart := CurrentPosition();
        if c == '@' && o + 1 < |input| && input[o + 1] == '@' {
          Step();
          Step();
          t := CreateToken(AtAt, "@@", tokenStart);
        } else {
          t := CreateToken(PunctuationKind(c), [c], tokenStart);
          Step();
        }
      }
    }
  }

  /**
   * Splits `input` into tokens: whitespace is skipped, every other character
   * starts the token its kind calls for, and an end-of-input token closes the
   * list.  The result is the tokenization of `input`.
   */
  method Tokenize(input: string) returns (tokens: seq<Token>)
    ensures IsTokenization(input, tokens)
  {
    tokens := [];
    var scanner := new Scanner(input);
    while scanner.offset < |input|
      invariant scanner.Valid() && scanner.input == input
      invariant Scanned(input, tokens, scanner.offset)
      decreases |input| - scanner.offset
    {
      var o := scanner.offset;
      var c := input[o];

      if IsWhitespace(c) {
        var _ := scanner.ReadWhile(IsWhitespace);
        ScannedSkip(input, tokens, o, scanner.offset);
        continue;
      }

      ScannedPush(input, tokens, o);
      var t := scanner.ReadToken();
      tokens := tokens + [t];
    }

    tokens := tokens + [CreateToken(Eof, "", scanner.CurrentPosition())];
    assert Body(tokens) == tokens[..|tokens| - 1];
  }
}
