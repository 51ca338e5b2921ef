/**
 * Worked tokenizations of small inputs on one line: the punctuation row
 * `{}[]()=.,?@@@`, where `@@` is read before `@`, and `123abc`, where a number
 * stops at the first character that is not a digit.
 */
module LexicalExamples {
  import opened Tokens
  import opened Lexical

  /** On a first line, the cursor after `i` characters is at column `i + 1`. */
  lemma {:induction false} SingleLinePosition(s: string, i: nat)
    requires i <= |s| && forall k :: 0 <= k < i ==> s[k] != '\n'
    ensures PositionAt(s, i) == SourcePosition(1, i + 1, i)
  {
    if i > 0 {
      SingleLinePosition(s, i - 1);
    }
  }

  /** On an input with no line break, the cursor after `i` characters is at column `i + 1` of line 1. */
  lemma OneLinePosition(s: string, i: nat)
    requires i <= |s| && OneLine(s)
    ensures PositionAt(s, i) == SourcePosition(1, i + 1, i)
  {
    assert forall k :: 0 <= k < i ==> s[k] in s;
    SingleLinePosition(s, i);
  }

  /** Nothing has been scanned before the first character. */
  lemma EmptyScan(s: string)
    ensures Scanned(s, [], 0)
  {
  }

  /** The input has no line break, so it all lies on the first line. */
  predicate OneLine(s: string) {
    '\n' !in s
  }

  /** The one-character token at `o` on a first line: its punctuation kind, its character, column `o + 1`. */
  lemma PunctuationToken(s: string, o: nat)
    requires o < |s| && s[o] in "{}[]()=.,:?" && OneLine(s)
    ensures StartsToken(s, o) && End(s, o) == o + 1
    ensures TokenAt(s, o) == Token(PunctuationKind(s[o]), [s[o]], SourcePosition(1, o + 1, o))
  {
    OneLinePosition(s, o);
  }

  /** The first ten tokens of a row of ten one-character punctuation tokens. */
  lemma PunctuationPrefix(s: string) returns (toks: seq<Token>)
    requires 10 <= |s| && OneLine(s) && forall k :: 0 <= k < 10 ==> s[k] in "{}[]()=.,:?"
    ensures Scanned(s, toks, 10) && |toks| == 10
    ensures forall k :: 0 <= k < 10 ==> toks[k] == Token(PunctuationKind(s[k]), [s[k]], SourcePosition(1, k + 1, k))
  {
    toks := [];
    EmptyScan(s);
    var o := 0;
    while o < 10
      invariant 0 <= o <= 10 && |toks| == o && Scanned(s, toks, o)
      invariant forall k :: 0 <= k < o ==> toks[k] == Token(PunctuationKind(s[k]), [s[k]], SourcePosition(1, k + 1, k))
    {
      PunctuationToken(s, o);
      ScannedPush(s, toks, o);
      toks := toks + [TokenAt(s, o)];
      o := o + 1;
    }
  }

  /** Three at-signs at offset 10 of a line: `@@` first, then `@`. */
  lemma ThreeAtSigns(s: string, toks: seq<Token>)
    requires |s| == 13 && OneLine(s) && s[10] == '@' && s[11] == '@' && s[12] == '@'
    requires Scanned(s, toks, 10)
    ensures Scanned(s, toks + [Token(AtAt, "@@", SourcePosition(1, 11, 10)), Token(At, "@", SourcePosition(1, 13, 12))], 13)
  {
    OneLinePosition(s, 10);
    OneLinePosition(s, 12);
    assert TokenAt(s, 10) == Token(AtAt, "@@", SourcePosition(1, 11, 10)) && End(s, 10) == 12;
    ScannedPush(s, toks, 10);
    var toks' := toks + [TokenAt(s, 10)];
    assert TokenAt(s, 12) == Token(At, "@", SourcePosition(1, 13, 12)) && End(s, 12) == 13;
    ScannedPush(s, toks', 12);
    assert toks' + [TokenAt(s, 12)] ==
      toks + [Token(AtAt, "@@", SourcePosition(1, 11, 10)), Token(At, "@", SourcePosition(1, 13, 12))];
  }

  /** The scan of a whole input followed by the end-of-input token is its tokenization. */
  lemma Completed(s: string, toks: seq<Token>)
    requires Scanned(s, toks, |s|)
    ensures IsTokenization(s, toks + [EofToken(s)])
  {
    var all := toks + [EofToken(s)];
    assert all[..|all| - 1] == toks;
  }

  /** The ten one-character tokens of `{}[]()=.,?`, from their characters. */
  lemma PunctuationKinds(s: string, toks: seq<Token>)
    requires s == "{}[]()=.,?@@@" && |toks| == 10
    requires forall k :: 0 <= k < 10 ==> toks[k] == Token(PunctuationKind(s[k]), [s[k]], SourcePosition(1, k + 1, k))
    ensures toks == [
      Token(BraceLeft, "{", SourcePosition(1, 1, 0)), Token(BraceRight, "}", SourcePosition(1, 2, 1)),
      Token(BracketLeft, "[", SourcePosition(1, 3, 2)), Token(BracketRight, "]", SourcePosition(1, 4, 3)),
      Token(ParenLeft, "(", SourcePosition(1, 5, 4)), Token(ParenRight, ")", SourcePosition(1, 6, 5)),
      Token(Equals, "=", SourcePosition(1, 7, 6)), Token(Dot, ".", SourcePosition(1, 8, 7)),
      Token(Comma, ",", SourcePosition(1, 9, 8)), Token(Question, "?", SourcePosition(1, 10, 9))]
  {
    assert toks[0] == Token(BraceLeft, "{", SourcePosition(1, 1, 0));
    assert toks[1] == Token(BraceRight, "}", SourcePosition(1, 2, 1));
    assert toks[2] == Token(BracketLeft, "[", SourcePosition(1, 3, 2));
    assert toks[3] == Token(BracketRight, "]", SourcePosition(1, 4, 3));
    assert toks[4] == Token(ParenLeft, "(", SourcePosition(1, 5, 4));
    assert toks[5] == Token(ParenRight, ")", SourcePosition(1, 6, 5));
    assert toks[6] == Token(Equals, "=", SourcePosition(1, 7, 6));
    assert toks[7] == Token(Dot, ".", SourcePosition(1, 8, 7));
    assert toks[8] == Token(Comma, ",", SourcePosition(1, 9, 8));
    assert toks[9] == Token(Question, "?", SourcePosition(1, 10, 9));
  }

  /** What the row `{}[]()=.,?@@@` is made of. */
  lemma RowCharacters(s: string)
    requires s == "{}[]()=.,?@@@"
    ensures |s| == 13 && OneLine(s) && s[10] == '@' && s[11] == '@' && s[12] == '@'
    ensures forall k :: 0 <= k < 10 ==> s[k] in "{}[]()=.,:?"
  {
    assert forall k :: 0 <= k < |s| ==> s[k] != '\n';
  }

  /** Ten one-character tokens, then `@@@`, on one line: the scan of the whole row. */
  lemma RowTokens(s: string) returns (toks: seq<Token>)
    requires |s| == 13 && OneLine(s) && s[10] == '@' && s[11] == '@' && s[12] == '@'
    requires forall k :: 0 <= k < 10 ==> s[k] in "{}[]()=.,:?"
    ensures |toks| == 10
    ensures forall k :: 0 <= k < 10 ==> toks[k] == Token(PunctuationKind(s[k]), [s[k]], SourcePosition(1, k + 1, k))
    ensures IsTokenization(s, toks + [Token(AtAt, "@@", SourcePosition(1, 11, 10)), Token(At, "@", SourcePosition(1, 13, 12)),
      Token(Eof, "", SourcePosition(1, 14, 13))])
  {
    toks := PunctuationPrefix(s);
    ThreeAtSigns(s, toks);
    OneLinePosition(s, 13);
    var scan := toks + [Token(AtAt, "@@", SourcePosition(1, 11, 10)), Token(At, "@", SourcePosition(1, 13, 12))];
    Completed(s, scan);
    assert EofToken(s) == Token(Eof, "", SourcePosition(1, 14, 13));
    assert scan + [EofToken(s)] == toks + [Token(AtAt, "@@", SourcePosition(1, 11, 10)),
      Token(At, "@", SourcePosition(1, 13, 12)), Token(Eof, "", SourcePosition(1, 14, 13))];
  }

  /**
   * `{}[]()=.,?@@@` tokenizes to the ten one-character tokens, AT_AT for the
   * first two at-signs, AT for the last one, and the end-of-input token: thirteen tokens.
   */
  lemma PunctuationRow()
    ensures IsTokenization("{}[]()=.,?@@@", [
      Token(BraceLeft, "{", SourcePosition(1, 1, 0)), Token(BraceRight, "}", SourcePosition(1, 2, 1)),
      Token(BracketLeft, "[", SourcePosition(1, 3, 2)), Token(BracketRight, "]", SourcePosition(1, 4, 3)),
      Token(ParenLeft, "(", SourcePosition(1, 5, 4)), Token(ParenRight, ")", SourcePosition(1, 6, 5)),
      Token(Equals, "=", SourcePosition(1, 7, 6)), Token(Dot, ".", SourcePosition(1, 8, 7)),
      Token(Comma, ",", SourcePosition(1, 9, 8)), Token(Question, "?", SourcePosition(1, 10, 9))] + [
      Token(AtAt, "@@", SourcePosition(1, 11, 10)), Token(At, "@", SourcePosition(1, 13, 12)),
      Token(Eof, "", SourcePosition(1, 14, 13))])
  {
    var s := "{}[]()=.,?@@@";
    RowCharacters(s);
    var toks := RowTokens(s);
    PunctuationKinds(s, toks);
  }

  /** Three digits then three letters, on one line: the first token is the NUMBER of the three digits. */
  lemma DigitsFirst(s: string)
    requires |s| == 6 && OneLine(s)
    requires forall k :: 0 <= k < 3 ==> IsDigit(s[k])
    requires forall k :: 3 <= k < 6 ==> IsIdentifierChar(s[k]) && !IsDigit(s[k])
    ensures StartsToken(s, 0) && End(s, 0) == 3
    ensures TokenAt(s, 0) == Token(Number, s[..3], SourcePosition(1, 1, 0))
  {
    OneLinePosition(s, 0);
    assert SpanWhile(s, 0, IsDigit) == 3 by {
      assert !IsDigit(s[3]);
    }
  }

  /** Three digits then three letters, on one line: the second token is the word of the three letters. */
  lemma WordSecond(s: string)
    requires |s| == 6 && OneLine(s)
    requires forall k :: 3 <= k < 6 ==> IsIdentifierChar(s[k]) && !IsDigit(s[k])
    ensures StartsToken(s, 3) && End(s, 3) == 6
    ensures TokenAt(s, 3) == Token(ClassifyWord(s[3..]), s[3..], SourcePosition(1, 4, 3))
  {
    OneLinePosition(s, 3);
    assert SpanWhile(s, 3, IsIdentifierChar) == 6 by {
      assert IsIdentifierChar(s[3]) && IsIdentifierChar(s[4]) && IsIdentifierChar(s[5]);
    }
    assert s[3..6] == s[3..];
    assert LexemeAt(s, 3) == Lexeme(ClassifyWord(s[3..]), s[3..], 6);
  }

  /** Three digits then three letters, on one line: a NUMBER token, then a word token. */
  lemma DigitsThenWord(s: string)
    requires |s| == 6 && OneLine(s)
    requires forall k :: 0 <= k < 3 ==> IsDigit(s[k])
    requires forall k :: 3 <= k < 6 ==> IsIdentifierChar(s[k]) && !IsDigit(s[k])
    ensures IsTokenization(s, [
      Token(Number, s[..3], SourcePosition(1, 1, 0)),
      Token(ClassifyWord(s[3..]), s[3..], SourcePosition(1, 4, 3)),
      Token(Eof, "", SourcePosition(1, 7, 6))])
  {
    DigitsFirst(s);
    WordSecond(s);
    DigitsWordScan(s);
    Completed(s, [TokenAt(s, 0), TokenAt(s, 3)]);
    OneLinePosition(s, 6);
    assert EofToken(s) == Token(Eof, "", SourcePosition(1, 7, 6));
  }

  /** The number at 0 and the word at 3 are the scan of the six characters. */
  lemma DigitsWordScan(s: string)
    requires |s| == 6 && StartsToken(s, 0) && End(s, 0) == 3 && StartsToken(s, 3) && End(s, 3) == 6
    ensures Scanned(s, [TokenAt(s, 0), TokenAt(s, 3)], 6)
  {
    EmptyScan(s);
    ScannedPush(s, [], 0);
    assert [] + [TokenAt(s, 0)] == [TokenAt(s, 0)];
    ScannedPush(s, [TokenAt(s, 0)], 3);
    assert [TokenAt(s, 0)] + [TokenAt(s, 3)] == [TokenAt(s, 0), TokenAt(s, 3)];
  }

  /** `123abc` is a NUMBER `123` followed by an IDENTIFIER `abc`: a number does not run into a word. */
  lemma DigitsThenLetters()
    ensures IsTokenization("123abc", [
      Token(Number, "123", SourcePosition(1, 1, 0)),
      Token(Identifier, "abc", SourcePosition(1, 4, 3)),
      Token(Eof, "", SourcePosition(1, 7, 6))])
  {
    var s := "123abc";
    assert OneLine(s);
    assert s[..3] == "123" && s[3..] == "abc";
    KeywordTable();
    assert "abc" !in Keywords;
    DigitsThenWord(s);
  }
}
