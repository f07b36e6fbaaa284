/** The lexer object of src/frontend/lexer.cpp. */
module Lexers {
  import opened Prelude
  import opened Tokens

  method EqualsIgnoreCase(left: string, right: string) returns (r: bool)
    ensures r <==> SameIgnoringCase(left, right)
    ensures r <==> |left| == |right| && forall i | 0 <= i < |left| :: EqualUpToCase(left[i], right[i])
  {
    assert forall a, b :: ToLower(a) == ToLower(b) <==> EqualUpToCase(a, b);
    if |left| != |right| {
      return false;
    }
    for index := 0 to |left|
      invariant forall i | 0 <= i < index :: ToLower(left[i]) == ToLower(right[i])
    {
      if ToLower(left[index]) != ToLower(right[index]) {
        return false;
      }
    }
    return true;
  }

  method ClassifyKeyword(text: string) returns (kind: Option<TokenKind>)
    ensures kind == Lookup(KEYWORDS, text)
  {
    hide Lookup, SameIgnoringCase, KEYWORDS;
    assert KEYWORDS[0..] == KEYWORDS;
    for i := 0 to |KEYWORDS|
      invariant Lookup(KEYWORDS[i..], text) == Lookup(KEYWORDS, text)
    {
      LookupStep(KEYWORDS, i, text);
      var same := EqualsIgnoreCase(text, KEYWORDS[i].spelling);
      if same {
        return Some(KEYWORDS[i].kind);
      }
    }
    LookupEnd(KEYWORDS, text);
    return None;
  }

  lemma LookupStep(table: seq<Keyword>, i: nat, text: string)
    requires i < |table|
    ensures Lookup(table[i..], text) ==
      if SameIgnoringCase(text, table[i].spelling) then Some(table[i].kind) else Lookup(table[i + 1..], text)
  {
    assert table[i..][1..] == table[i + 1..];
  }

  lemma LookupEnd(table: seq<Keyword>, text: string)
    ensures Lookup(table[|table|..], text) == None
  {
  }

  class Lexer {
    const input: string
    var pos: nat
    var line: nat
    var column: nat

    /** The location is always that of `pos`. */
    predicate Valid()
      reads this
    {
      pos <= |input| && line == LineAt(input, pos) && column == ColumnAt(input, pos)
    }

    constructor (input: string)
      ensures Valid() && this.input == input && pos == 0
    {
      this.input := input;
      pos, line, column := 0, 1, 1;
    }

    predicate AtEnd()
      reads this
    {
      pos >= |input|
    }

    function Peek(): char
      reads this
    {
      if AtEnd() then '\0' else input[pos]
    }

    method Advance() returns (current: char)
      requires Valid()
      modifies this
      ensures Valid()
      ensures pos == if old(pos) < |input| then old(pos) + 1 else old(pos)
      ensures current == old(Peek())
    {
      if AtEnd() {
        return '\0';
      }
      current := input[pos];
      pos := pos + 1;
      if current == '\n' {
        line := line + 1;
        column := 1;
      } else {
        column := column + 1;
      }
    }

    method Match(expected: char) returns (matched: bool)
      requires Valid() && expected != '\0'
      modifies this
      ensures Valid()
      ensures matched <==> old(pos) < |input| && input[old(pos)] == expected
      ensures pos == if matched then old(pos) + 1 else old(pos)
    {
      if Peek() != expected {
        return false;
      }
      var _ := Advance();
      return true;
    }

    method SkipLineComment()
      requires Valid()
      modifies this
      ensures Valid() && pos == RunEnd(input, old(pos), NotNewline)
    {
      while !AtEnd() && Peek() != '\n'
        invariant Valid()
        invariant RunEnd(input, pos, NotNewline) == RunEnd(input, old(pos), NotNewline)
        decreases |input| - pos
      {
        var _ := Advance();
      }
    }

    method SkipWhitespaceAndComments()
      requires Valid()
      modifies this
      ensures Valid() && pos == GapEnd(input, old(pos))
    {
      while !AtEnd()
        invariant Valid()
        invariant GapEnd(input, pos) == GapEnd(input, old(pos))
        decreases |input| - pos
      {
        if IsWhitespace(Peek()) {
          var _ := Advance();
        } else if Peek() == '-' && pos + 1 < |input| && input[pos + 1] == '-' {
          assert RunEnd(input, pos, NotNewline)
            == RunEnd(input, pos + 1, NotNewline)
            == RunEnd(input, pos + 2, NotNewline);
          SkipLineComment();
        } else {
          break;
        }
      }
    }

    function MakeToken(kind: TokenKind, start: nat, startLine: nat, startColumn: nat): Token
      requires start <= pos <= |input|
      reads this
    {
      Token(kind, input[start..pos], startLine, startColumn)
    }

    method ScanIdentifierOrKeyword(start: nat, startLine: nat, startColumn: nat) returns (token: Token)
      requires Valid() && start == pos
      modifies this
      ensures Valid() && pos == RunEnd(input, start, IsIdentifierContinue)
      ensures token == Token(WordKind(input[start..pos]), input[start..pos], startLine, startColumn)
    {
      while IsIdentifierContinue(Peek())
        invariant Valid()
        invariant start <= pos && RunEnd(input, pos, IsIdentifierContinue) == RunEnd(input, start, IsIdentifierContinue)
        decreases |input| - pos
      {
        var _ := Advance();
      }
      var text := input[start..pos];
      var keyword := ClassifyKeyword(text);
      if keyword.Some? {
        return Token(keyword.value, text, startLine, startColumn);
      }
      return Token(Identifier, text, startLine, startColumn);
    }

    method ScanNumber(start: nat, startLine: nat, startColumn: nat) returns (token: Token)
      requires Valid() && start == pos
      modifies this
      ensures Valid() && pos == RunEnd(input, start, IsDigit)
      ensures token == Token(IntegerLiteral, input[start..pos], startLine, startColumn)
    {
      while IsDigit(Peek())
        invariant Valid()
        invariant start <= pos && RunEnd(input, pos, IsDigit) == RunEnd(input, start, IsDigit)
        decreases |input| - pos
      {
        var _ := Advance();
      }
      token := MakeToken(IntegerLiteral, start, startLine, startColumn);
    }

    method ScanString(start: nat, startLine: nat, startColumn: nat) returns (token: Token)
      requires Valid() && start == pos && !AtEnd()
      modifies this
      ensures Valid()
      ensures match StringEnd(input, start + 1)
        case Some(end) => pos == end && token == Token(StringLiteral, input[start..end], startLine, startColumn)
        case None => pos == |input| && token == Token(Invalid, input[start..], startLine, startColumn)
    {
      var _ := Advance();
      while !AtEnd()
        invariant Valid() && start < pos
        invariant StringEnd(input, pos) == StringEnd(input, start + 1)
        decreases |input| - pos
      {
        var character := Advance();
        if character == '\'' {
          if Peek() == '\'' {
            var _ := Advance();
          } else {
            return MakeToken(StringLiteral, start, startLine, startColumn);
          }
        }
      }
      return Token(Invalid, input[start..], startLine, startColumn);
    }

    /** Called after the first character of the token has been consumed. */
    method ScanPunctuationToken(punctuation: char, start: nat, startLine: nat, startColumn: nat) returns (token: Token)
      requires Valid() && start < |input| && pos == start + 1 && input[start] == punctuation
      modifies this
      ensures Valid()
      ensures var r := ScanPunctuation(input, start);
        pos == r.end && token == Token(r.kind, input[start..pos], startLine, startColumn)
    {
      var kind := Invalid;
      match punctuation {
        case ',' => kind := Comma;
        case ';' => kind := Semicolon;
        case '.' => kind := Dot;
        case '(' => kind := LParen;
        case ')' => kind := RParen;
        case '*' => kind := Star;
        case '=' => kind := Equal;
        case '<' =>
          var orEqual := Match('=');
          if orEqual {
            kind := LessEqual;
          } else {
            var different := Match('>');
            kind := if different then NotEqual else Less;
          }
        case '>' =>
          var orEqual := Match('=');
          kind := if orEqual then GreaterEqual else Greater;
        case '!' =>
          var different := Match('=');
          kind := if different then NotEqual else Invalid;
        case _ =>
      }
      token := MakeToken(kind, start, startLine, startColumn);
    }

    method Next() returns (token: Token)
      requires Valid()
      modifies this
      ensures Valid()
      ensures token == TokenOf(input, NextLexed(input, old(pos)))
      ensures pos == NextLexed(input, old(pos)).end
    {
      SkipWhitespaceAndComments();
      var start, startLine, startColumn := pos, line, column;
      if AtEnd() {
        return Token(EndOfFile, "", startLine, startColumn);
      }
      token := ScanAt(start, startLine, startColumn);
    }

    method ScanAt(start: nat, startLine: nat, startColumn: nat) returns (token: Token)
      requires Valid() && start == pos && !AtEnd()
      modifies this
      ensures Valid() && pos == ScanToken(input, start).end
      ensures token == Token(ScanToken(input, start).kind, input[start..pos], startLine, startColumn)
    {
      var character := Peek();
      if IsIdentifierStart(character) {
        token := ScanIdentifierOrKeyword(start, startLine, startColumn);
      } else if IsDigit(character) {
        token := ScanNumber(start, startLine, startColumn);
      } else if character == '\'' {
        token := ScanString(start, startLine, startColumn);
      } else {
        var _ := Advance();
        token := ScanPunctuationToken(character, start, startLine, startColumn);
      }
    }
  }
}
