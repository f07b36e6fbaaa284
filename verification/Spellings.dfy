/**
 * What the lexer recognises, spelled out: the words and marks of the language, letter by letter, and
 * the shapes of names, numbers, strings and gaps. Nothing here refers to the tables of the lexer.
 */
module Spellings {
  import opened Prelude
  import opened Values
  import opened Tokens
  import opened LexerTheorems
  import opened Rendering

  datatype Spelled = Spelled(text: string, kind: TokenKind)

  const WORDS: seq<Spelled> := [
    Spelled("select", Select), Spelled("from", From), Spelled("where", Where), Spelled("insert", Insert),
    Spelled("into", Into), Spelled("create", Create), Spelled("table", Table), Spelled("schema", Schema),
    Spelled("database", Database), Spelled("values", TokenKind.Values), Spelled("int", Int), Spelled("text", Text),
    Spelled("and", And), Spelled("or", Or), Spelled("not", Not), Spelled("null", Null),
    Spelled("true", True), Spelled("false", False)
  ]

  const MARKS: seq<Spelled> := [
    Spelled(",", Comma), Spelled(";", Semicolon), Spelled(".", Dot), Spelled("(", LParen), Spelled(")", RParen),
    Spelled("*", Star), Spelled("=", Equal), Spelled("<>", NotEqual), Spelled("!=", NotEqual), Spelled("<", Less),
    Spelled("<=", LessEqual), Spelled(">", Greater), Spelled(">=", GreaterEqual)
  ]

  // ----- characters -----

  predicate IsLetter(c: char) {
    'a' <= c <= 'z' || 'A' <= c <= 'Z' || c == '_'
  }

  predicate IsDecimalDigit(c: char) {
    '0' <= c <= '9'
  }

  /** The word, each letter in either case. */
  predicate IsCaseOf(s: string, word: string) {
    |s| == |word| && forall i | 0 <= i < |s| :: EqualUpToCase(s[i], word[i])
  }

  lemma CaseIff(s: string, word: string)
    ensures SameIgnoringCase(s, word) <==> IsCaseOf(s, word)
  {
    assert forall a, b :: ToLower(a) == ToLower(b) <==> EqualUpToCase(a, b);
  }

  // ----- words -----

  lemma WordTable()
    ensures |WORDS| == |KEYWORDS|
    ensures forall i | 0 <= i < |WORDS| :: KEYWORDS[i].spelling == WORDS[i].text && KEYWORDS[i].kind == WORDS[i].kind
  {
  }

  /** Length and first two letters tell the words apart. */
  predicate Distinct(a: string, b: string) {
    |a| != |b| || (2 <= |a| && (!EqualUpToCase(a[0], b[0]) || !EqualUpToCase(a[1], b[1])))
  }

  lemma WordsDiffer()
    ensures forall i, j | 0 <= i < j < |WORDS| :: Distinct(WORDS[j].text, WORDS[i].text)
  {
  }

  predicate IsLowercase(s: string) {
    s != "" && forall i | 0 <= i < |s| :: 'a' <= s[i] <= 'z'
  }

  lemma WordsAreLowercase()
    ensures forall i | 0 <= i < |WORDS| :: IsLowercase(WORDS[i].text)
  {
  }

  lemma WordKinds()
    ensures forall i | 0 <= i < |WORDS| :: !CarriesText(WORDS[i].kind) && WORDS[i].kind != Invalid
  {
  }

  /** A letter, then letters and digits. */
  predicate IsNameShaped(s: string) {
    s != "" && IsLetter(s[0]) && forall i | 0 <= i < |s| :: IsLetter(s[i]) || IsDecimalDigit(s[i])
  }

  lemma NameShapedLexeme(s: string)
    requires IsNameShaped(s)
    ensures IsLexeme(s, SymbolOf(WordKind(s), s))
  {
    hide WordKind;
    RunStops(s, 0, IsIdentifierContinue, |s|);
    assert s[0..|s|] == s;
  }

  lemma CaseOfWordShaped(s: string, word: string)
    requires IsCaseOf(s, word) && IsLowercase(word)
    ensures IsNameShaped(s)
  {
    assert forall i | 0 <= i < |s| :: EqualUpToCase(s[i], word[i]);
  }

  lemma {:induction false} LookupCase(table: seq<Keyword>, s: string, i: nat)
    requires i < |table| && SameIgnoringCase(s, table[i].spelling)
    requires forall j | 0 <= j < i :: !SameIgnoringCase(s, table[j].spelling)
    ensures Lookup(table, s) == Some(table[i].kind)
    decreases i
  {
    if i != 0 {
      LookupCase(table[1..], s, i - 1);
    }
  }

  lemma DistinctCases(s: string, a: string, b: string)
    requires IsCaseOf(s, a) && Distinct(a, b) && IsLowercase(a) && IsLowercase(b)
    ensures !IsCaseOf(s, b)
  {
    if |a| == |b| {
      var i := if EqualUpToCase(a[0], b[0]) then 1 else 0;
      assert EqualUpToCase(s[i], a[i]) && 'a' <= a[i] <= 'z' && 'a' <= b[i] <= 'z';
      assert !EqualUpToCase(s[i], b[i]);
    }
  }

  /** Each of the words, with every letter in either case, is a token of its kind. */
  lemma WordLexeme(k: nat, s: string)
    requires k < |WORDS| && IsCaseOf(s, WORDS[k].text)
    ensures IsLexeme(s, Symbol(WORDS[k].kind, ""))
  {
    hide IsLexeme, IsCaseOf, Distinct, Lookup;
    WordTable();
    WordsDiffer();
    WordsAreLowercase();
    WordKinds();
    forall j | 0 <= j < k ensures !SameIgnoringCase(s, KEYWORDS[j].spelling) {
      DistinctCases(s, WORDS[k].text, WORDS[j].text);
      CaseIff(s, WORDS[j].text);
    }
    CaseIff(s, WORDS[k].text);
    LookupCase(KEYWORDS, s, k);
    CaseOfWordShaped(s, WORDS[k].text);
    NameShapedLexeme(s);
  }

  /** Names are exactly the words of letters and digits that start with a letter and are not reserved. */
  lemma NameIff(s: string)
    ensures IsName(s) <==> IsNameShaped(s) && forall k | 0 <= k < |WORDS| :: !IsCaseOf(s, WORDS[k].text)
  {
    if IsName(s) {
      NameIsShaped(s);
      forall k | 0 <= k < |WORDS| ensures !IsCaseOf(s, WORDS[k].text) {
        if IsCaseOf(s, WORDS[k].text) {
          WordLexeme(k, s);
          WordKinds();
        }
      }
    } else if IsNameShaped(s) {
      NameShapedLexeme(s);
      WordTable();
      var i :| 0 <= i < |KEYWORDS| && SameIgnoringCase(s, KEYWORDS[i].spelling);
      CaseIff(s, WORDS[i].text);
    }
  }

  lemma NameIsShaped(s: string)
    requires IsName(s)
    ensures IsNameShaped(s)
  {
    MarksAreNoNames(s);
    hide ScanPunctuation, WordKind, StringEnd;
    assert IsLetter(s[0]);
    assert RunEnd(s, 0, IsIdentifierContinue) == |s|;
    RunIsMaximal(s, 0, IsIdentifierContinue);
    forall i | 0 <= i < |s| ensures IsLetter(s[i]) || IsDecimalDigit(s[i]) {
      assert IsIdentifierContinue(s[i]);
    }
  }

  lemma MarksAreNoNames(s: string)
    requires s != ""
    ensures ScanPunctuation(s, 0).kind != Identifier
  {
  }

  // ----- marks -----

  /** The longest mark a text starts with is its first token. */
  lemma LongestMark(s: string, k: nat)
    requires k < |MARKS| && MARKS[k].text <= s
    requires forall j | 0 <= j < |MARKS| && MARKS[j].text <= s :: |MARKS[j].text| <= |MARKS[k].text|
    ensures ScanToken(s, 0) == Scanned(MARKS[k].kind, |MARKS[k].text|)
  {
    assert MARKS[7].text <= s ==> |MARKS[7].text| <= |MARKS[k].text|;
    assert MARKS[10].text <= s ==> |MARKS[10].text| <= |MARKS[k].text|;
    assert MARKS[12].text <= s ==> |MARKS[12].text| <= |MARKS[k].text|;
  }

  predicate StartsMark(s: string) {
    exists k :: 0 <= k < |MARKS| && MARKS[k].text <= s
  }

  /** A character that starts nothing is an invalid token by itself. */
  lemma StrayCharacter(s: string)
    requires s != "" && !IsLetter(s[0]) && !IsDecimalDigit(s[0]) && s[0] != '\'' && !StartsMark(s)
    ensures ScanToken(s, 0) == Scanned(Invalid, 1)
  {
    forall k | 0 <= k < |MARKS| ensures !(MARKS[k].text <= s) {
    }
    MarksOfOneCharacter(s);
  }

  lemma MarksOfOneCharacter(s: string)
    requires s != "" && forall k | 0 <= k < |MARKS| :: !(MARKS[k].text <= s)
    ensures ScanPunctuation(s, 0) == Scanned(Invalid, 1)
  {
    var one := s[..1];
    forall k | 0 <= k < |MARKS| && |MARKS[k].text| == 1 ensures MARKS[k].text[0] != s[0] {
      assert MARKS[k].text == [MARKS[k].text[0]];
      assert !(MARKS[k].text <= s);
      assert one == [s[0]];
    }
    OneCharacterMarks(s[0]);
    assert MARKS[8].text == "!=" && !(MARKS[8].text <= s);
  }

  lemma OneCharacterMarks(c: char)
    requires forall k | 0 <= k < |MARKS| && |MARKS[k].text| == 1 :: MARKS[k].text[0] != c
    ensures c != ',' && c != ';' && c != '.' && c != '(' && c != ')' && c != '*' && c != '=' && c != '<' && c != '>'
  {
    assert MARKS[0].text[0] == ',' && MARKS[1].text[0] == ';' && MARKS[2].text[0] == '.';
    assert MARKS[3].text[0] == '(' && MARKS[4].text[0] == ')' && MARKS[5].text[0] == '*';
    assert MARKS[6].text[0] == '=' && MARKS[9].text[0] == '<' && MARKS[11].text[0] == '>';
  }

  // ----- numbers and strings -----

  lemma NumberIff(s: string)
    ensures IsLexeme(s, Symbol(TokenKind.IntegerLiteral, s)) <==>
      s != "" && forall i | 0 <= i < |s| :: IsDecimalDigit(s[i])
  {
    if s != "" && forall i | 0 <= i < |s| :: IsDecimalDigit(s[i]) {
      RunStops(s, 0, IsDigit, |s|);
    }
    if IsLexeme(s, Symbol(TokenKind.IntegerLiteral, s)) {
      NumberIsDigits(s);
    }
  }

  lemma NumberIsDigits(s: string)
    requires IsLexeme(s, Symbol(TokenKind.IntegerLiteral, s))
    ensures forall i | 0 <= i < |s| :: IsDecimalDigit(s[i])
  {
    MarksAreNoNumbers(s);
    hide ScanPunctuation, StringEnd;
    assert RunEnd(s, 0, IsDigit) == |s|;
    RunIsMaximal(s, 0, IsDigit);
    forall i | 0 <= i < |s| ensures IsDecimalDigit(s[i]) {
      assert IsDigit(s[i]);
    }
  }

  lemma MarksAreNoNumbers(s: string)
    requires s != ""
    ensures ScanPunctuation(s, 0).kind != TokenKind.IntegerLiteral
  {
  }

  /** A quote opens a string up to the first quote that is not doubled. */
  lemma StringToken(body: string, rest: string)
    requires IsEscaped(body) && (rest == "" || rest[0] != '\'')
    ensures ScanToken("'" + body + "'" + rest, 0) == Scanned(TokenKind.StringLiteral, |body| + 2)
  {
    hide IsEscaped, ScanToken;
    var text := "'" + body + "'";
    assert text[1..|text| - 1] == body;
    LiteralIsLexeme(text);
    ScanExtend(text, Symbol(TokenKind.StringLiteral, text), rest);
  }

  /** If there is none, the rest of the input is an invalid token. */
  lemma UnterminatedString(body: string)
    requires IsEscaped(body)
    ensures ScanToken("'" + body, 0) == Scanned(Invalid, |body| + 1)
  {
    hide IsEscaped, StringEnd, RunEnd, WordKind, ScanPunctuation;
    var text := "'" + body;
    assert text[0] == '\'' && |text| == |body| + 1 && IsSuffix(text, 1, body);
    NoEnd(body);
    StringShift(text, 1, body, 0);
  }

  lemma {:induction false} NoEnd(body: string)
    requires IsEscaped(body)
    ensures StringEnd(body, 0) == None
  {
    if body != "" {
      var n := if body[0] == '\'' then 2 else 1;
      NoEnd(body[n..]);
      StringShift(body, n, body[n..], 0);
    }
  }

  // ----- what may stand between and after tokens -----

  predicate IsBlank(c: char) {
    c == ' ' || c == '\t' || c == '\n' || c == '\r'
  }

  /** A gap starts with a blank or two dashes, and only then is anything skipped. */
  lemma GapStartsIff(s: string)
    ensures NextLexed(s, 0).start == 0 <==> !((s != "" && IsBlank(s[0])) || "--" <= s)
  {
    assert StartsComment(s, 0) <==> "--" <= s;
  }

  /** What written right after a lexeme would run together with it. */
  predicate RunsOn(text: string, c: char)
    requires text != ""
  {
    if IsLetter(text[0]) then IsLetter(c) || IsDecimalDigit(c)
    else if IsDecimalDigit(text[0]) then IsDecimalDigit(c)
    else if text[0] == '\'' then c == '\''
    else (text == "<" && (c == '=' || c == '>')) || ((text == ">" || text == "!") && c == '=')
  }

  /** Before anything else, a lexeme is a token of its kind and length. */
  lemma LexemeBefore(text: string, symbol: Symbol, rest: string)
    requires IsLexeme(text, symbol) && (rest == "" || !RunsOn(text, rest[0]))
    ensures ScanToken(text + rest, 0) == Scanned(symbol.kind, |text|)
  {
    ScanExtend(text, symbol, rest);
  }
}
