/**
 * What the lexer of src/frontend/lexer.cpp recognises, on strings of bytes. Character classes are
 * those of the C locale.
 */
module Tokens {
  import opened Prelude

  datatype TokenKind =
    | Select | From | Where | Insert | Into | Create | Table | Schema | Database | Values
    | Int | Text | And | Or | Not | Null | True | False
    | Identifier | IntegerLiteral | StringLiteral
    | Comma | Semicolon | Dot | LParen | RParen | Star
    | Equal | NotEqual | Less | LessEqual | Greater | GreaterEqual
    | EndOfFile | Invalid

  datatype Token = Token(kind: TokenKind, lexeme: string, line: nat, column: nat)

  // ----- characters -----

  predicate IsWhitespace(c: char) {
    c == ' ' || c == '\t' || c == '\n' || c == '\r'
  }

  predicate IsDigit(c: char) {
    '0' <= c <= '9'
  }

  predicate IsIdentifierStart(c: char) {
    'a' <= c <= 'z' || 'A' <= c <= 'Z' || c == '_'
  }

  predicate IsIdentifierContinue(c: char) {
    IsIdentifierStart(c) || IsDigit(c)
  }

  function ToLower(c: char): char {
    if 'A' <= c <= 'Z' then (c as int + 32) as char else c
  }

  predicate SameIgnoringCase(a: string, b: string) {
    |a| == |b| && forall i | 0 <= i < |a| :: ToLower(a[i]) == ToLower(b[i])
  }

  /** Equal characters, or the two cases of a letter of the Latin alphabet. */
  predicate EqualUpToCase(a: char, b: char) {
    a == b
    || ('A' <= a <= 'Z' && b as int == a as int + 32)
    || ('a' <= a <= 'z' && b as int == a as int - 32)
  }

  // ----- keywords -----

  datatype Keyword = Keyword(spelling: string, kind: TokenKind)

  const KEYWORDS: seq<Keyword> := [
    Keyword("select", Select), Keyword("from", From), Keyword("where", Where),
    Keyword("insert", Insert), Keyword("into", Into), Keyword("create", Create),
    Keyword("table", Table), Keyword("schema", Schema), Keyword("database", Database),
    Keyword("values", Values), Keyword("int", Int), Keyword("text", Text),
    Keyword("and", And), Keyword("or", Or), Keyword("not", Not),
    Keyword("null", Null), Keyword("true", True), Keyword("false", False)
  ]

  predicate IsKeywordKind(kind: TokenKind) {
    kind.Select? || kind.From? || kind.Where? || kind.Insert? || kind.Into? || kind.Create?
    || kind.Table? || kind.Schema? || kind.Database? || kind.Values? || kind.Int? || kind.Text?
    || kind.And? || kind.Or? || kind.Not? || kind.Null? || kind.True? || kind.False?
  }

  function Lookup(table: seq<Keyword>, text: string): (r: Option<TokenKind>)
    ensures r.Some? ==>
      exists i :: 0 <= i < |table| && table[i].kind == r.value && SameIgnoringCase(text, table[i].spelling)
    ensures r.None? ==> forall i | 0 <= i < |table| :: !SameIgnoringCase(text, table[i].spelling)
    decreases table, text
  {
    if table == [] then None
    else if SameIgnoringCase(text, table[0].spelling) then Some(table[0].kind)
    else
      assert forall i | 0 < i < |table| :: table[i] == table[1..][i - 1];
      Lookup(table[1..], text)
  }

  function WordKind(text: string): (kind: TokenKind)
    ensures kind == Identifier || IsKeywordKind(kind)
  {
    match Lookup(KEYWORDS, text)
    case Some(kind) => kind
    case None => Identifier
  }

  // ----- where what is scanned ends -----

  /** The end of the longest run from `pos` whose characters all satisfy `p`. */
  function RunEnd(input: string, pos: nat, p: char -> bool): (end: nat)
    requires pos <= |input|
    ensures pos <= end <= |input|
    decreases |input| - pos
  {
    if pos < |input| && p(input[pos]) then RunEnd(input, pos + 1, p) else pos
  }

  predicate NotNewline(c: char) {
    c != '\n'
  }

  predicate StartsComment(input: string, pos: nat) {
    pos + 1 < |input| && input[pos] == '-' && input[pos + 1] == '-'
  }

  /** The end of the white space and `--` comments skipped before a token. */
  function GapEnd(input: string, pos: nat): (end: nat)
    requires pos <= |input|
    ensures pos <= end <= |input|
    decreases |input| - pos
  {
    if pos < |input| && IsWhitespace(input[pos]) then GapEnd(input, pos + 1)
    else if StartsComment(input, pos) then GapEnd(input, RunEnd(input, pos + 2, NotNewline))
    else pos
  }

  /** Inside a string literal: the end of its closing quote. Quotes inside are doubled. */
  function StringEnd(input: string, pos: nat): (end: Option<nat>)
    requires pos <= |input|
    ensures end.Some? ==> pos < end.value <= |input|
    decreases |input| - pos
  {
    if pos == |input| then None
    else if input[pos] != '\'' then StringEnd(input, pos + 1)
    else if pos + 1 < |input| && input[pos + 1] == '\'' then StringEnd(input, pos + 2)
    else Some(pos + 1)
  }

  // ----- one token -----

  datatype Scanned = Scanned(kind: TokenKind, end: nat)

  function ScanPunctuation(input: string, pos: nat): (r: Scanned)
    requires pos < |input|
    ensures pos < r.end <= |input|
  {
    var next := if pos + 1 < |input| then input[pos + 1] else '\0';
    match input[pos]
    case ',' => Scanned(Comma, pos + 1)
    case ';' => Scanned(Semicolon, pos + 1)
    case '.' => Scanned(Dot, pos + 1)
    case '(' => Scanned(LParen, pos + 1)
    case ')' => Scanned(RParen, pos + 1)
    case '*' => Scanned(Star, pos + 1)
    case '=' => Scanned(Equal, pos + 1)
    case '<' =>
      if next == '=' then Scanned(LessEqual, pos + 2)
      else if next == '>' then Scanned(NotEqual, pos + 2)
      else Scanned(Less, pos + 1)
    case '>' => if next == '=' then Scanned(GreaterEqual, pos + 2) else Scanned(Greater, pos + 1)
    case '!' => if next == '=' then Scanned(NotEqual, pos + 2) else Scanned(Invalid, pos + 1)
    case _ => Scanned(Invalid, pos + 1)
  }

  /** The token that starts at `pos`. */
  function ScanToken(input: string, pos: nat): (r: Scanned)
    requires pos < |input|
    ensures pos < r.end <= |input|
    ensures r.kind != EndOfFile
  {
    if IsIdentifierStart(input[pos]) then
      var end := RunEnd(input, pos, IsIdentifierContinue);
      Scanned(WordKind(input[pos..end]), end)
    else if IsDigit(input[pos]) then Scanned(IntegerLiteral, RunEnd(input, pos, IsDigit))
    else if input[pos] == '\'' then
      match StringEnd(input, pos + 1)
      case Some(end) => Scanned(StringLiteral, end)
      case None => Scanned(Invalid, |input|)
    else ScanPunctuation(input, pos)
  }

  // ----- locations -----

  /** One more than the number of newlines before `pos`. */
  function LineAt(input: string, pos: nat): nat
    requires pos <= |input|
  {
    if pos == 0 then 1 else LineAt(input, pos - 1) + if input[pos - 1] == '\n' then 1 else 0
  }

  /** Where the line of `pos` starts: after the last newline before it. */
  function LineStart(input: string, pos: nat): (start: nat)
    requires pos <= |input|
    ensures start <= pos
    ensures start == 0 || input[start - 1] == '\n'
    ensures forall i | start <= i < pos :: input[i] != '\n'
  {
    if pos == 0 || input[pos - 1] == '\n' then pos else LineStart(input, pos - 1)
  }

  function ColumnAt(input: string, pos: nat): nat
    requires pos <= |input|
  {
    pos - LineStart(input, pos) + 1
  }

  // ----- the whole input -----

  datatype Lexed = Lexed(kind: TokenKind, start: nat, end: nat)

  function NextLexed(input: string, pos: nat): (l: Lexed)
    requires pos <= |input|
    ensures pos <= l.start <= l.end <= |input|
    ensures l.kind == EndOfFile <==> l.start == |input|
    ensures l.kind != EndOfFile ==> l.start < l.end
  {
    var start := GapEnd(input, pos);
    if start == |input| then Lexed(EndOfFile, start, start)
    else
      var r := ScanToken(input, start);
      Lexed(r.kind, start, r.end)
  }

  function TokenOf(input: string, l: Lexed): Token
    requires l.start <= l.end <= |input|
  {
    Token(l.kind, input[l.start..l.end], LineAt(input, l.start), ColumnAt(input, l.start))
  }

  /** What repeated calls of `next` return, up to and including the end of the input. */
  function AllLexed(input: string, pos: nat): (items: seq<Lexed>)
    requires pos <= |input|
    ensures items != []
    decreases |input| - pos
  {
    var l := NextLexed(input, pos);
    if l.kind == EndOfFile then [l] else [l] + AllLexed(input, l.end)
  }

  // ----- symbols: what the parser sees of a token -----

  predicate CarriesText(kind: TokenKind) {
    kind == Identifier || kind == IntegerLiteral || kind == StringLiteral
  }

  /** A token without its location, and without the spelling of keywords and punctuation. */
  datatype Symbol = Symbol(kind: TokenKind, text: string)

  function SymbolOf(kind: TokenKind, lexeme: string): Symbol {
    Symbol(kind, if CarriesText(kind) then lexeme else "")
  }

  /** The symbols of the tokens from `pos` on; the end of the input is the end of the list. */
  function Symbols(input: string, pos: nat): seq<Symbol>
    requires pos <= |input|
    decreases |input| - pos
  {
    var l := NextLexed(input, pos);
    if l.kind == EndOfFile then []
    else [SymbolOf(l.kind, input[l.start..l.end])] + Symbols(input, l.end)
  }
}
