/** Writing symbols out as text, and why lexing the text gives the symbols back. */
module Rendering {
  import opened Prelude
  import opened Values
  import opened Tokens
  import opened LexerTheorems

  // ----- lexing does not depend on what comes before -----

  /** `s` is what follows the first `k` characters of `t`. */
  predicate IsSuffix(t: string, k: nat, s: string) {
    |t| == k + |s| && forall i | 0 <= i < |s| :: t[k + i] == s[i]
  }

  lemma {:induction false} RunShift(t: string, k: nat, s: string, i: nat, p: char -> bool)
    requires IsSuffix(t, k, s) && i <= |s|
    ensures RunEnd(t, k + i, p) == k + RunEnd(s, i, p)
    decreases |s| - i
  {
    if i < |s| && p(s[i]) {
      RunShift(t, k, s, i + 1, p);
    }
  }

  lemma {:induction false} GapShift(t: string, k: nat, s: string, i: nat)
    requires IsSuffix(t, k, s) && i <= |s|
    ensures GapEnd(t, k + i) == k + GapEnd(s, i)
    decreases |s| - i
  {
    if i < |s| && IsWhitespace(s[i]) {
      GapShift(t, k, s, i + 1);
    } else if StartsComment(s, i) {
      RunShift(t, k, s, i + 2, NotNewline);
      GapShift(t, k, s, RunEnd(s, i + 2, NotNewline));
    }
  }

  function Shift(k: nat, n: Option<nat>): Option<nat> {
    match n
    case Some(m) => Some(k + m)
    case None => None
  }

  lemma {:induction false} StringShift(t: string, k: nat, s: string, i: nat)
    requires IsSuffix(t, k, s) && i <= |s|
    ensures StringEnd(t, k + i) == Shift(k, StringEnd(s, i))
    decreases |s| - i
  {
    if i == |s| {
    } else if s[i] != '\'' {
      StringShift(t, k, s, i + 1);
    } else if i + 1 < |s| && s[i + 1] == '\'' {
      StringShift(t, k, s, i + 2);
    }
  }

  lemma SubShift(t: string, k: nat, s: string, i: nat, j: nat)
    requires IsSuffix(t, k, s) && i <= j <= |s|
    ensures t[k + i..k + j] == s[i..j]
  {
    forall n | 0 <= n < j - i ensures t[k + i..k + j][n] == s[i..j][n] {
      assert t[k + (i + n)] == s[i + n];
    }
  }

  lemma PunctuationShift(t: string, k: nat, s: string, i: nat)
    requires IsSuffix(t, k, s) && i < |s|
    ensures ScanPunctuation(t, k + i) == Scanned(ScanPunctuation(s, i).kind, k + ScanPunctuation(s, i).end)
  {
  }

  lemma WordShift(t: string, k: nat, s: string, i: nat)
    requires IsSuffix(t, k, s) && i < |s|
    ensures var end := RunEnd(s, i, IsIdentifierContinue);
      RunEnd(t, k + i, IsIdentifierContinue) == k + end && t[k + i..k + end] == s[i..end]
  {
    hide RunEnd;
    RunShift(t, k, s, i, IsIdentifierContinue);
    SubShift(t, k, s, i, RunEnd(s, i, IsIdentifierContinue));
  }

  lemma ScanShift(t: string, k: nat, s: string, i: nat)
    requires IsSuffix(t, k, s) && i < |s|
    ensures ScanToken(t, k + i) == Scanned(ScanToken(s, i).kind, k + ScanToken(s, i).end)
  {
    hide WordKind, ScanPunctuation, RunEnd, StringEnd;
    assert t[k + i] == s[i];
    if IsIdentifierStart(s[i]) {
      WordShift(t, k, s, i);
    } else if IsDigit(s[i]) {
      RunShift(t, k, s, i, IsDigit);
    } else if s[i] == '\'' {
      StringShift(t, k, s, i + 1);
    } else {
      PunctuationShift(t, k, s, i);
    }
  }

  /** The next token of `t` from `p` is that of its suffix `s` from `i`. */
  predicate SameNext(t: string, k: nat, s: string, p: nat, i: nat)
    requires IsSuffix(t, k, s) && p <= |t| && i <= |s|
  {
    var l := NextLexed(s, i);
    NextLexed(t, p) == Lexed(l.kind, k + l.start, k + l.end) && t[k + l.start..k + l.end] == s[l.start..l.end]
  }

  lemma NextShift(t: string, k: nat, s: string, p: nat, i: nat)
    requires IsSuffix(t, k, s) && p <= |t| && i <= |s|
    requires GapEnd(t, p) == k + GapEnd(s, i)
    ensures SameNext(t, k, s, p, i)
  {
    hide ScanToken;
    var l := NextLexed(s, i);
    if l.kind != EndOfFile {
      ScanShift(t, k, s, l.start);
    }
    SubShift(t, k, s, l.start, l.end);
  }

  lemma SameNextStep(t: string, k: nat, s: string, p: nat, i: nat)
    requires IsSuffix(t, k, s) && p <= |t| && i <= |s| && SameNext(t, k, s, p, i)
    ensures SameNext(t, k, s, k + NextLexed(s, i).end, NextLexed(s, i).end)
  {
    hide NextLexed;
    GapShift(t, k, s, NextLexed(s, i).end);
    NextShift(t, k, s, k + NextLexed(s, i).end, NextLexed(s, i).end);
  }

  lemma SameSymbolsStep(t: string, k: nat, s: string, p: nat, i: nat)
    requires IsSuffix(t, k, s) && p <= |t| && i <= |s| && SameNext(t, k, s, p, i)
    requires NextLexed(s, i).kind != EndOfFile ==>
      Symbols(t, k + NextLexed(s, i).end) == Symbols(s, NextLexed(s, i).end)
    ensures Symbols(t, p) == Symbols(s, i)
  {
    hide NextLexed, Symbols, SymbolOf;
    SymbolsUnfold(t, p);
    SymbolsUnfold(s, i);
  }

  lemma SymbolsUnfold(input: string, pos: nat)
    requires pos <= |input|
    ensures var l := NextLexed(input, pos);
      Symbols(input, pos) ==
        if l.kind == EndOfFile then [] else [SymbolOf(l.kind, input[l.start..l.end])] + Symbols(input, l.end)
  {
    hide NextLexed, SymbolOf;
  }

  /** From the same next token on, the symbols are the same. */
  lemma {:induction false} SymbolsShift(t: string, k: nat, s: string, p: nat, i: nat)
    requires IsSuffix(t, k, s) && p <= |t| && i <= |s| && SameNext(t, k, s, p, i)
    ensures Symbols(t, p) == Symbols(s, i)
    decreases |s| - i
  {
    hide NextLexed, Symbols;
    var l := NextLexed(s, i);
    if l.kind != EndOfFile {
      SameNextStep(t, k, s, p, i);
      SymbolsShift(t, k, s, k + l.end, l.end);
    }
    SameSymbolsStep(t, k, s, p, i);
  }

  // ----- gaps -----

  lemma {:induction false} RunStops(s: string, i: nat, p: char -> bool, end: nat)
    requires i <= end <= |s| && (forall j | i <= j < end :: p(s[j])) && (end == |s| || !p(s[end]))
    ensures RunEnd(s, i, p) == end
    decreases end - i
  {
    if i < end {
      RunStops(s, i + 1, p, end);
    }
  }

  lemma SkipPiece(p: string, rest: string)
    requires IsPiece(p)
    ensures GapEnd(p + rest, 0) == |p| + GapEnd(rest, 0)
  {
    GapShift(p + rest, |p|, rest, 0);
    if |p| != 1 {
      var s := p + rest;
      assert forall j | 2 <= j < |p| - 1 :: s[j] == p[..|p| - 1][j];
      RunStops(s, 2, NotNewline, |p| - 1);
    }
  }

  lemma {:induction false} SkipPieces(pieces: seq<string>, rest: string)
    requires ArePieces(pieces)
    ensures GapEnd(Join(pieces) + rest, 0) == |Join(pieces)| + GapEnd(rest, 0)
  {
    if pieces == [] {
      assert Join(pieces) + rest == rest;
    } else {
      assert Join(pieces) + rest == pieces[0] + (Join(pieces[1..]) + rest);
      SkipPiece(pieces[0], Join(pieces[1..]) + rest);
      SkipPieces(pieces[1..], rest);
    }
  }

  /** White space and complete comments before a text do not change its symbols. */
  lemma SkipGap(g: string, rest: string)
    requires IsGap(g, false)
    ensures Symbols(g + rest, 0) == Symbols(rest, 0)
  {
    var pieces: seq<string>, tail: string :|
      ArePieces(pieces) && IsTail(tail) && (tail != "" ==> false) && g == Join(pieces) + tail;
    hide NextLexed;
    assert g == Join(pieces);
    SkipPieces(pieces, rest);
    NextShift(g + rest, |g|, rest, 0, 0);
    SymbolsShift(g + rest, |g|, rest, 0, 0);
  }

  lemma SkipTail(g: string)
    requires IsGap(g, true)
    ensures Symbols(g, 0) == []
  {
    var pieces: seq<string>, tail: string :|
      ArePieces(pieces) && IsTail(tail) && (tail != "" ==> true) && g == Join(pieces) + tail;
    SkipPieces(pieces, tail);
    if tail != "" {
      assert forall j | 0 <= j < |tail| :: tail[j] in tail;
      RunStops(tail, 2, NotNewline, |tail|);
    }
  }

  // ----- lexemes -----

  /** `text` alone is scanned as exactly one token, with this symbol. */
  predicate IsLexeme(text: string, symbol: Symbol) {
    && text != ""
    && ScanToken(text, 0) == Scanned(symbol.kind, |text|)
    && symbol.kind != Invalid
    && symbol == SymbolOf(symbol.kind, text)
  }

  predicate IsName(name: string) {
    IsLexeme(name, Symbol(Identifier, name))
  }

  /** Written right after `text`, the character `c` would be scanned as part of the same token. */
  predicate Extends(text: string, c: char)
    requires text != ""
  {
    if IsIdentifierStart(text[0]) then IsIdentifierContinue(c)
    else if IsDigit(text[0]) then IsDigit(c)
    else if text[0] == '\'' then c == '\''
    else if text == "<" then c == '=' || c == '>'
    else (text == ">" || text == "!") && c == '='
  }

  predicate MayPrecede(text: string, rest: string) {
    text != "" && (rest == "" || !Extends(text, rest[0]))
  }

  lemma {:induction false} RunExtend(text: string, i: nat, p: char -> bool, rest: string)
    requires i <= |text| && RunEnd(text, i, p) == |text| && (rest == "" || !p(rest[0]))
    ensures RunEnd(text + rest, i, p) == |text|
    decreases |text| - i
  {
    if i < |text| {
      RunExtend(text, i + 1, p, rest);
    }
  }

  lemma {:induction false} StringExtend(text: string, i: nat, rest: string)
    requires i <= |text| && StringEnd(text, i) == Some(|text|) && (rest == "" || rest[0] != '\'')
    ensures StringEnd(text + rest, i) == Some(|text|)
    decreases |text| - i
  {
    if text[i] != '\'' {
      StringExtend(text, i + 1, rest);
    } else if i + 1 < |text| && text[i + 1] == '\'' {
      StringExtend(text, i + 2, rest);
    }
  }

  /** A lexeme followed by something that cannot extend it is still scanned as that token. */
  lemma ScanExtend(text: string, symbol: Symbol, rest: string)
    requires IsLexeme(text, symbol) && MayPrecede(text, rest)
    ensures ScanToken(text + rest, 0) == Scanned(symbol.kind, |text|)
  {
    hide WordKind, ScanPunctuation, RunEnd, StringEnd;
    assert (text + rest)[0] == text[0];
    if IsIdentifierStart(text[0]) {
      RunExtend(text, 0, IsIdentifierContinue, rest);
      assert (text + rest)[0..|text|] == text[0..|text|];
    } else if IsDigit(text[0]) {
      RunExtend(text, 0, IsDigit, rest);
    } else if text[0] == '\'' {
      StringExtend(text, 1, rest);
    } else {
      MarkExtend(text, rest);
    }
  }

  lemma MarkExtend(text: string, rest: string)
    requires text != "" && ScanPunctuation(text, 0).end == |text| && ScanPunctuation(text, 0).kind != Invalid
    requires !IsIdentifierStart(text[0]) && !IsDigit(text[0]) && text[0] != '\'' && MayPrecede(text, rest)
    ensures ScanPunctuation(text + rest, 0) == ScanPunctuation(text, 0)
  {
    assert rest != "" ==> (text + rest)[|text|] == rest[0];
  }

  lemma SkipToken(text: string, symbol: Symbol, rest: string)
    requires IsLexeme(text, symbol) && MayPrecede(text, rest)
    ensures Symbols(text + rest, 0) == [symbol] + Symbols(rest, 0)
  {
    hide WordKind;
    ScanExtend(text, symbol, rest);
    NextIsLexeme(text, symbol, rest);
    AfterLexeme(text, rest);
  }

  lemma NextIsLexeme(text: string, symbol: Symbol, rest: string)
    requires IsLexeme(text, symbol) && ScanToken(text + rest, 0) == Scanned(symbol.kind, |text|)
    ensures NextLexed(text + rest, 0) == Lexed(symbol.kind, 0, |text|)
    ensures (text + rest)[0..|text|] == text
  {
    hide WordKind;
    assert GapEnd(text + rest, 0) == 0;
  }

  lemma AfterLexeme(text: string, rest: string)
    ensures Symbols(text + rest, |text|) == Symbols(rest, 0)
  {
    hide NextLexed;
    GapShift(text + rest, |text|, rest, 0);
    NextShift(text + rest, |text|, rest, |text|, 0);
    SymbolsShift(text + rest, |text|, rest, |text|, 0);
  }

  // ----- whole texts -----

  /** The lexemes with the gaps around them: one before each, and one at the end. */
  function Render(lexemes: seq<string>, gaps: seq<string>): string
    requires |gaps| == |lexemes| + 1
  {
    if lexemes == [] then gaps[0] else gaps[0] + lexemes[0] + Render(lexemes[1..], gaps[1..])
  }

  /** Gaps are white space and comments, and may be empty only where two lexemes would not run together. */
  ghost predicate WellSpaced(lexemes: seq<string>, gaps: seq<string>)
    requires |gaps| == |lexemes| + 1
  {
    if lexemes == [] then IsGap(gaps[0], true)
    else
      && IsGap(gaps[0], false)
      && MayPrecede(lexemes[0], Render(lexemes[1..], gaps[1..]))
      && WellSpaced(lexemes[1..], gaps[1..])
  }

  predicate Spell(lexemes: seq<string>, symbols: seq<Symbol>) {
    |lexemes| == |symbols| && forall i | 0 <= i < |lexemes| :: IsLexeme(lexemes[i], symbols[i])
  }

  lemma RenderStep(gap: string, lexeme: string, symbol: Symbol, rest: string)
    requires IsGap(gap, false) && IsLexeme(lexeme, symbol) && MayPrecede(lexeme, rest)
    ensures Symbols(gap + lexeme + rest, 0) == [symbol] + Symbols(rest, 0)
  {
    hide Symbols, IsGap, NextLexed, GapEnd, ScanToken;
    assert gap + lexeme + rest == gap + (lexeme + rest);
    SkipGap(gap, lexeme + rest);
    SkipToken(lexeme, symbol, rest);
  }

  /** However symbols are spelled and spaced, lexing the text gives them back. */
  lemma {:induction false} RenderLexes(lexemes: seq<string>, symbols: seq<Symbol>, gaps: seq<string>)
    requires |gaps| == |lexemes| + 1 && Spell(lexemes, symbols) && WellSpaced(lexemes, gaps)
    ensures Symbols(Render(lexemes, gaps), 0) == symbols
    decreases |lexemes|
  {
    hide Symbols, IsLexeme, IsGap, MayPrecede;
    if lexemes == [] {
      SkipTail(gaps[0]);
    } else {
      RenderLexes(lexemes[1..], symbols[1..], gaps[1..]);
      RenderStep(gaps[0], lexemes[0], symbols[0], Render(lexemes[1..], gaps[1..]));
    }
  }

  // ----- string literals -----

  lemma {:induction false} EscapedEnds(body: string)
    requires IsEscaped(body)
    ensures StringEnd(body + "'", 0) == Some(|body| + 1)
  {
    if body != "" {
      var n := if body[0] == '\'' then 2 else 1;
      EscapedEnds(body[n..]);
      StringShift(body + "'", n, body[n..] + "'", 0);
    }
  }

  /** Quoting any string and lexing it before anything but a quote gives one literal that covers it. */
  lemma QuoteLexes(s: string, rest: string)
    requires rest == "" || rest[0] != '\''
    ensures ScanToken(Quote(s) + rest, 0) == Scanned(StringLiteral, |Quote(s)|)
    ensures Decode(Quote(s)) == s
  {
    DecodeQuote(s);
    LiteralIsLexeme(Quote(s));
    ScanExtend(Quote(s), Symbol(StringLiteral, Quote(s)), rest);
  }

  lemma LiteralIsLexeme(text: string)
    requires IsQuotedLiteral(text)
    ensures IsLexeme(text, Symbol(StringLiteral, text))
  {
    var body := text[1..|text| - 1];
    EscapedEnds(body);
    assert text == "'" + (body + "'");
    hide StringEnd, IsEscaped;
    StringShift(text, 1, body + "'", 0);
  }

  lemma {:induction false} EndIsEscaped(input: string, pos: nat)
    requires pos <= |input| && StringEnd(input, pos).Some?
    ensures var end := StringEnd(input, pos).value;
      input[end - 1] == '\'' && IsEscaped(input[pos..end - 1])
    decreases |input| - pos
  {
    var end := StringEnd(input, pos).value;
    if input[pos] != '\'' {
      EndIsEscaped(input, pos + 1);
      assert input[pos..end - 1][1..] == input[pos + 1..end - 1];
    } else if pos + 1 < |input| && input[pos + 1] == '\'' {
      EndIsEscaped(input, pos + 2);
      assert input[pos..end - 1][2..] == input[pos + 2..end - 1];
    }
  }

  lemma InnerSlice(s: string, from: nat, to: nat)
    requires from + 2 <= to <= |s|
    ensures |s[from..to]| == to - from && s[from..to][0] == s[from] && s[from..to][to - from - 1] == s[to - 1]
    ensures s[from..to][1..|s[from..to]| - 1] == s[from + 1..to - 1]
  {
    var part := s[from..to];
    var inner, expected := part[1..|part| - 1], s[from + 1..to - 1];
    forall i | 0 <= i < |inner| ensures inner[i] == expected[i] {
    }
  }

  lemma LexedIsQuoted(input: string, pos: nat)
    requires pos < |input| && ScanToken(input, pos).kind == StringLiteral
    ensures IsQuotedLiteral(input[pos..ScanToken(input, pos).end])
  {
    var end := StringStart(input, pos);
    hide ScanToken, StringEnd, IsEscaped;
    EndIsEscaped(input, pos + 1);
    InnerSlice(input, pos, end);
  }

  lemma StringStart(input: string, pos: nat) returns (end: nat)
    requires pos < |input| && ScanToken(input, pos).kind == StringLiteral
    ensures end == ScanToken(input, pos).end <= |input|
    ensures input[pos] == '\'' && StringEnd(input, pos + 1) == Some(end) && pos + 2 <= end
  {
    hide WordKind, RunEnd;
    end := ScanToken(input, pos).end;
    assert input[pos] == '\'';
  }

  /** Every string literal the lexer finds is well-formed, so quoting its value gives it back. */
  lemma LexedLiteral(input: string, pos: nat)
    requires pos < |input| && ScanToken(input, pos).kind == StringLiteral
    ensures var lexeme := input[pos..ScanToken(input, pos).end];
      IsQuotedLiteral(lexeme) && Quote(Decode(lexeme)) == lexeme
  {
    hide ScanToken, IsQuotedLiteral, Quote, Decode;
    LexedIsQuoted(input, pos);
    QuoteDecode(input[pos..ScanToken(input, pos).end]);
  }
}
