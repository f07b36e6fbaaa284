/** What lexing a whole input gives: it tiles the input, and it recovers printed tokens. */
module LexerTheorems {
  import opened Tokens
  import opened Lexers

  // ----- locations -----

  /** Lines are counted by the newlines before a position. */
  lemma {:induction false} LineCountsNewlines(input: string, pos: nat)
    requires pos <= |input|
    ensures LineAt(input, pos) == 1 + |set i | 0 <= i < pos && input[i] == '\n'|
  {
    var newlines := set i | 0 <= i < pos && input[i] == '\n';
    if pos == 0 {
      assert newlines == {};
    } else {
      LineCountsNewlines(input, pos - 1);
      var before := set i | 0 <= i < pos - 1 && input[i] == '\n';
      assert newlines == if input[pos - 1] == '\n' then before + {pos - 1} else before;
    }
  }

  /** Columns are counted from the newline before a position, or from the start of the input. */
  lemma {:induction false} ColumnCountsFromNewline(input: string, pos: nat, start: nat)
    requires start <= pos <= |input|
    requires start == 0 || input[start - 1] == '\n'
    requires forall i | start <= i < pos :: input[i] != '\n'
    ensures ColumnAt(input, pos) == pos - start + 1
  {
    if pos != 0 && input[pos - 1] != '\n' {
      ColumnCountsFromNewline(input, pos - 1, start);
    }
  }

  // ----- gaps -----

  /** One white-space character, or a comment with the newline that ends it. */
  predicate IsPiece(p: string) {
    || (|p| == 1 && IsWhitespace(p[0]))
    || (3 <= |p| && p[0] == '-' && p[1] == '-' && p[|p| - 1] == '\n' && '\n' !in p[..|p| - 1])
  }

  /** Nothing, or a comment that the end of the input cuts off. */
  predicate IsTail(t: string) {
    t == "" || (2 <= |t| && t[0] == '-' && t[1] == '-' && '\n' !in t)
  }

  function Join(pieces: seq<string>): string {
    if pieces == [] then "" else pieces[0] + Join(pieces[1..])
  }

  predicate ArePieces(pieces: seq<string>) {
    forall i | 0 <= i < |pieces| :: IsPiece(pieces[i])
  }

  /** White space and complete comments; at the end of the input the last comment may be cut off. */
  ghost predicate IsGap(g: string, atEnd: bool) {
    exists pieces: seq<string>, tail: string ::
      ArePieces(pieces) && IsTail(tail) && (tail != "" ==> atEnd) && g == Join(pieces) + tail
  }

  /** A run covers only characters of its class, and all of them. */
  lemma {:induction false} RunIsMaximal(input: string, pos: nat, p: char -> bool)
    requires pos <= |input|
    ensures forall i | pos <= i < RunEnd(input, pos, p) :: p(input[i])
    ensures RunEnd(input, pos, p) < |input| ==> !p(input[RunEnd(input, pos, p)])
    decreases |input| - pos
  {
    if pos < |input| && p(input[pos]) {
      RunIsMaximal(input, pos + 1, p);
    }
  }

  lemma TailIsGap(tail: string, atEnd: bool)
    requires IsTail(tail) && (tail != "" ==> atEnd)
    ensures IsGap(tail, atEnd)
  {
    var none: seq<string> := [];
    assert ArePieces(none) && tail == Join(none) + tail;
  }

  lemma PrependPiece(p: string, g: string, atEnd: bool)
    requires IsPiece(p) && IsGap(g, atEnd)
    ensures IsGap(p + g, atEnd)
  {
    var pieces: seq<string>, tail: string :|
      ArePieces(pieces) && IsTail(tail) && (tail != "" ==> atEnd) && g == Join(pieces) + tail;
    var more := [p] + pieces;
    assert more[1..] == pieces;
    assert ArePieces(more) && p + g == Join(more) + tail;
  }

  lemma CommentAt(input: string, pos: nat)
    requires StartsComment(input, pos)
    ensures var stop := RunEnd(input, pos + 2, NotNewline);
      && GapEnd(input, pos) == GapEnd(input, stop)
      && (stop == |input| ==> IsTail(input[pos..]))
      && (stop < |input| ==> input[stop] == '\n' && IsPiece(input[pos..stop + 1]))
  {
    RunIsMaximal(input, pos + 2, NotNewline);
    var stop := RunEnd(input, pos + 2, NotNewline);
    assert forall i | 0 <= i < stop - pos :: input[pos..][i] == input[pos + i] != '\n';
    if stop < |input| {
      var p := input[pos..stop + 1];
      assert p[..|p| - 1] == input[pos..stop];
    }
  }

  lemma TwoParts(s: string, a: nat, b: nat, c: nat)
    requires a <= b <= c <= |s|
    ensures s[a..c] == s[a..b] + s[b..c]
  {
  }

  lemma WhitespacePiece(input: string, pos: nat)
    requires pos < |input| && IsWhitespace(input[pos])
    ensures IsPiece(input[pos..pos + 1])
  {
  }

  /** The lexer skips white space and comments, nothing else, and as much of them as there is. */
  lemma {:induction false} SkippedIsGap(input: string, pos: nat)
    requires pos <= |input|
    ensures IsGap(input[pos..GapEnd(input, pos)], GapEnd(input, pos) == |input|)
    decreases |input| - pos
  {
    hide IsGap, IsPiece, IsTail, GapEnd, RunEnd;
    var end := GapEnd(input, pos);
    var next := GapPiece(input, pos);
    if next == pos {
      TailIsGap("", end == |input|);
      assert input[pos..end] == "";
    } else if IsPiece(input[pos..next]) {
      SkippedIsGap(input, next);
      PrependPiece(input[pos..next], input[next..end], end == |input|);
      TwoParts(input, pos, next, end);
    } else {
      assert input[pos..end] == input[pos..];
      TailIsGap(input[pos..], true);
    }
  }

  /** The first piece of a gap; only a comment at the end of the input is no whole piece. */
  lemma GapPiece(input: string, pos: nat) returns (next: nat)
    requires pos <= |input|
    ensures pos <= next <= |input| && GapEnd(input, pos) == GapEnd(input, next)
    ensures next == pos ==> GapEnd(input, pos) == pos
    ensures pos < next ==> IsPiece(input[pos..next]) || (next == |input| && IsTail(input[pos..]))
  {
    hide IsPiece, IsTail, RunEnd;
    next := pos;
    if pos < |input| && IsWhitespace(input[pos]) {
      next := pos + 1;
      WhitespacePiece(input, pos);
    } else if StartsComment(input, pos) {
      CommentAt(input, pos);
      var stop := RunEnd(input, pos + 2, NotNewline);
      next := if stop == |input| then stop else stop + 1;
    }
  }

  lemma {:induction false} SkipIsMaximal(input: string, pos: nat)
    requires pos <= |input|
    ensures GapEnd(input, pos) < |input| ==>
      !IsWhitespace(input[GapEnd(input, pos)]) && !StartsComment(input, GapEnd(input, pos))
    decreases |input| - pos
  {
    if pos < |input| && IsWhitespace(input[pos]) {
      SkipIsMaximal(input, pos + 1);
    } else if StartsComment(input, pos) {
      SkipIsMaximal(input, RunEnd(input, pos + 2, NotNewline));
    }
  }

  // ----- tiling -----

  /** From `pos` on, the items cover the input: only gaps lie between them, and the last is the end. */
  ghost predicate Tiles(input: string, items: seq<Lexed>, pos: nat)
    requires pos <= |input|
    decreases |items|
  {
    && items != []
    && pos <= items[0].start <= items[0].end <= |input|
    && IsGap(input[pos..items[0].start], items[0].kind == EndOfFile)
    && if |items| == 1 then items[0] == Lexed(EndOfFile, |input|, |input|)
       else
         && items[0].kind != EndOfFile && items[0].start < items[0].end
         && Tiles(input, items[1..], items[0].end)
  }

  /** The gaps and lexemes, one after the other. */
  ghost function Rebuild(input: string, items: seq<Lexed>, pos: nat): string
    requires pos <= |input| && Tiles(input, items, pos)
    decreases |items|
  {
    input[pos..items[0].start] + input[items[0].start..items[0].end]
      + if |items| == 1 then "" else Rebuild(input, items[1..], items[0].end)
  }

  lemma ThreeParts(s: string, a: nat, b: nat, c: nat)
    requires a <= b <= c <= |s|
    ensures s[a..] == s[a..b] + s[b..c] + s[c..]
  {
  }

  lemma {:induction false} TilesRebuild(input: string, items: seq<Lexed>, pos: nat)
    requires pos <= |input| && Tiles(input, items, pos)
    ensures Rebuild(input, items, pos) == input[pos..]
    decreases |items|
  {
    hide IsGap;
    var l := items[0];
    ThreeParts(input, pos, l.start, l.end);
    if |items| != 1 {
      TilesRebuild(input, items[1..], l.end);
    }
  }

  /** Every input is cut into tokens and gaps, in at most one call more than its length. */
  lemma {:induction false} LexingTiles(input: string, pos: nat)
    requires pos <= |input|
    ensures Tiles(input, AllLexed(input, pos), pos)
    ensures |AllLexed(input, pos)| <= |input| - pos + 1
    decreases |input| - pos
  {
    var l := NextLexed(input, pos);
    SkippedIsGap(input, pos);
    if l.kind != EndOfFile {
      LexingTiles(input, l.end);
      assert AllLexed(input, pos)[1..] == AllLexed(input, l.end);
    }
  }

  function AllTokens(input: string, pos: nat): seq<Token>
    requires pos <= |input|
    decreases |input| - pos
  {
    var l := NextLexed(input, pos);
    [TokenOf(input, l)] + if l.kind == EndOfFile then [] else AllTokens(input, l.end)
  }

  /** Token by token, the list is the tiling with its lexemes and locations. */
  lemma {:induction false} AllTokensLexed(input: string, pos: nat, i: nat)
    requires pos <= |input| && i < |AllLexed(input, pos)|
    ensures |AllTokens(input, pos)| == |AllLexed(input, pos)|
    ensures var l := AllLexed(input, pos)[i];
      l.start <= l.end <= |input| && AllTokens(input, pos)[i] == TokenOf(input, l)
    decreases |input| - pos
  {
    hide NextLexed, TokenOf;
    var l := NextLexed(input, pos);
    if l.kind != EndOfFile {
      AllTokensLexed(input, l.end, if i == 0 then 0 else i - 1);
    }
  }

  /** Each call of `next` starts where the one before ended, and only the last returns the end. */
  lemma {:induction false} LexedStep(input: string, pos: nat, i: nat)
    requires pos <= |input| && i < |AllLexed(input, pos)|
    ensures AllLexed(input, pos)[i].start <= AllLexed(input, pos)[i].end <= |input|
    ensures AllLexed(input, pos)[i].kind == EndOfFile <==> i == |AllLexed(input, pos)| - 1
    ensures AllLexed(input, pos)[i].kind == EndOfFile ==>
      AllLexed(input, pos)[i] == Lexed(EndOfFile, |input|, |input|)
    ensures i + 1 < |AllLexed(input, pos)| ==>
      AllLexed(input, pos)[i + 1] == NextLexed(input, AllLexed(input, pos)[i].end)
    ensures i + 1 < |AllLexed(input, pos)| ==>
      |Symbols(input, AllLexed(input, pos)[i].end)| == |AllLexed(input, pos)| - i - 2
    decreases |input| - pos
  {
    hide TokenOf;
    var l := NextLexed(input, pos);
    if l.kind == EndOfFile {
      assert NextLexed(input, l.end).kind == EndOfFile;
    } else {
      LexedStep(input, l.end, if i == 0 then 0 else i - 1);
      SymbolsCount(input, l.end);
    }
  }

  lemma {:induction false} SymbolsCount(input: string, pos: nat)
    requires pos <= |input|
    ensures |Symbols(input, pos)| == |AllLexed(input, pos)| - 1
    decreases |input| - pos
  {
    var l := NextLexed(input, pos);
    if l.kind != EndOfFile {
      SymbolsCount(input, l.end);
    }
  }

  lemma TokensStep(tokens: seq<Token>, input: string, pos: nat)
    requires pos <= |input|
    ensures var l := NextLexed(input, pos);
      tokens + AllTokens(input, pos)
      == tokens + [TokenOf(input, l)] + if l.kind == EndOfFile then [] else AllTokens(input, l.end)
  {
    hide NextLexed, TokenOf;
  }

  /** Calling `next` until the end of the input returns exactly those tokens. */
  method Tokenize(input: string) returns (tokens: seq<Token>)
    ensures tokens == AllTokens(input, 0)
  {
    hide NextLexed, LineAt, ColumnAt, AllTokens;
    var lexer := new Lexer(input);
    tokens := [];
    assert tokens + AllTokens(input, 0) == AllTokens(input, 0);
    TokensStep(tokens, input, 0);
    var token := lexer.Next();
    tokens := tokens + [token];
    while token.kind != EndOfFile
      invariant lexer.Valid() && lexer.input == input && fresh(lexer)
      invariant token.kind == EndOfFile ==> AllTokens(input, 0) == tokens
      invariant token.kind != EndOfFile ==> AllTokens(input, 0) == tokens + AllTokens(input, lexer.pos)
      decreases |input| - lexer.pos, token.kind != EndOfFile
    {
      TokensStep(tokens, input, lexer.pos);
      token := lexer.Next();
      tokens := tokens + [token];
    }
  }
}
