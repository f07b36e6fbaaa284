/**
 * The grammar the parser implements, as derivation trees, and the proof that the parser accepts
 * exactly the sentences of the grammar and returns their tree:
 *
 *   or         ::= and | or OR and
 *   and        ::= comparison | and AND comparison
 *   comparison ::= primary | primary operator primary
 *   primary    ::= name | integer | string | ( or )
 */
module Grammar {
  import opened Ast
  import opened Tokens
  import opened Numbers
  import opened ParserSpec

  datatype OrD = OrBase(only: AndD) | OrStep(front: OrD, last: AndD)
  datatype AndD = AndBase(only: ComparisonD) | AndStep(front: AndD, last: ComparisonD)
  datatype ComparisonD = Operand(only: PrimaryD) | Compare(left: PrimaryD, op: BinaryOperator, right: PrimaryD)
  datatype PrimaryD = Name(name: string) | Integer(digits: string) | Literal(lexeme: string) | Parenthesized(inner: OrD)

  function Keyword(kind: TokenKind): Symbol {
    Symbol(kind, "")
  }

  function OperatorKind(op: BinaryOperator): TokenKind {
    match op
    case Equal => TokenKind.Equal
    case NotEqual => TokenKind.NotEqual
    case Less => TokenKind.Less
    case LessEqual => TokenKind.LessEqual
    case Greater => TokenKind.Greater
    case GreaterEqual => TokenKind.GreaterEqual
    case And => TokenKind.And
    case Or => TokenKind.Or
  }

  predicate IsComparison(op: BinaryOperator) {
    op != BinaryOperator.And && op != BinaryOperator.Or
  }

  // ----- the sentence of a derivation -----

  function OrYield(d: OrD): seq<Symbol> {
    match d
    case OrBase(only) => AndYield(only)
    case OrStep(front, last) => OrYield(front) + [Keyword(TokenKind.Or)] + AndYield(last)
  }

  function AndYield(d: AndD): seq<Symbol> {
    match d
    case AndBase(only) => ComparisonYield(only)
    case AndStep(front, last) => AndYield(front) + [Keyword(TokenKind.And)] + ComparisonYield(last)
  }

  function ComparisonYield(d: ComparisonD): seq<Symbol> {
    match d
    case Operand(only) => PrimaryYield(only)
    case Compare(left, op, right) => PrimaryYield(left) + [Keyword(OperatorKind(op))] + PrimaryYield(right)
  }

  function PrimaryYield(d: PrimaryD): seq<Symbol> {
    match d
    case Name(name) => [Symbol(Identifier, name)]
    case Integer(digits) => [Symbol(TokenKind.IntegerLiteral, digits)]
    case Literal(lexeme) => [Symbol(TokenKind.StringLiteral, lexeme)]
    case Parenthesized(inner) => [Keyword(LParen)] + OrYield(inner) + [Keyword(RParen)]
  }

  // ----- what must hold at the leaves -----

  predicate OrOk(d: OrD) {
    match d
    case OrBase(only) => AndOk(only)
    case OrStep(front, last) => OrOk(front) && AndOk(last)
  }

  predicate AndOk(d: AndD) {
    match d
    case AndBase(only) => ComparisonOk(only)
    case AndStep(front, last) => AndOk(front) && ComparisonOk(last)
  }

  predicate ComparisonOk(d: ComparisonD) {
    match d
    case Operand(only) => PrimaryOk(only)
    case Compare(left, op, right) => PrimaryOk(left) && IsComparison(op) && PrimaryOk(right)
  }

  /** Integers are digit strings below 2^63. */
  predicate PrimaryOk(d: PrimaryD) {
    match d
    case Name(_) => true
    case Integer(digits) => ReadInt64(digits).Some?
    case Literal(_) => true
    case Parenthesized(inner) => OrOk(inner)
  }

  // ----- the tree of a derivation: AND binds tighter than OR, both to the left -----

  function OrTree(d: OrD): Expression
    requires OrOk(d)
  {
    match d
    case OrBase(only) => AndTree(only)
    case OrStep(front, last) => Binary(BinaryOperator.Or, OrTree(front), AndTree(last))
  }

  function AndTree(d: AndD): Expression
    requires AndOk(d)
  {
    match d
    case AndBase(only) => ComparisonTree(only)
    case AndStep(front, last) => Binary(BinaryOperator.And, AndTree(front), ComparisonTree(last))
  }

  function ComparisonTree(d: ComparisonD): Expression
    requires ComparisonOk(d)
  {
    match d
    case Operand(only) => PrimaryTree(only)
    case Compare(left, op, right) => Binary(op, PrimaryTree(left), PrimaryTree(right))
  }

  function PrimaryTree(d: PrimaryD): Expression
    requires PrimaryOk(d)
  {
    match d
    case Name(name) => ColumnRef(name)
    case Integer(digits) => Expression.IntegerLiteral(ReadInt64(digits).value)
    case Literal(lexeme) => Expression.StringLiteral(lexeme)
    case Parenthesized(inner) => OrTree(inner)
  }

  // ----- soundness: what was read derives what is returned -----

  /** The parser sees keywords and punctuation without their spelling, and the end of the input last. */
  ghost predicate Erased(ts: seq<Symbol>) {
    forall i | 0 <= i < |ts| :: ts[i].kind != EndOfFile && (!CarriesText(ts[i].kind) ==> ts[i].text == "")
  }

  lemma Regroup(a: seq<Symbol>, k: Symbol, b: seq<Symbol>, rest: seq<Symbol>, ts: seq<Symbol>)
    requires ts != [] && ts[0] == k && ts[1..] == b + rest
    ensures a + ts == a + [k] + b + rest
  {
    assert ts == [k] + (b + rest);
  }

  lemma {:induction false} OrSound(ts: seq<Symbol>) returns (d: OrD)
    requires Erased(ts) && ParseOr(ts).Parsed?
    ensures OrOk(d) && OrTree(d) == ParseOr(ts).value
    ensures ts == OrYield(d) + ParseOr(ts).rest && Erased(ParseOr(ts).rest)
    decreases |ts|, 4
  {
    hide ParseAnd;
    var first := AndSound(ts);
    d := OrTailSound(OrBase(first), ParseAnd(ts).rest);
    assert ts == AndYield(first) + ParseAnd(ts).rest;
  }

  lemma {:induction false} OrTailSound(front: OrD, ts: seq<Symbol>) returns (d: OrD)
    requires OrOk(front) && Erased(ts) && OrTail(OrTree(front), ts).Parsed?
    ensures OrOk(d) && OrTree(d) == OrTail(OrTree(front), ts).value
    ensures OrYield(front) + ts == OrYield(d) + OrTail(OrTree(front), ts).rest
    ensures Erased(OrTail(OrTree(front), ts).rest)
    decreases |ts|, 0
  {
    hide ParseComparison;
    hide ParseAnd, AndYield, AndTree, AndOk;
    if Kind(ts) == TokenKind.Or {
      var last := AndSound(ts[1..]);
      var rest := ParseAnd(ts[1..]).rest;
      Regroup(OrYield(front), Keyword(TokenKind.Or), AndYield(last), rest, ts);
      d := OrTailSound(OrStep(front, last), rest);
    } else {
      d := front;
    }
  }

  lemma {:induction false} AndSound(ts: seq<Symbol>) returns (d: AndD)
    requires Erased(ts) && ParseAnd(ts).Parsed?
    ensures AndOk(d) && AndTree(d) == ParseAnd(ts).value
    ensures ts == AndYield(d) + ParseAnd(ts).rest && Erased(ParseAnd(ts).rest)
    decreases |ts|, 3
  {
    var first := ComparisonSound(ts);
    d := AndTailSound(AndBase(first), ParseComparison(ts).rest);
    assert ts == ComparisonYield(first) + ParseComparison(ts).rest;
  }

  lemma {:induction false} AndTailSound(front: AndD, ts: seq<Symbol>) returns (d: AndD)
    requires AndOk(front) && Erased(ts) && AndTail(AndTree(front), ts).Parsed?
    ensures AndOk(d) && AndTree(d) == AndTail(AndTree(front), ts).value
    ensures AndYield(front) + ts == AndYield(d) + AndTail(AndTree(front), ts).rest
    ensures Erased(AndTail(AndTree(front), ts).rest)
    decreases |ts|, 0
  {
    hide ParsePrimary, PrimaryYield, PrimaryTree, PrimaryOk;
    hide ParseComparison, ComparisonYield, ComparisonTree, ComparisonOk;
    if Kind(ts) == TokenKind.And {
      var last := ComparisonSound(ts[1..]);
      var rest := ParseComparison(ts[1..]).rest;
      Regroup(AndYield(front), Keyword(TokenKind.And), ComparisonYield(last), rest, ts);
      d := AndTailSound(AndStep(front, last), rest);
    } else {
      d := front;
    }
  }

  lemma OperatorKinds(kind: TokenKind)
    requires ComparisonOperator(kind).Some?
    ensures IsComparison(ComparisonOperator(kind).value)
    ensures OperatorKind(ComparisonOperator(kind).value) == kind
    ensures !CarriesText(kind) && kind != EndOfFile
  {
  }

  lemma {:induction false} ComparisonSound(ts: seq<Symbol>) returns (d: ComparisonD)
    requires Erased(ts) && ParseComparison(ts).Parsed?
    ensures ComparisonOk(d) && ComparisonTree(d) == ParseComparison(ts).value
    ensures ts == ComparisonYield(d) + ParseComparison(ts).rest && Erased(ParseComparison(ts).rest)
    decreases |ts|, 2
  {
    hide ParsePrimary, PrimaryYield, PrimaryTree, PrimaryOk, ComparisonOperator, OperatorKind, CarriesText;
    var left := PrimarySound(ts);
    var rest := ParsePrimary(ts).rest;
    var op := ComparisonOperator(Kind(rest));
    if op.None? {
      d := Operand(left);
    } else {
      OperatorKinds(Kind(rest));
      var right := PrimarySound(rest[1..]);
      d := Compare(left, op.value, right);
      assert rest == [Keyword(OperatorKind(op.value))] + rest[1..];
    }
  }

  lemma {:induction false} PrimarySound(ts: seq<Symbol>) returns (d: PrimaryD)
    requires Erased(ts) && ParsePrimary(ts).Parsed?
    ensures PrimaryOk(d) && PrimaryTree(d) == ParsePrimary(ts).value
    ensures ts == PrimaryYield(d) + ParsePrimary(ts).rest && Erased(ParsePrimary(ts).rest)
    decreases |ts|, 1
  {
    hide ParseOr, OrYield, OrTree, OrOk;
    assert ts == [ts[0]] + ts[1..];
    var kind := Kind(ts);
    if kind == Identifier {
      d := Name(ts[0].text);
    } else if kind == TokenKind.IntegerLiteral {
      d := Integer(ts[0].text);
    } else if kind == TokenKind.StringLiteral {
      d := Literal(ts[0].text);
    } else {
      var inner := OrSound(ts[1..]);
      d := Parenthesized(inner);
      var rest := ParseOr(ts[1..]).rest;
      assert rest == [Keyword(RParen)] + rest[1..];
    }
  }

  // ----- completeness: every sentence is read, and as its own tree -----

  /** A primary is read whatever follows it. */
  lemma {:induction false} PrimaryComplete(d: PrimaryD, rest: seq<Symbol>)
    requires PrimaryOk(d)
    ensures ParsePrimary(PrimaryYield(d) + rest) == Parsed(PrimaryTree(d), rest)
    decreases d, 0
  {
    hide ParseOr, OrYield, OrTree, OrOk;
    match d
    case Parenthesized(inner) =>
      var ts := PrimaryYield(d) + rest;
      var after := [Keyword(RParen)] + rest;
      assert ts[1..] == OrYield(inner) + after;
      OrComplete(inner, after);
    case _ =>
  }

  /** A comparison, unless another operator follows it. */
  lemma {:induction false} ComparisonComplete(d: ComparisonD, rest: seq<Symbol>)
    requires ComparisonOk(d) && ComparisonOperator(Kind(rest)).None?
    ensures ParseComparison(ComparisonYield(d) + rest) == Parsed(ComparisonTree(d), rest)
    decreases d, 1
  {
    hide ParsePrimary, PrimaryYield, PrimaryTree, PrimaryOk;
    match d
    case Operand(only) => PrimaryComplete(only, rest);
    case Compare(left, op, right) =>
      var after := [Keyword(OperatorKind(op))] + (PrimaryYield(right) + rest);
      assert ComparisonYield(d) + rest == PrimaryYield(left) + after;
      PrimaryComplete(left, after);
      assert after[1..] == PrimaryYield(right) + rest;
      PrimaryComplete(right, rest);
  }

  /** Conjunctions are collected to the left. */
  lemma {:induction false} AndCollects(d: AndD, rest: seq<Symbol>)
    requires AndOk(d) && ComparisonOperator(Kind(rest)).None?
    ensures ParseAnd(AndYield(d) + rest) == AndTail(AndTree(d), rest)
    decreases d, 2
  {
    match d
    case AndBase(only) => ComparisonComplete(only, rest);
    case AndStep(front, last) =>
      var after := [Keyword(TokenKind.And)] + (ComparisonYield(last) + rest);
      assert AndYield(d) + rest == AndYield(front) + after;
      AndCollects(front, after);
      assert after[1..] == ComparisonYield(last) + rest;
      ComparisonComplete(last, rest);
  }

  lemma {:induction false} OrCollects(d: OrD, rest: seq<Symbol>)
    requires OrOk(d) && ComparisonOperator(Kind(rest)).None? && Kind(rest) != TokenKind.And
    ensures ParseOr(OrYield(d) + rest) == OrTail(OrTree(d), rest)
    decreases d, 3
  {
    match d
    case OrBase(only) => AndCollects(only, rest);
    case OrStep(front, last) =>
      var after := [Keyword(TokenKind.Or)] + (AndYield(last) + rest);
      assert OrYield(d) + rest == OrYield(front) + after;
      OrCollects(front, after);
      assert after[1..] == AndYield(last) + rest;
      AndCollects(last, rest);
  }

  /** No symbol that could continue an expression. */
  predicate EndsExpression(rest: seq<Symbol>) {
    ComparisonOperator(Kind(rest)).None? && Kind(rest) != TokenKind.And && Kind(rest) != TokenKind.Or
  }

  lemma {:induction false} OrComplete(d: OrD, rest: seq<Symbol>)
    requires OrOk(d) && EndsExpression(rest)
    ensures ParseOr(OrYield(d) + rest) == Parsed(OrTree(d), rest)
    decreases d, 4
  {
    OrCollects(d, rest);
  }

  /** So the grammar is unambiguous: one sentence, one tree. */
  lemma Unambiguous(d: OrD, e: OrD)
    requires OrOk(d) && OrOk(e) && OrYield(d) == OrYield(e)
    ensures OrTree(d) == OrTree(e)
  {
    OrComplete(d, []);
    OrComplete(e, []);
  }
}
