/**
 * Printing statements: with as few parentheses as the grammar allows, as symbols and as text, and
 * why lexing and parsing the text gives the statement back.
 */
module Printing {
  import opened Prelude
  import opened Ast
  import opened Values
  import opened Tokens
  import opened Numbers
  import opened ParserSpec
  import opened Grammar
  import opened StatementGrammar
  import opened Rendering

  // ----- expressions -----

  /** The grammar level at which an expression needs no parentheses. */
  function Level(e: Expression): nat {
    match e
    case Binary(op, _, _) => if op == BinaryOperator.Or then 0 else if op == BinaryOperator.And then 1 else 2
    case _ => 3
  }

  predicate Printable(e: Expression) {
    match e
    case IntegerLiteral(n) => 0 <= n
    case Binary(_, left, right) => Printable(left) && Printable(right)
    case _ => true
  }

  function PrintOr(e: Expression): OrD
    requires Printable(e)
    decreases e, Level(e)
  {
    if Level(e) == 0 then OrStep(PrintOr(e.left), PrintAnd(e.right)) else OrBase(PrintAnd(e))
  }

  function PrintAnd(e: Expression): AndD
    requires Printable(e)
    decreases e, (Level(e) - 1) % 4
  {
    if Level(e) == 1 then AndStep(PrintAnd(e.left), PrintComparison(e.right)) else AndBase(PrintComparison(e))
  }

  function PrintComparison(e: Expression): ComparisonD
    requires Printable(e)
    decreases e, (Level(e) - 2) % 4
  {
    if Level(e) == 2 then Compare(PrintPrimary(e.left), e.op, PrintPrimary(e.right)) else Operand(PrintPrimary(e))
  }

  function PrintPrimary(e: Expression): PrimaryD
    requires Printable(e)
    decreases e, (Level(e) - 3) % 4
  {
    match e
    case ColumnRef(name) => Name(name)
    case IntegerLiteral(n) => Integer(Decimal(n))
    case StringLiteral(lexeme) => Literal(lexeme)
    case Binary(_, _, _) => Parenthesized(PrintOr(e))
  }

  /** The printed derivation is in range and its tree is the expression. */
  lemma {:induction false} PrintOrTree(e: Expression)
    requires Printable(e)
    ensures OrOk(PrintOr(e)) && OrTree(PrintOr(e)) == e
    decreases e, Level(e)
  {
    hide PrintAnd, AndOk, AndTree;
    if Level(e) == 0 {
      PrintOrTree(e.left);
      PrintAndTree(e.right);
    } else {
      PrintAndTree(e);
    }
  }

  lemma {:induction false} PrintAndTree(e: Expression)
    requires Printable(e)
    ensures AndOk(PrintAnd(e)) && AndTree(PrintAnd(e)) == e
    decreases e, (Level(e) - 1) % 4
  {
    hide PrintComparison, ComparisonOk, ComparisonTree;
    if Level(e) == 1 {
      PrintAndTree(e.left);
      PrintComparisonTree(e.right);
    } else {
      PrintComparisonTree(e);
    }
  }

  lemma {:induction false} PrintComparisonTree(e: Expression)
    requires Printable(e)
    ensures ComparisonOk(PrintComparison(e)) && ComparisonTree(PrintComparison(e)) == e
    decreases e, (Level(e) - 2) % 4
  {
    hide PrintPrimary, PrimaryOk, PrimaryTree;
    if Level(e) == 2 {
      PrintPrimaryTree(e.left);
      PrintPrimaryTree(e.right);
    } else {
      PrintPrimaryTree(e);
    }
  }

  lemma {:induction false} PrintPrimaryTree(e: Expression)
    requires Printable(e)
    ensures PrimaryOk(PrintPrimary(e)) && PrimaryTree(PrintPrimary(e)) == e
    decreases e, (Level(e) - 3) % 4
  {
    hide PrintOr, OrOk, OrTree;
    match e
    case IntegerLiteral(n) => DecimalRoundTrip(n);
    case Binary(_, _, _) => PrintOrTree(e);
    case _ =>
  }

  // ----- no derivation of the same tree has fewer parentheses -----

  function OrParens(d: OrD): nat {
    match d
    case OrBase(only) => AndParens(only)
    case OrStep(front, last) => OrParens(front) + AndParens(last)
  }

  function AndParens(d: AndD): nat {
    match d
    case AndBase(only) => ComparisonParens(only)
    case AndStep(front, last) => AndParens(front) + ComparisonParens(last)
  }

  function ComparisonParens(d: ComparisonD): nat {
    match d
    case Operand(only) => PrimaryParens(only)
    case Compare(left, _, right) => PrimaryParens(left) + PrimaryParens(right)
  }

  function PrimaryParens(d: PrimaryD): nat {
    match d
    case Parenthesized(inner) => 1 + OrParens(inner)
    case _ => 0
  }

  lemma LevelCosts(e: Expression)
    requires Printable(e)
    ensures OrParens(PrintOr(e)) <= AndParens(PrintAnd(e)) <= ComparisonParens(PrintComparison(e))
    ensures ComparisonParens(PrintComparison(e)) <= PrimaryParens(PrintPrimary(e)) <= 1 + OrParens(PrintOr(e))
  {
    var inner := PrintOr(e);
    var wrapped := Parenthesized(inner);
    match Level(e)
    case 0 =>
      assert PrintAnd(e) == AndBase(Operand(wrapped));
    case 1 =>
      assert inner == OrBase(PrintAnd(e)) && PrintComparison(e) == Operand(wrapped);
    case 2 =>
      assert inner == OrBase(AndBase(PrintComparison(e))) && PrintPrimary(e) == wrapped;
    case _ =>
      assert PrintComparison(e) == Operand(PrintPrimary(e));
      assert PrintAnd(e) == AndBase(PrintComparison(e));
      assert inner == OrBase(PrintAnd(e));
  }

  /** Every derivation of an expression has at least the parentheses of the printed one. */
  lemma {:induction false} OrMinimal(d: OrD)
    requires OrOk(d)
    ensures Printable(OrTree(d)) && OrParens(PrintOr(OrTree(d))) <= OrParens(d)
    decreases d
  {
    hide AndOk, AndTree, AndParens, PrintAnd;
    match d
    case OrBase(only) =>
      AndMinimal(only);
      LevelCosts(AndTree(only));
    case OrStep(front, last) =>
      OrMinimal(front);
      AndMinimal(last);
  }

  lemma {:induction false} AndMinimal(d: AndD)
    requires AndOk(d)
    ensures Printable(AndTree(d)) && AndParens(PrintAnd(AndTree(d))) <= AndParens(d)
    decreases d
  {
    hide ComparisonOk, ComparisonTree, ComparisonParens, PrintComparison;
    match d
    case AndBase(only) =>
      ComparisonMinimal(only);
      LevelCosts(ComparisonTree(only));
    case AndStep(front, last) =>
      AndMinimal(front);
      ComparisonMinimal(last);
  }

  lemma {:induction false} ComparisonMinimal(d: ComparisonD)
    requires ComparisonOk(d)
    ensures Printable(ComparisonTree(d)) && ComparisonParens(PrintComparison(ComparisonTree(d))) <= ComparisonParens(d)
    decreases d
  {
    hide PrimaryOk, PrimaryTree, PrimaryParens, PrintPrimary;
    match d
    case Operand(only) =>
      PrimaryMinimal(only);
      LevelCosts(PrimaryTree(only));
    case Compare(left, _, right) =>
      PrimaryMinimal(left);
      PrimaryMinimal(right);
  }

  lemma {:induction false} PrimaryMinimal(d: PrimaryD)
    requires PrimaryOk(d)
    ensures Printable(PrimaryTree(d)) && PrimaryParens(PrintPrimary(PrimaryTree(d))) <= PrimaryParens(d)
    decreases d
  {
    hide OrOk, OrTree, OrParens, PrintOr;
    match d
    case Parenthesized(inner) =>
      OrMinimal(inner);
      LevelCosts(OrTree(inner));
    case _ =>
  }

  // ----- statements -----

  /** Leaves of an expression that can be written as one lexeme each. */
  predicate Writable(e: Expression) {
    match e
    case ColumnRef(name) => IsName(name)
    case IntegerLiteral(n) => 0 <= n
    case StringLiteral(lexeme) => IsQuotedLiteral(lexeme)
    case Binary(_, left, right) => Writable(left) && Writable(right)
  }

  predicate WritableTable(t: TableReference) {
    (t.schema == "" || IsName(t.schema)) && IsName(t.table)
  }

  /** The statements that have a text: lists are not empty, and names are identifiers but no keywords. */
  predicate WritableStatement(s: Statement) {
    match s
    case Select(selectAll, columns, t, condition) =>
      && WritableTable(t)
      && (condition.Some? ==> Writable(condition.value))
      && selectAll == (columns == [])
      && forall i | 0 <= i < |columns| :: columns[i].ColumnRef? && Writable(columns[i])
    case CreateTable(t, definitions) =>
      WritableTable(t) && definitions != [] && forall i | 0 <= i < |definitions| :: IsName(definitions[i].name)
    case CreateSchema(name) => IsName(name)
    case CreateDatabase(name) => IsName(name)
    case Insert(t, values) =>
      WritableTable(t) && values != [] && forall i | 0 <= i < |values| :: Writable(values[i])
  }

  lemma {:induction false} WritablePrintable(e: Expression)
    requires Writable(e)
    ensures Printable(e)
  {
    if e.Binary? {
      WritablePrintable(e.left);
      WritablePrintable(e.right);
    }
  }

  function PrintTable(t: TableReference): TableD {
    if t.schema == "" then Unqualified(t.table) else Qualified(t.schema, t.table)
  }

  function PrintCondition(condition: Option<Expression>): Option<OrD>
    requires condition.Some? ==> Writable(condition.value)
  {
    match condition
    case None => None
    case Some(e) =>
      WritablePrintable(e);
      Some(PrintOr(e))
  }

  function PrintValue(e: Expression): PrimaryD
    requires Writable(e)
  {
    WritablePrintable(e);
    PrintPrimary(e)
  }

  function PrintBody(s: Statement): BodyD
    requires WritableStatement(s)
  {
    match s
    case Select(selectAll, columns, t, condition) =>
      if selectAll then SelectAllD(PrintTable(t), PrintCondition(condition))
      else
        var names := seq(|columns|, i requires 0 <= i < |columns| => columns[i].name);
        SelectD(names, PrintTable(t), PrintCondition(condition))
    case CreateTable(t, definitions) => CreateTableD(PrintTable(t), definitions)
    case CreateSchema(name) => CreateSchemaD(name)
    case CreateDatabase(name) => CreateDatabaseD(name)
    case Insert(t, values) =>
      InsertD(PrintTable(t), seq(|values|, i requires 0 <= i < |values| => PrintValue(values[i])))
  }

  lemma PrintConditionTree(condition: Option<Expression>)
    requires condition.Some? ==> Writable(condition.value)
    ensures ConditionOk(PrintCondition(condition)) && ConditionTree(PrintCondition(condition)) == condition
  {
    if condition.Some? {
      WritablePrintable(condition.value);
      PrintOrTree(condition.value);
    }
  }

  /** The printed statement is a sentence of the grammar, and its tree is the statement. */
  lemma PrintBodyTree(s: Statement)
    requires WritableStatement(s)
    ensures BodyOk(PrintBody(s)) && StatementTree(PrintBody(s)) == s
  {
    hide Writable, PrintOr, PrintPrimary, PrimaryOk, PrimaryTree, ConditionOk, ConditionTree, PrintCondition, IsName;
    match s
    case Select(selectAll, columns, t, condition) =>
      PrintConditionTree(condition);
      if !selectAll {
        assert NameTrees(PrintBody(s).names) == columns;
      }
    case Insert(t, values) =>
      forall i | 0 <= i < |values|
        ensures PrimaryOk(PrintValue(values[i])) && PrimaryTree(PrintValue(values[i])) == values[i]
      {
        WritablePrintable(values[i]);
        PrintPrimaryTree(values[i]);
      }
      assert ValueTrees(PrintBody(s).values) == values;
    case _ =>
  }

  /** Reading the printed symbols gives the statement back, with or without the semicolon. */
  lemma PrintedParses(s: Statement, semicolon: bool)
    requires WritableStatement(s)
    ensures BodyOk(PrintBody(s))
    ensures ParseStatement(StatementYield(StatementD(PrintBody(s), semicolon))) == Parsed(s, [])
  {
    hide WritableStatement, PrintBody, BodyOk, StatementTree, StatementYield, ParseStatement;
    PrintBodyTree(s);
    StatementComplete(StatementD(PrintBody(s), semicolon));
  }

  /**
   * Print, lex, parse: however the printed statement is spelled (keywords in any case, either
   * spelling of `<>`) and spaced (white space and comments), its text is read as the statement.
   */
  lemma TextRoundTrip(s: Statement, semicolon: bool, lexemes: seq<string>, gaps: seq<string>)
    requires WritableStatement(s) && BodyOk(PrintBody(s))
    requires Spell(lexemes, StatementYield(StatementD(PrintBody(s), semicolon)))
    requires |gaps| == |lexemes| + 1 && WellSpaced(lexemes, gaps)
    ensures ParseStatement(Symbols(Render(lexemes, gaps), 0)) == Parsed(s, [])
  {
    hide WritableStatement, PrintBody, BodyOk, StatementYield, ParseStatement, Spell, WellSpaced, Symbols;
    PrintedParses(s, semicolon);
    RenderLexes(lexemes, StatementYield(StatementD(PrintBody(s), semicolon)), gaps);
  }
}
