/**
 * What the recursive-descent parser of src/frontend/parser.cpp returns, as functions of the
 * symbols still to be read. The end of the input is the end of the list.
 */
module ParserSpec {
  import opened Prelude
  import opened Ast
  import opened Tokens
  import opened Numbers

  /** A value and the symbols left, or the symbols left where the error is reported. */
  datatype Parsed<+T> = Parsed(value: T, rest: seq<Symbol>) | Stuck(rest: seq<Symbol>)

  function Kind(ts: seq<Symbol>): TokenKind {
    if ts == [] then EndOfFile else ts[0].kind
  }

  // ----- expressions -----

  function ComparisonOperator(kind: TokenKind): Option<BinaryOperator> {
    match kind
    case Equal => Some(BinaryOperator.Equal)
    case NotEqual => Some(BinaryOperator.NotEqual)
    case Less => Some(BinaryOperator.Less)
    case LessEqual => Some(BinaryOperator.LessEqual)
    case Greater => Some(BinaryOperator.Greater)
    case GreaterEqual => Some(BinaryOperator.GreaterEqual)
    case _ => None
  }

  function ParseOr(ts: seq<Symbol>): (r: Parsed<Expression>)
    ensures |r.rest| <= |ts| && (r.Parsed? ==> |r.rest| < |ts|)
    decreases |ts|, 4
  {
    match ParseAnd(ts)
    case Stuck(rest) => Stuck(rest)
    case Parsed(left, rest) => OrTail(left, rest)
  }

  function OrTail(left: Expression, ts: seq<Symbol>): (r: Parsed<Expression>)
    ensures |r.rest| <= |ts|
    decreases |ts|, 0
  {
    if Kind(ts) == TokenKind.Or then
      match ParseAnd(ts[1..])
      case Stuck(rest) => Stuck(rest)
      case Parsed(right, rest) => OrTail(Binary(BinaryOperator.Or, left, right), rest)
    else Parsed(left, ts)
  }

  function ParseAnd(ts: seq<Symbol>): (r: Parsed<Expression>)
    ensures |r.rest| <= |ts| && (r.Parsed? ==> |r.rest| < |ts|)
    decreases |ts|, 3
  {
    match ParseComparison(ts)
    case Stuck(rest) => Stuck(rest)
    case Parsed(left, rest) => AndTail(left, rest)
  }

  function AndTail(left: Expression, ts: seq<Symbol>): (r: Parsed<Expression>)
    ensures |r.rest| <= |ts|
    decreases |ts|, 0
  {
    if Kind(ts) == TokenKind.And then
      match ParseComparison(ts[1..])
      case Stuck(rest) => Stuck(rest)
      case Parsed(right, rest) => AndTail(Binary(BinaryOperator.And, left, right), rest)
    else Parsed(left, ts)
  }

  function ParseComparison(ts: seq<Symbol>): (r: Parsed<Expression>)
    ensures |r.rest| <= |ts| && (r.Parsed? ==> |r.rest| < |ts|)
    decreases |ts|, 2
  {
    match ParsePrimary(ts)
    case Stuck(rest) => Stuck(rest)
    case Parsed(left, rest) =>
      match ComparisonOperator(Kind(rest))
      case None => Parsed(left, rest)
      case Some(op) =>
        match ParsePrimary(rest[1..])
        case Stuck(rest') => Stuck(rest')
        case Parsed(right, rest') => Parsed(Binary(op, left, right), rest')
  }

  function ParsePrimary(ts: seq<Symbol>): (r: Parsed<Expression>)
    ensures |r.rest| <= |ts| && (r.Parsed? ==> |r.rest| < |ts|)
    decreases |ts|, 1
  {
    match Kind(ts)
    case Identifier => ParseColumnReference(ts)
    case IntegerLiteral =>
      (match ReadInt64(ts[0].text)
       case Some(n) => Parsed(Expression.IntegerLiteral(n), ts[1..])
       case None => Stuck(ts))
    case StringLiteral => Parsed(Expression.StringLiteral(ts[0].text), ts[1..])
    case LParen =>
      (match ParseOr(ts[1..])
       case Stuck(rest) => Stuck(rest)
       case Parsed(e, rest) => if Kind(rest) == RParen then Parsed(e, rest[1..]) else Stuck(rest))
    case _ => Stuck(ts)
  }

  // ----- names, lists and types -----

  function ParseColumnReference(ts: seq<Symbol>): (r: Parsed<Expression>)
    ensures |r.rest| <= |ts| && (r.Parsed? ==> |r.rest| < |ts|)
  {
    if Kind(ts) == Identifier then Parsed(ColumnRef(ts[0].text), ts[1..]) else Stuck(ts)
  }

  function ParseName(ts: seq<Symbol>): (r: Parsed<string>)
    ensures |r.rest| <= |ts| && (r.Parsed? ==> |r.rest| < |ts|)
  {
    if Kind(ts) == Identifier then Parsed(ts[0].text, ts[1..]) else Stuck(ts)
  }

  function ParseTableReference(ts: seq<Symbol>): (r: Parsed<TableReference>)
    ensures |r.rest| <= |ts| && (r.Parsed? ==> |r.rest| < |ts|)
  {
    match ParseName(ts)
    case Stuck(rest) => Stuck(rest)
    case Parsed(name, rest) =>
      if Kind(rest) != Dot then Parsed(TableReference("", name), rest)
      else
        match ParseName(rest[1..])
        case Stuck(rest') => Stuck(rest')
        case Parsed(table, rest') => Parsed(TableReference(name, table), rest')
  }

  function ParseColumnType(ts: seq<Symbol>): (r: Parsed<LogicalType>)
    ensures |r.rest| <= |ts|
  {
    match Kind(ts)
    case Int => Parsed(IntType, ts[1..])
    case Text => Parsed(TextType, ts[1..])
    case _ => Stuck(ts)
  }

  function ParseColumnDefinition(ts: seq<Symbol>): (r: Parsed<ColumnDefinition>)
    ensures |r.rest| <= |ts|
  {
    match ParseName(ts)
    case Stuck(rest) => Stuck(rest)
    case Parsed(name, rest) =>
      match ParseColumnType(rest)
      case Stuck(rest') => Stuck(rest')
      case Parsed(columnType, rest') => Parsed(ColumnDefinition(name, columnType), rest')
  }

  type ItemParser<T> = seq<Symbol> -> Parsed<T>

  ghost predicate Shrinks<T(!new)>(item: ItemParser<T>) {
    forall ts :: |item(ts).rest| <= |ts|
  }

  function ParseList<T(!new)>(item: ItemParser<T>, ts: seq<Symbol>): (r: Parsed<seq<T>>)
    requires Shrinks(item)
    ensures |r.rest| <= |ts|
  {
    match item(ts)
    case Stuck(rest) => Stuck(rest)
    case Parsed(x, rest) => ListTail(item, [x], rest)
  }

  function ListTail<T(!new)>(item: ItemParser<T>, items: seq<T>, ts: seq<Symbol>): (r: Parsed<seq<T>>)
    requires Shrinks(item)
    ensures |r.rest| <= |ts|
    decreases |ts|
  {
    if Kind(ts) == Comma then
      match item(ts[1..])
      case Stuck(rest) => Stuck(rest)
      case Parsed(x, rest) => ListTail(item, items + [x], rest)
    else Parsed(items, ts)
  }

  // ----- statements -----

  function Finish(statement: Statement, ts: seq<Symbol>): Parsed<Statement> {
    var rest := if Kind(ts) == Semicolon then ts[1..] else ts;
    if Kind(ts) != Semicolon && Kind(ts) != EndOfFile then Stuck(ts)
    else if Kind(rest) == EndOfFile then Parsed(statement, rest)
    else Stuck(rest)
  }

  function ParseSelect(ts: seq<Symbol>): Parsed<Statement> {
    if Kind(ts) == Star then ParseFrom(true, [], ts[1..])
    else
      match ParseList(ParseColumnReference, ts)
      case Stuck(rest) => Stuck(rest)
      case Parsed(columns, rest) => ParseFrom(false, columns, rest)
  }

  function ParseFrom(selectAll: bool, columns: seq<Expression>, ts: seq<Symbol>): Parsed<Statement> {
    if Kind(ts) != From then Stuck(ts)
    else
      match ParseTableReference(ts[1..])
      case Stuck(rest) => Stuck(rest)
      case Parsed(table, rest) =>
        if Kind(rest) != Where then Finish(Statement.Select(selectAll, columns, table, None), rest)
        else
          match ParseOr(rest[1..])
          case Stuck(rest') => Stuck(rest')
          case Parsed(e, rest') => Finish(Statement.Select(selectAll, columns, table, Some(e)), rest')
  }

  function ParseCreate(ts: seq<Symbol>): Parsed<Statement> {
    match Kind(ts)
    case Database =>
      (match ParseName(ts[1..])
       case Stuck(rest) => Stuck(rest)
       case Parsed(name, rest) => Finish(CreateDatabase(name), rest))
    case Schema =>
      (match ParseName(ts[1..])
       case Stuck(rest) => Stuck(rest)
       case Parsed(name, rest) => Finish(CreateSchema(name), rest))
    case Table => ParseCreateTable(ts[1..])
    case _ => Stuck(ts)
  }

  function ParseCreateTable(ts: seq<Symbol>): Parsed<Statement> {
    match ParseTableReference(ts)
    case Stuck(rest) => Stuck(rest)
    case Parsed(table, rest) =>
      if Kind(rest) != LParen then Stuck(rest)
      else
        match ParseList(ParseColumnDefinition, rest[1..])
        case Stuck(rest') => Stuck(rest')
        case Parsed(definitions, rest') =>
          if Kind(rest') != RParen then Stuck(rest') else Finish(CreateTable(table, definitions), rest'[1..])
  }

  function ParseInsert(ts: seq<Symbol>): Parsed<Statement> {
    if Kind(ts) != Into then Stuck(ts)
    else
      match ParseTableReference(ts[1..])
      case Stuck(rest) => Stuck(rest)
      case Parsed(table, rest) => ParseValueClause(table, rest)
  }

  function ParseValueClause(table: TableReference, ts: seq<Symbol>): Parsed<Statement> {
    if Kind(ts) != TokenKind.Values then Stuck(ts)
    else if Kind(ts[1..]) != LParen then Stuck(ts[1..])
    else
      match ParseList(ParsePrimary, ts[1..][1..])
      case Stuck(rest) => Stuck(rest)
      case Parsed(values, rest) =>
        if Kind(rest) != RParen then Stuck(rest) else Finish(Statement.Insert(table, values), rest[1..])
  }

  function ParseStatement(ts: seq<Symbol>): Parsed<Statement> {
    match Kind(ts)
    case Select => ParseSelect(ts[1..])
    case Create => ParseCreate(ts[1..])
    case Insert => ParseInsert(ts[1..])
    case _ => Stuck(ts)
  }
}
