/** The parser object of src/frontend/parser.cpp: a lexer and one token of lookahead. */
module Parsers {
  import opened Prelude
  import opened Ast
  import opened Tokens
  import opened Lexers
  import opened LexerTheorems
  import opened Numbers
  import opened ParserSpec

  /** A value, or the location where the parser stopped. */
  datatype ParseResult<+T> = ParseOk(value: T) | ParseError(line: nat, column: nat)

  /** `token` is number `index` of the input, and ends at `pos`. */
  ghost predicate IsToken(input: string, index: nat, token: Token, pos: nat) {
    && index < |AllLexed(input, 0)|
    && var l := AllLexed(input, 0)[index];
      l.start <= l.end == pos <= |input| && token == TokenOf(input, l)
  }

  /** The location of the token after which `left` symbols are left, itself included. */
  ghost predicate IsLocation(line: nat, column: nat, input: string, left: nat) {
    var tokens := AllTokens(input, 0);
    left < |tokens| && tokens[|tokens| - 1 - left].line == line && tokens[|tokens| - 1 - left].column == column
  }

  lemma NextAtEnd(input: string)
    ensures NextLexed(input, |input|) == Lexed(EndOfFile, |input|, |input|)
  {
  }

  class Parser {
    const lexer: Lexer
    var current: Token
    ghost var index: nat

    /** The current token is number `index` of the input, and the lexer stands at its end. */
    ghost predicate Valid()
      reads this, lexer
    {
      lexer.Valid() && IsToken(lexer.input, index, current, lexer.pos)
    }

    /** The symbols still to be read, the current one first. */
    ghost function Remaining(): (ts: seq<Symbol>)
      requires Valid()
      reads this, lexer
      ensures Kind(ts) == current.kind
      ensures CarriesText(current.kind) ==> ts[0].text == current.lexeme
    {
      if current.kind == EndOfFile then []
      else [SymbolOf(current.kind, current.lexeme)] + Symbols(lexer.input, lexer.pos)
    }

    /** What a parsing method may promise: the value and rest of `spec`, or the location where it stops. */
    ghost predicate Agrees<T>(result: ParseResult<T>, spec: Parsed<T>)
      reads this, lexer
    {
      && Valid() && Remaining() == spec.rest
      && match spec
         case Parsed(value, _) => result == ParseOk(value)
         case Stuck(_) => result == ParseError(current.line, current.column)
    }

    constructor (sql: string)
      ensures Valid() && fresh(lexer) && lexer.input == sql
      ensures Remaining() == Symbols(sql, 0)
    {
      hide NextLexed, LineAt, ColumnAt;
      var l := new Lexer(sql);
      LexedStep(sql, 0, 0);
      var token := l.Next();
      lexer := l;
      current, index := token, 0;
    }

    method Advance()
      requires Valid()
      modifies this, lexer
      ensures Valid()
      ensures Remaining() == if old(Remaining()) == [] then [] else old(Remaining())[1..]
    {
      hide NextLexed, LineAt, ColumnAt;
      LexedStep(lexer.input, 0, index);
      NextAtEnd(lexer.input);
      index := if current.kind == EndOfFile then index else index + 1;
      current := lexer.Next();
    }

    /** The location a failure reports is that of the first token that has not been consumed. */
    lemma ErrorLocation()
      requires Valid()
      ensures IsLocation(current.line, current.column, lexer.input, |Remaining()|)
    {
      hide NextLexed, AllLexed, Symbols, AllTokens, LineAt, ColumnAt;
      LexedStep(lexer.input, 0, index);
      AllTokensLexed(lexer.input, 0, index);
    }

    predicate Check(kind: TokenKind)
      reads this
    {
      current.kind == kind
    }

    method Match(kind: TokenKind) returns (matched: bool)
      requires Valid() && kind != EndOfFile
      modifies this, lexer
      ensures Valid()
      ensures matched <==> Kind(old(Remaining())) == kind
      ensures Remaining() == if matched then old(Remaining())[1..] else old(Remaining())
    {
      hide Remaining, Valid;
      if !Check(kind) {
        return false;
      }
      Advance();
      return true;
    }

    function Fail<T>(): ParseResult<T>
      reads this
    {
      ParseError(current.line, current.column)
    }

    // ----- expressions -----

    method ParseOrExpression() returns (r: ParseResult<Expression>)
      requires Valid()
      modifies this, lexer
      ensures Agrees(r, ParseOr(old(Remaining())))
      decreases |Remaining()|, 4
    {
      hide Remaining, Valid;
      ghost var ts := Remaining();
      r := ParseAndExpression();
      if r.ParseError? {
        return;
      }
      var matched := Match(TokenKind.Or);
      while matched
        invariant Valid() && r.ParseOk?
        invariant |Remaining()| < |ts|
        invariant matched ==> ParseOr(ts) == OrAfter(r.value, Remaining())
        invariant !matched ==> ParseOr(ts) == Parsed(r.value, Remaining())
        decreases |Remaining()|, matched
      {
        var right := ParseAndExpression();
        if right.ParseError? {
          return right;
        }
        r := ParseOk(Binary(BinaryOperator.Or, r.value, right.value));
        matched := Match(TokenKind.Or);
      }
    }

    /** `OrTail` once the operator has been consumed. */
    ghost function OrAfter(left: Expression, ts: seq<Symbol>): Parsed<Expression> {
      match ParseAnd(ts)
      case Stuck(rest) => Stuck(rest)
      case Parsed(right, rest) => OrTail(Binary(BinaryOperator.Or, left, right), rest)
    }

    method ParseAndExpression() returns (r: ParseResult<Expression>)
      requires Valid()
      modifies this, lexer
      ensures Agrees(r, ParseAnd(old(Remaining())))
      decreases |Remaining()|, 3
    {
      hide Remaining, Valid;
      ghost var ts := Remaining();
      r := ParseComparisonExpression();
      if r.ParseError? {
        return;
      }
      var matched := Match(TokenKind.And);
      while matched
        invariant Valid() && r.ParseOk?
        invariant |Remaining()| < |ts|
        invariant matched ==> ParseAnd(ts) == AndAfter(r.value, Remaining())
        invariant !matched ==> ParseAnd(ts) == Parsed(r.value, Remaining())
        decreases |Remaining()|, matched
      {
        var right := ParseComparisonExpression();
        if right.ParseError? {
          return right;
        }
        r := ParseOk(Binary(BinaryOperator.And, r.value, right.value));
        matched := Match(TokenKind.And);
      }
    }

    ghost function AndAfter(left: Expression, ts: seq<Symbol>): Parsed<Expression> {
      match ParseComparison(ts)
      case Stuck(rest) => Stuck(rest)
      case Parsed(right, rest) => AndTail(Binary(BinaryOperator.And, left, right), rest)
    }

    method ParseComparisonExpression() returns (r: ParseResult<Expression>)
      requires Valid()
      modifies this, lexer
      ensures Agrees(r, ParseComparison(old(Remaining())))
      decreases |Remaining()|, 2
    {
      hide Remaining, Valid;
      var left := ParsePrimaryExpression();
      if left.ParseError? {
        return left;
      }
      var op := ComparisonOperator(current.kind);
      if op.None? {
        return left;
      }
      Advance();
      var right := ParsePrimaryExpression();
      if right.ParseError? {
        return right;
      }
      return ParseOk(Binary(op.value, left.value, right.value));
    }

    method ParsePrimaryExpression() returns (r: ParseResult<Expression>)
      requires Valid()
      modifies this, lexer
      ensures Agrees(r, ParsePrimary(old(Remaining())))
      decreases |Remaining()|, 1
    {
      hide Remaining, Valid, ParseOr, ReadInt64;
      if Check(Identifier) {
        r := ParseColumn();
        return;
      }
      if Check(TokenKind.IntegerLiteral) {
        r := ParseIntegerLiteral();
        return;
      }
      if Check(TokenKind.StringLiteral) {
        r := ParseStringLiteral();
        return;
      }
      if Check(LParen) {
        r := ParseParenthesized();
        return;
      }
      return Fail();
    }

    lemma ParenthesizedSpec(ts: seq<Symbol>)
      requires Kind(ts) == LParen
      ensures var inner := ParseOr(ts[1..]);
        ParsePrimary(ts) ==
          if inner.Stuck? then inner
          else if Kind(inner.rest) == RParen then Parsed(inner.value, inner.rest[1..])
          else Stuck(inner.rest)
    {
      hide ParseOr;
    }

    method ParseParenthesized() returns (r: ParseResult<Expression>)
      requires Valid() && Check(LParen)
      modifies this, lexer
      ensures Agrees(r, ParsePrimary(old(Remaining())))
      decreases |Remaining()|, 0
    {
      hide Remaining, Valid, ParseOr, ParsePrimary;
      ParenthesizedSpec(Remaining());
      var _ := Match(LParen);
      r := ParseOrExpression();
      if r.ParseError? {
        return;
      }
      var closed := Match(RParen);
      if !closed {
        return Fail();
      }
    }

    method ParseColumn() returns (r: ParseResult<Expression>)
      requires Valid()
      modifies this, lexer
      ensures Agrees(r, ParseColumnReference(old(Remaining())))
    {
      hide Remaining, Valid;
      if !Check(Identifier) {
        return Fail();
      }
      r := ParseOk(ColumnRef(current.lexeme));
      Advance();
    }

    method ParseIntegerLiteral() returns (r: ParseResult<Expression>)
      requires Valid() && Check(TokenKind.IntegerLiteral)
      modifies this, lexer
      ensures Agrees(r, ParsePrimary(old(Remaining())))
    {
      hide Remaining, Valid;
      var value := ReadInt64(current.lexeme);
      if value.None? {
        return Fail();
      }
      r := ParseOk(Expression.IntegerLiteral(value.value));
      Advance();
    }

    method ParseStringLiteral() returns (r: ParseResult<Expression>)
      requires Valid() && Check(TokenKind.StringLiteral)
      modifies this, lexer
      ensures Agrees(r, ParsePrimary(old(Remaining())))
    {
      hide Remaining, Valid;
      r := ParseOk(Expression.StringLiteral(current.lexeme));
      Advance();
    }

    // ----- names, lists and types -----

    method ParseIdentifier() returns (r: ParseResult<string>)
      requires Valid()
      modifies this, lexer
      ensures Agrees(r, ParseName(old(Remaining())))
    {
      hide Remaining, Valid;
      if !Check(Identifier) {
        return Fail();
      }
      r := ParseOk(current.lexeme);
      Advance();
    }

    method ParseTable() returns (r: ParseResult<TableReference>)
      requires Valid()
      modifies this, lexer
      ensures Agrees(r, ParseTableReference(old(Remaining())))
    {
      hide Remaining, Valid;
      var name := ParseIdentifier();
      if name.ParseError? {
        return Fail();
      }
      var qualified := Match(Dot);
      if !qualified {
        return ParseOk(TableReference("", name.value));
      }
      var table := ParseIdentifier();
      if table.ParseError? {
        return Fail();
      }
      return ParseOk(TableReference(name.value, table.value));
    }

    method ParseType() returns (r: ParseResult<LogicalType>)
      requires Valid()
      modifies this, lexer
      ensures Agrees(r, ParseColumnType(old(Remaining())))
    {
      hide Remaining, Valid;
      var matched := Match(TokenKind.Int);
      if matched {
        return ParseOk(IntType);
      }
      matched := Match(TokenKind.Text);
      if matched {
        return ParseOk(TextType);
      }
      return Fail();
    }

    method ParseDefinition() returns (r: ParseResult<ColumnDefinition>)
      requires Valid()
      modifies this, lexer
      ensures Agrees(r, ParseColumnDefinition(old(Remaining())))
    {
      hide Remaining, Valid;
      var name := ParseIdentifier();
      if name.ParseError? {
        return Fail();
      }
      var columnType := ParseType();
      if columnType.ParseError? {
        return Fail();
      }
      return ParseOk(ColumnDefinition(name.value, columnType.value));
    }

    method ParseColumns() returns (r: ParseResult<seq<Expression>>)
      requires Valid()
      modifies this, lexer
      ensures Shrinks(ParseColumnReference) && Agrees(r, ParseList(ParseColumnReference, old(Remaining())))
    {
      hide Remaining, Valid;
      ghost var ts := Remaining();
      var first := ParseColumn();
      if first.ParseError? {
        return Fail();
      }
      var columns := [first.value];
      var matched := Match(Comma);
      while matched
        invariant Valid()
        invariant matched ==>
          ParseList(ParseColumnReference, ts) == ListAfter(ParseColumnReference, columns, Remaining())
        invariant !matched ==> ParseList(ParseColumnReference, ts) == Parsed(columns, Remaining())
        decreases |Remaining()|, matched
      {
        var column := ParseColumn();
        if column.ParseError? {
          return Fail();
        }
        columns := columns + [column.value];
        matched := Match(Comma);
      }
      return ParseOk(columns);
    }

    method ParseDefinitions() returns (r: ParseResult<seq<ColumnDefinition>>)
      requires Valid()
      modifies this, lexer
      ensures Shrinks(ParseColumnDefinition) && Agrees(r, ParseList(ParseColumnDefinition, old(Remaining())))
    {
      hide Remaining, Valid;
      ghost var ts := Remaining();
      var first := ParseDefinition();
      if first.ParseError? {
        return Fail();
      }
      var definitions := [first.value];
      var matched := Match(Comma);
      while matched
        invariant Valid()
        invariant matched ==>
          ParseList(ParseColumnDefinition, ts) == ListAfter(ParseColumnDefinition, definitions, Remaining())
        invariant !matched ==> ParseList(ParseColumnDefinition, ts) == Parsed(definitions, Remaining())
        decreases |Remaining()|, matched
      {
        var definition := ParseDefinition();
        if definition.ParseError? {
          return Fail();
        }
        definitions := definitions + [definition.value];
        matched := Match(Comma);
      }
      return ParseOk(definitions);
    }

    method ParseValues() returns (r: ParseResult<seq<Expression>>)
      requires Valid()
      modifies this, lexer
      ensures Shrinks(ParsePrimary) && Agrees(r, ParseList(ParsePrimary, old(Remaining())))
    {
      hide Remaining, Valid;
      ghost var ts := Remaining();
      var first := ParsePrimaryExpression();
      if first.ParseError? {
        return Fail();
      }
      var values := [first.value];
      var matched := Match(Comma);
      while matched
        invariant Valid()
        invariant matched ==> ParseList(ParsePrimary, ts) == ListAfter(ParsePrimary, values, Remaining())
        invariant !matched ==> ParseList(ParsePrimary, ts) == Parsed(values, Remaining())
        decreases |Remaining()|, matched
      {
        var value := ParsePrimaryExpression();
        if value.ParseError? {
          return Fail();
        }
        values := values + [value.value];
        matched := Match(Comma);
      }
      return ParseOk(values);
    }

    /** `ListTail` once the comma has been consumed. */
    ghost function ListAfter<T(!new)>(item: ItemParser<T>, items: seq<T>, ts: seq<Symbol>): Parsed<seq<T>>
      requires Shrinks(item)
    {
      match item(ts)
      case Stuck(rest) => Stuck(rest)
      case Parsed(x, rest) => ListTail(item, items + [x], rest)
    }

    // ----- statements -----

    method FinishStatement(statement: Statement) returns (r: ParseResult<Statement>)
      requires Valid()
      modifies this, lexer
      ensures Agrees(r, Finish(statement, old(Remaining())))
    {
      hide Remaining, Valid;
      var terminated := Match(Semicolon);
      if !terminated && !Check(EndOfFile) {
        return Fail();
      }
      if !Check(EndOfFile) {
        return Fail();
      }
      return ParseOk(statement);
    }

    method ParseSelectStatement() returns (r: ParseResult<Statement>)
      requires Valid() && Check(TokenKind.Select)
      modifies this, lexer
      ensures Agrees(r, ParseStatement(old(Remaining())))
    {
      hide Remaining, Valid, ParseList, Finish, ParseFrom;
      var _ := Match(TokenKind.Select);
      var star := Match(Star);
      if star {
        r := ParseFromClause(true, []);
        return;
      }
      var columns := ParseColumns();
      if columns.ParseError? {
        return Fail();
      }
      r := ParseFromClause(false, columns.value);
    }

    method ParseFromClause(selectAll: bool, columns: seq<Expression>) returns (r: ParseResult<Statement>)
      requires Valid()
      modifies this, lexer
      ensures Agrees(r, ParseFrom(selectAll, columns, old(Remaining())))
    {
      hide Remaining, Valid, ParseTableReference, ParseOr, Finish;
      var from := Match(From);
      if !from {
        return Fail();
      }
      var table := ParseTable();
      if table.ParseError? {
        return Fail();
      }
      var filtered := Match(Where);
      if !filtered {
        r := FinishStatement(Statement.Select(selectAll, columns, table.value, None));
        return;
      }
      var condition := ParseOrExpression();
      if condition.ParseError? {
        return Fail();
      }
      r := FinishStatement(Statement.Select(selectAll, columns, table.value, Some(condition.value)));
    }

    method ParseCreateStatement() returns (r: ParseResult<Statement>)
      requires Valid() && Check(TokenKind.Create)
      modifies this, lexer
      ensures Agrees(r, ParseStatement(old(Remaining())))
    {
      hide Remaining, Valid, ParseCreate;
      var _ := Match(TokenKind.Create);
      if Check(TokenKind.Database) {
        r := ParseCreateDatabaseStatement();
      } else if Check(TokenKind.Schema) {
        r := ParseCreateSchemaStatement();
      } else if Check(TokenKind.Table) {
        r := ParseCreateTableStatement();
      } else {
        CreateNeedsObject(Remaining());
        return Fail();
      }
    }

    lemma CreateNeedsObject(ts: seq<Symbol>)
      requires Kind(ts) != TokenKind.Database && Kind(ts) != TokenKind.Schema && Kind(ts) != TokenKind.Table
      ensures ParseCreate(ts) == Stuck(ts)
    {
    }

    method ParseCreateDatabaseStatement() returns (r: ParseResult<Statement>)
      requires Valid() && Check(TokenKind.Database)
      modifies this, lexer
      ensures Agrees(r, ParseCreate(old(Remaining())))
    {
      hide Remaining, Valid, ParseCreateTable, Finish;
      var _ := Match(TokenKind.Database);
      var name := ParseIdentifier();
      if name.ParseError? {
        return Fail();
      }
      r := FinishStatement(CreateDatabase(name.value));
    }

    method ParseCreateSchemaStatement() returns (r: ParseResult<Statement>)
      requires Valid() && Check(TokenKind.Schema)
      modifies this, lexer
      ensures Agrees(r, ParseCreate(old(Remaining())))
    {
      hide Remaining, Valid, ParseCreateTable, Finish;
      var _ := Match(TokenKind.Schema);
      var name := ParseIdentifier();
      if name.ParseError? {
        return Fail();
      }
      r := FinishStatement(CreateSchema(name.value));
    }

    method ParseCreateTableStatement() returns (r: ParseResult<Statement>)
      requires Valid() && Check(TokenKind.Table)
      modifies this, lexer
      ensures Agrees(r, ParseCreate(old(Remaining())))
    {
      hide Remaining, Valid, ParseTableReference, ParseList, Finish;
      var _ := Match(TokenKind.Table);
      var table := ParseTable();
      if table.ParseError? {
        return Fail();
      }
      var matched := Match(LParen);
      if !matched {
        return Fail();
      }
      var definitions := ParseDefinitions();
      if definitions.ParseError? {
        return Fail();
      }
      matched := Match(RParen);
      if !matched {
        return Fail();
      }
      r := FinishStatement(CreateTable(table.value, definitions.value));
    }

    method ParseInsertStatement() returns (r: ParseResult<Statement>)
      requires Valid() && Check(TokenKind.Insert)
      modifies this, lexer
      ensures Agrees(r, ParseStatement(old(Remaining())))
    {
      hide Remaining, Valid, ParseTableReference, ParseValueClause;
      var _ := Match(TokenKind.Insert);
      var matched := Match(Into);
      if !matched {
        return Fail();
      }
      var table := ParseTable();
      if table.ParseError? {
        return Fail();
      }
      r := ParseInsertedValues(table.value);
    }

    method ParseInsertedValues(table: TableReference) returns (r: ParseResult<Statement>)
      requires Valid()
      modifies this, lexer
      ensures Agrees(r, ParseValueClause(table, old(Remaining())))
    {
      hide Remaining, Valid, ParseList, Finish;
      var matched := Match(TokenKind.Values);
      if !matched {
        return Fail();
      }
      matched := Match(LParen);
      if !matched {
        return Fail();
      }
      var values := ParseValues();
      if values.ParseError? {
        return Fail();
      }
      matched := Match(RParen);
      if !matched {
        return Fail();
      }
      r := FinishStatement(Statement.Insert(table, values.value));
    }

    method ParseOneStatement() returns (r: ParseResult<Statement>)
      requires Valid()
      modifies this, lexer
      ensures Agrees(r, ParseStatement(old(Remaining())))
    {
      hide Remaining, Valid, ParseSelect, ParseCreate, ParseInsert;
      if Check(TokenKind.Select) {
        r := ParseSelectStatement();
      } else if Check(TokenKind.Create) {
        r := ParseCreateStatement();
      } else if Check(TokenKind.Insert) {
        r := ParseInsertStatement();
      } else {
        return Fail();
      }
    }
  }
}
