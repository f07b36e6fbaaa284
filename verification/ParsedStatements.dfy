/** What parsing a text can return: only statements that have a text of their own. */
module ParsedStatements {
  import opened Prelude
  import opened Ast
  import opened Values
  import opened Tokens
  import opened ParserSpec
  import opened Grammar
  import opened StatementGrammar
  import opened LexerTheorems
  import opened Rendering
  import opened Spellings
  import opened Printing
  import opened CanonicalText

  /** A symbol the lexer can produce. */
  predicate Lexable(symbol: Symbol) {
    && symbol.kind != EndOfFile
    && (!CarriesText(symbol.kind) ==> symbol.text == "")
    && (symbol.kind == Identifier ==> IsName(symbol.text))
    && (symbol.kind == TokenKind.StringLiteral ==> IsQuotedLiteral(symbol.text))
  }

  predicate AllLexable(ts: seq<Symbol>) {
    forall i | 0 <= i < |ts| :: Lexable(ts[i])
  }

  /** An identifier token is an identifier wherever it stands. */
  lemma LexedName(input: string, pos: nat)
    requires pos < |input| && ScanToken(input, pos).kind == Identifier
    ensures IsName(input[pos..ScanToken(input, pos).end])
  {
    hide ScanPunctuation, StringEnd;
    var end := ScanToken(input, pos).end;
    var name := input[pos..end];
    assert IsIdentifierStart(input[pos]) by {
      PunctuationIsNoName(input, pos);
    }
    RunIsMaximal(input, pos, IsIdentifierContinue);
    assert forall i | 0 <= i < |name| :: name[i] == input[pos + i];
    NameShapedLexeme(name);
  }

  lemma PunctuationIsNoName(input: string, pos: nat)
    requires pos < |input|
    ensures !CarriesText(ScanPunctuation(input, pos).kind)
  {
  }

  lemma {:induction false} SymbolsLexable(input: string, pos: nat)
    requires pos <= |input|
    ensures AllLexable(Symbols(input, pos))
    decreases |input| - pos
  {
    hide ScanToken, IsName;
    var l := NextLexed(input, pos);
    if l.kind != EndOfFile {
      if l.kind == Identifier {
        LexedName(input, l.start);
      } else if l.kind == TokenKind.StringLiteral {
        LexedLiteral(input, l.start);
      }
      SymbolsLexable(input, l.end);
    }
  }

  lemma LexableErased(ts: seq<Symbol>)
    requires AllLexable(ts)
    ensures Erased(ts)
  {
  }

  lemma LexableParts(a: seq<Symbol>, b: seq<Symbol>)
    requires AllLexable(a + b)
    ensures AllLexable(a) && AllLexable(b)
  {
    hide Lexable;
    assert forall i | 0 <= i < |a| :: (a + b)[i] == a[i];
    assert forall i | 0 <= i < |b| :: (a + b)[|a| + i] == b[i];
  }

  // ----- the leaves of a derivation are its symbols -----

  lemma {:induction false} OrWritable(d: OrD)
    requires OrOk(d) && AllLexable(OrYield(d))
    ensures Writable(OrTree(d))
    decreases d
  {
    hide AllLexable, AndYield, AndTree, AndOk;
    match d
    case OrBase(only) => AndWritable(only);
    case OrStep(front, last) =>
      LexableParts(OrYield(front) + [Grammar.Keyword(TokenKind.Or)], AndYield(last));
      LexableParts(OrYield(front), [Grammar.Keyword(TokenKind.Or)]);
      OrWritable(front);
      AndWritable(last);
  }

  lemma {:induction false} AndWritable(d: AndD)
    requires AndOk(d) && AllLexable(AndYield(d))
    ensures Writable(AndTree(d))
    decreases d
  {
    hide AllLexable, ComparisonYield, ComparisonTree, ComparisonOk;
    match d
    case AndBase(only) => ComparisonWritable(only);
    case AndStep(front, last) =>
      LexableParts(AndYield(front) + [Grammar.Keyword(TokenKind.And)], ComparisonYield(last));
      LexableParts(AndYield(front), [Grammar.Keyword(TokenKind.And)]);
      AndWritable(front);
      ComparisonWritable(last);
  }

  lemma {:induction false} ComparisonWritable(d: ComparisonD)
    requires ComparisonOk(d) && AllLexable(ComparisonYield(d))
    ensures Writable(ComparisonTree(d))
    decreases d
  {
    hide AllLexable, PrimaryYield, PrimaryTree, PrimaryOk;
    match d
    case Operand(only) => PrimaryWritable(only);
    case Compare(left, op, right) =>
      LexableParts(PrimaryYield(left) + [Grammar.Keyword(OperatorKind(op))], PrimaryYield(right));
      LexableParts(PrimaryYield(left), [Grammar.Keyword(OperatorKind(op))]);
      PrimaryWritable(left);
      PrimaryWritable(right);
  }

  lemma {:induction false} PrimaryWritable(d: PrimaryD)
    requires PrimaryOk(d) && AllLexable(PrimaryYield(d))
    ensures Writable(PrimaryTree(d))
    decreases d
  {
    hide OrYield, OrTree, OrOk, IsName;
    assert d.Parenthesized? || Lexable(PrimaryYield(d)[0]);
    match d
    case Parenthesized(inner) =>
      LexableParts([Grammar.Keyword(LParen)] + OrYield(inner), [Grammar.Keyword(RParen)]);
      LexableParts([Grammar.Keyword(LParen)], OrYield(inner));
      OrWritable(inner);
    case _ =>
  }

  lemma NamedParts(name: string, after: seq<Symbol>)
    requires AllLexable(Named(name, after))
    ensures IsName(name) && AllLexable(after)
  {
    hide IsName;
    assert Lexable(Named(name, after)[0]);
    LexableParts([Symbol(Identifier, name)], after);
  }

  lemma ThenParts(kind: TokenKind, after: seq<Symbol>)
    requires AllLexable(Then(kind, after))
    ensures AllLexable(after)
  {
    LexableParts([Grammar.Keyword(kind)], after);
  }

  lemma TableParts(t: TableD, after: seq<Symbol>)
    requires AllLexable(TableYield(t, after))
    ensures WritableTable(TableTree(t)) && AllLexable(after)
  {
    hide AllLexable, IsName, Named, Then;
    match t
    case Unqualified(name) => NamedParts(name, after);
    case Qualified(schema, name) =>
      NamedParts(schema, Then(Dot, Named(name, after)));
      ThenParts(Dot, Named(name, after));
      NamedParts(name, after);
  }

  lemma {:induction false} CommaParts(items: seq<seq<Symbol>>)
    requires items != [] && AllLexable(CommaYield(items))
    ensures forall i | 0 <= i < |items| :: AllLexable(items[i])
    decreases |items|
  {
    hide AllLexable;
    var last := |items| - 1;
    if last != 0 {
      LexableParts(CommaYield(items[..last]) + [Grammar.Keyword(Comma)], items[last]);
      LexableParts(CommaYield(items[..last]), [Grammar.Keyword(Comma)]);
      CommaParts(items[..last]);
    }
  }

  lemma ListParts(items: seq<seq<Symbol>>, after: seq<Symbol>)
    requires items != [] && AllLexable(ListYield(items, after))
    ensures forall i | 0 <= i < |items| :: AllLexable(items[i])
  {
    hide AllLexable, Then, CommaYield;
    ThenParts(LParen, CommaYield(items) + Then(RParen, after));
    LexableParts(CommaYield(items), Then(RParen, after));
    CommaParts(items);
  }

  lemma FromParts(t: TableD, condition: Option<OrD>, after: seq<Symbol>)
    requires ConditionOk(condition) && AllLexable(FromYield(t, condition, after))
    ensures WritableTable(TableTree(t))
    ensures condition.Some? ==> Writable(OrTree(condition.value))
  {
    hide AllLexable, Then, TableYield, OrYield, OrTree, OrOk, TableTree, WritableTable;
    ThenParts(From, TableYield(t, ConditionYield(condition, after)));
    TableParts(t, ConditionYield(condition, after));
    if condition.Some? {
      ThenParts(Where, OrYield(condition.value) + after);
      LexableParts(OrYield(condition.value), after);
      OrWritable(condition.value);
    }
  }

  lemma SelectWritable(d: BodyD, after: seq<Symbol>)
    requires BodyOk(d) && (d.SelectD? || d.SelectAllD?) && AllLexable(BodyYield(d, after))
    ensures WritableStatement(StatementTree(d))
  {
    hide AllLexable, Then, CommaYield, FromYield, IsName, WritableTable, OrTree, OrOk;
    match d
    case SelectAllD(t, condition) =>
      ThenParts(TokenKind.Select, Then(Star, FromYield(t, condition, after)));
      ThenParts(Star, FromYield(t, condition, after));
      FromParts(t, condition, after);
    case SelectD(names, t, condition) =>
      ThenParts(TokenKind.Select, CommaYield(NameYields(names)) + FromYield(t, condition, after));
      LexableParts(CommaYield(NameYields(names)), FromYield(t, condition, after));
      FromParts(t, condition, after);
      CommaParts(NameYields(names));
      forall i | 0 <= i < |names| ensures IsName(names[i]) {
        assert AllLexable(NameYields(names)[i]);
        NamedParts(names[i], []);
      }
  }

  lemma DefinitionParts(definitions: seq<ColumnDefinition>, after: seq<Symbol>)
    requires definitions != [] && AllLexable(ListYield(DefinitionYields(definitions), after))
    ensures forall i | 0 <= i < |definitions| :: IsName(definitions[i].name)
  {
    hide AllLexable, Then, Named, ListYield, IsName;
    ListParts(DefinitionYields(definitions), after);
    forall i | 0 <= i < |definitions| ensures IsName(definitions[i].name) {
      assert AllLexable(DefinitionYields(definitions)[i]);
      NamedParts(definitions[i].name, Then(TypeKind(definitions[i].columnType), []));
    }
  }

  lemma CreateWritable(d: BodyD, after: seq<Symbol>)
    requires BodyOk(d) && (d.CreateTableD? || d.CreateSchemaD? || d.CreateDatabaseD?)
    requires AllLexable(BodyYield(d, after))
    ensures WritableStatement(StatementTree(d))
  {
    hide AllLexable, Then, Named, ListYield, TableYield, TableTree, IsName, WritableTable, DefinitionYields;
    hide FromYield, CommaYield, NameYields, ValueYields, ConditionTree, NameTrees, ValueTrees, Writable, PrimaryOk;
    match d
    case CreateTableD(t, definitions) => CreateTableWritable(t, definitions, after);
    case CreateSchemaD(name) => CreateNameWritable(TokenKind.Schema, name, after);
    case CreateDatabaseD(name) => CreateNameWritable(TokenKind.Database, name, after);
  }

  lemma CreateTableWritable(t: TableD, definitions: seq<ColumnDefinition>, after: seq<Symbol>)
    requires definitions != []
    requires var body := TableYield(t, ListYield(DefinitionYields(definitions), after));
      AllLexable(Then(TokenKind.Create, Then(TokenKind.Table, body)))
    ensures WritableTable(TableTree(t)) && forall i | 0 <= i < |definitions| :: IsName(definitions[i].name)
  {
    hide AllLexable, Then, ListYield, TableYield, TableTree, IsName, WritableTable;
    var list := ListYield(DefinitionYields(definitions), after);
    CreateParts(TokenKind.Table, TableYield(t, list));
    TableParts(t, list);
    DefinitionParts(definitions, after);
  }

  lemma CreateNameWritable(kind: TokenKind, name: string, after: seq<Symbol>)
    requires AllLexable(Then(TokenKind.Create, Then(kind, Named(name, after))))
    ensures IsName(name)
  {
    hide AllLexable, Then, Named, IsName;
    CreateParts(kind, Named(name, after));
    NamedParts(name, after);
  }

  lemma CreateParts(kind: TokenKind, after: seq<Symbol>)
    requires AllLexable(Then(TokenKind.Create, Then(kind, after)))
    ensures AllLexable(after)
  {
    hide AllLexable, Then;
    ThenParts(TokenKind.Create, Then(kind, after));
    ThenParts(kind, after);
  }

  lemma InsertWritable(d: BodyD, after: seq<Symbol>)
    requires BodyOk(d) && d.InsertD? && AllLexable(BodyYield(d, after))
    ensures WritableStatement(StatementTree(d))
  {
    hide AllLexable, Then, ListYield, TableYield, WritableTable, Writable, PrimaryOk, PrimaryYield, PrimaryTree;
    var t, values := d.table, d.values;
    var list := ListYield(ValueYields(values), after);
    ThenParts(TokenKind.Insert, Then(Into, TableYield(t, Then(TokenKind.Values, list))));
    ThenParts(Into, TableYield(t, Then(TokenKind.Values, list)));
    TableParts(t, Then(TokenKind.Values, list));
    ThenParts(TokenKind.Values, list);
    ListParts(ValueYields(values), after);
    forall i | 0 <= i < |values| ensures Writable(PrimaryTree(values[i])) {
      assert AllLexable(ValueYields(values)[i]);
      PrimaryWritable(values[i]);
    }
  }

  /**
   * Whatever text is read as a statement, that statement has a text of its own, which is read as
   * the same statement; and nothing of the input is left unread.
   */
  lemma ParsedStatementPrints(input: string)
    requires ParseStatement(Symbols(input, 0)).Parsed?
    ensures var s := ParseStatement(Symbols(input, 0)).value;
      && WritableStatement(s)
      && ParseStatement(Symbols(input, 0)) == Parsed(s, [])
      && ParseStatement(Symbols(CanonicalText.Text(s), 0)) == Parsed(s, [])
  {
    hide ParseStatement, Symbols, AllLexable, Erased, BodyYield, StatementTree, WritableStatement, BodyOk, EndYield;
    var ts := Symbols(input, 0);
    SymbolsLexable(input, 0);
    LexableErased(ts);
    var d := StatementSound(ts);
    if d.body.SelectAllD? || d.body.SelectD? {
      SelectWritable(d.body, EndYield(d.semicolon));
    } else if d.body.InsertD? {
      InsertWritable(d.body, EndYield(d.semicolon));
    } else {
      CreateWritable(d.body, EndYield(d.semicolon));
    }
    TextParses(StatementTree(d.body));
  }
}
