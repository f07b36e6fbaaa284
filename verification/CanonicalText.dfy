/** One text for every statement, written out word by word, and why it is read as that statement. */
module CanonicalText {
  import opened Prelude
  import opened Ast
  import opened Values
  import opened Tokens
  import opened Numbers
  import opened ParserSpec
  import opened Grammar
  import opened StatementGrammar
  import opened LexerTheorems
  import opened Rendering
  import opened Spellings
  import opened Printing

  // ----- the words of a statement -----

  function OperatorWord(op: BinaryOperator): string {
    match op
    case Equal => "="
    case NotEqual => "<>"
    case Less => "<"
    case LessEqual => "<="
    case Greater => ">"
    case GreaterEqual => ">="
    case And => "and"
    case Or => "or"
  }

  function OrWords(e: Expression): seq<string>
    requires Printable(e)
    decreases e, Level(e)
  {
    if e.Binary? && e.op == BinaryOperator.Or then OrWords(e.left) + ["or"] + AndWords(e.right) else AndWords(e)
  }

  function AndWords(e: Expression): seq<string>
    requires Printable(e)
    decreases e, (Level(e) - 1) % 4
  {
    if e.Binary? && e.op == BinaryOperator.And then AndWords(e.left) + ["and"] + ComparisonWords(e.right)
    else ComparisonWords(e)
  }

  function ComparisonWords(e: Expression): seq<string>
    requires Printable(e)
    decreases e, (Level(e) - 2) % 4
  {
    if e.Binary? && IsComparison(e.op) then PrimaryWords(e.left) + [OperatorWord(e.op)] + PrimaryWords(e.right)
    else PrimaryWords(e)
  }

  function PrimaryWords(e: Expression): seq<string>
    requires Printable(e)
    decreases e, (Level(e) - 3) % 4
  {
    match e
    case ColumnRef(name) => [name]
    case IntegerLiteral(n) => [Decimal(n)]
    case StringLiteral(lexeme) => [lexeme]
    case Binary(_, _, _) => ["("] + OrWords(e) + [")"]
  }

  function TableWords(t: TableReference): seq<string> {
    if t.schema == "" then [t.table] else [t.schema, ".", t.table]
  }

  function TypeWord(columnType: LogicalType): string {
    match columnType
    case IntType => "int"
    case TextType => "text"
  }

  function CommaWords(items: seq<seq<string>>): seq<string>
    requires items != []
  {
    var last := |items| - 1;
    if last == 0 then items[0] else CommaWords(items[..last]) + [","] + items[last]
  }

  function NameWords(columns: seq<Expression>): seq<seq<string>> {
    seq(|columns|, i requires 0 <= i < |columns| => if columns[i].ColumnRef? then [columns[i].name] else [])
  }

  function DefinitionWords(definitions: seq<ColumnDefinition>): seq<seq<string>> {
    seq(|definitions|, i requires 0 <= i < |definitions| => [definitions[i].name, TypeWord(definitions[i].columnType)])
  }

  function ValueWords(values: seq<Expression>): seq<seq<string>>
    requires forall i | 0 <= i < |values| :: Writable(values[i])
  {
    seq(|values|, i requires 0 <= i < |values| =>
      WritablePrintable(values[i]);
      PrimaryWords(values[i]))
  }

  function FromWords(t: TableReference, condition: Option<Expression>): seq<string>
    requires condition.Some? ==> Writable(condition.value)
  {
    ["from"] + TableWords(t)
      + match condition
        case None => []
        case Some(e) =>
          WritablePrintable(e);
          ["where"] + OrWords(e)
  }

  function StatementWords(s: Statement): seq<string>
    requires WritableStatement(s)
  {
    match s
    case Select(selectAll, columns, t, condition) =>
      ["select"] + (if selectAll then ["*"] else CommaWords(NameWords(columns))) + FromWords(t, condition) + [";"]
    case CreateTable(t, definitions) =>
      ["create", "table"] + TableWords(t) + ["("] + CommaWords(DefinitionWords(definitions)) + [")", ";"]
    case CreateSchema(name) => ["create", "schema", name, ";"]
    case CreateDatabase(name) => ["create", "database", name, ";"]
    case Insert(t, values) =>
      ["insert", "into"] + TableWords(t) + ["values", "("] + CommaWords(ValueWords(values)) + [")", ";"]
  }

  /** The words, each after a space. */
  function Sentence(words: seq<string>): string {
    if words == [] then "" else " " + words[0] + Sentence(words[1..])
  }

  function Text(s: Statement): string
    requires WritableStatement(s)
  {
    Sentence(StatementWords(s))
  }

  // ----- the words spell the symbols of the printed statement -----

  lemma SpellAppend(a: seq<string>, x: seq<Symbol>, b: seq<string>, y: seq<Symbol>)
    requires Spell(a, x) && Spell(b, y)
    ensures Spell(a + b, x + y)
  {
    hide IsLexeme;
  }

  lemma SpellOne(word: string, symbol: Symbol)
    requires IsLexeme(word, symbol)
    ensures Spell([word], [symbol])
  {
    hide IsLexeme;
  }

  lemma WordSpells(k: nat)
    requires k < |WORDS|
    ensures Spell([WORDS[k].text], [Grammar.Keyword(WORDS[k].kind)])
  {
    hide IsLexeme;
    WordLexeme(k, WORDS[k].text);
  }

  lemma MarkSpells(k: nat)
    requires k < |MARKS|
    ensures Spell([MARKS[k].text], [Grammar.Keyword(MARKS[k].kind)])
  {
    hide ScanToken;
    LongestMark(MARKS[k].text, k);
    MarkKinds(k);
  }

  lemma MarkKinds(k: nat)
    requires k < |MARKS|
    ensures MARKS[k].text != "" && !CarriesText(MARKS[k].kind) && MARKS[k].kind != Invalid
  {
  }

  lemma OperatorSpells(op: BinaryOperator)
    ensures Spell([OperatorWord(op)], [Grammar.Keyword(OperatorKind(op))])
  {
    hide Spell;
    match op
    case Equal => MarkSpells(6);
    case NotEqual => MarkSpells(7);
    case Less => MarkSpells(9);
    case LessEqual => MarkSpells(10);
    case Greater => MarkSpells(11);
    case GreaterEqual => MarkSpells(12);
    case And => WordSpells(12);
    case Or => WordSpells(13);
  }

  lemma InfixSpells(a: seq<string>, x: seq<Symbol>, op: BinaryOperator, b: seq<string>, y: seq<Symbol>)
    requires Spell(a, x) && Spell(b, y)
    ensures Spell(a + [OperatorWord(op)] + b, x + [Grammar.Keyword(OperatorKind(op))] + y)
  {
    hide Spell, OperatorWord, OperatorKind;
    OperatorSpells(op);
    SpellAppend(a, x, [OperatorWord(op)], [Grammar.Keyword(OperatorKind(op))]);
    SpellAppend(a + [OperatorWord(op)], x + [Grammar.Keyword(OperatorKind(op))], b, y);
  }

  lemma {:induction false} OrSpells(e: Expression)
    requires Writable(e) && Printable(e)
    ensures Spell(OrWords(e), OrYield(PrintOr(e)))
    decreases e, Level(e)
  {
    hide Spell, PrintAnd, AndYield, AndWords, IsName, IsQuotedLiteral;
    if Level(e) == 0 {
      OrSpells(e.left);
      AndSpells(e.right);
      InfixSpells(OrWords(e.left), OrYield(PrintOr(e.left)), e.op, AndWords(e.right), AndYield(PrintAnd(e.right)));
    } else {
      AndSpells(e);
    }
  }

  lemma {:induction false} AndSpells(e: Expression)
    requires Writable(e) && Printable(e)
    ensures Spell(AndWords(e), AndYield(PrintAnd(e)))
    decreases e, (Level(e) - 1) % 4
  {
    hide Spell, PrintComparison, ComparisonYield, ComparisonWords, IsName, IsQuotedLiteral;
    if Level(e) == 1 {
      AndSpells(e.left);
      ComparisonSpells(e.right);
      InfixSpells(AndWords(e.left), AndYield(PrintAnd(e.left)), e.op,
        ComparisonWords(e.right), ComparisonYield(PrintComparison(e.right)));
    } else {
      ComparisonSpells(e);
    }
  }

  lemma {:induction false} ComparisonSpells(e: Expression)
    requires Writable(e) && Printable(e)
    ensures Spell(ComparisonWords(e), ComparisonYield(PrintComparison(e)))
    decreases e, (Level(e) - 2) % 4
  {
    hide Spell, PrintPrimary, PrimaryYield, PrimaryWords, OperatorKind, OperatorWord, IsName, IsQuotedLiteral;
    if Level(e) == 2 {
      PrimarySpells(e.left);
      PrimarySpells(e.right);
      InfixSpells(PrimaryWords(e.left), PrimaryYield(PrintPrimary(e.left)), e.op,
        PrimaryWords(e.right), PrimaryYield(PrintPrimary(e.right)));
    } else {
      PrimarySpells(e);
    }
  }

  lemma {:induction false} PrimarySpells(e: Expression)
    requires Writable(e) && Printable(e)
    ensures Spell(PrimaryWords(e), PrimaryYield(PrintPrimary(e)))
    decreases e, (Level(e) - 3) % 4
  {
    hide ScanToken, PrintOr, OrYield, OrWords;
    match e
    case ColumnRef(name) =>
    case IntegerLiteral(n) => NumberIff(Decimal(n));
    case StringLiteral(lexeme) => LiteralIsLexeme(lexeme);
    case Binary(_, _, _) =>
      OrSpells(e);
      ParenthesesSpell(OrWords(e), OrYield(PrintOr(e)));
  }

  lemma ParenthesesSpell(inner: seq<string>, symbols: seq<Symbol>)
    requires Spell(inner, symbols)
    ensures Spell(["("] + inner + [")"], [Grammar.Keyword(LParen)] + symbols + [Grammar.Keyword(RParen)])
  {
    hide Spell;
    MarkSpells(3);
    MarkSpells(4);
    SpellAppend(["("], [Grammar.Keyword(LParen)], inner, symbols);
    SpellAppend(["("] + inner, [Grammar.Keyword(LParen)] + symbols, [")"], [Grammar.Keyword(RParen)]);
  }

  // Like the sentences of statements, their words are spelled with what follows them.

  lemma WordThen(k: nat, after: seq<string>, symbols: seq<Symbol>)
    requires k < |WORDS| && Spell(after, symbols)
    ensures Spell([WORDS[k].text] + after, Then(WORDS[k].kind, symbols))
  {
    hide Spell;
    WordSpells(k);
    SpellAppend([WORDS[k].text], [Grammar.Keyword(WORDS[k].kind)], after, symbols);
  }

  lemma MarkThen(k: nat, after: seq<string>, symbols: seq<Symbol>)
    requires k < |MARKS| && Spell(after, symbols)
    ensures Spell([MARKS[k].text] + after, Then(MARKS[k].kind, symbols))
  {
    hide Spell;
    MarkSpells(k);
    SpellAppend([MARKS[k].text], [Grammar.Keyword(MARKS[k].kind)], after, symbols);
  }

  lemma NameThen(name: string, after: seq<string>, symbols: seq<Symbol>)
    requires IsName(name) && Spell(after, symbols)
    ensures Spell([name] + after, Named(name, symbols))
  {
    SpellOne(name, Symbol(Identifier, name));
    hide Spell, IsLexeme;
    SpellAppend([name], [Symbol(Identifier, name)], after, symbols);
  }

  lemma TableSpells(t: TableReference, after: seq<string>, symbols: seq<Symbol>)
    requires WritableTable(t) && Spell(after, symbols)
    ensures Spell(TableWords(t) + after, TableYield(PrintTable(t), symbols))
  {
    hide Spell, IsName, Then, Named;
    NameThen(t.table, after, symbols);
    if t.schema == "" {
      assert TableWords(t) + after == [t.table] + after;
    } else {
      MarkThen(2, [t.table] + after, Named(t.table, symbols));
      NameThen(t.schema, ["."] + ([t.table] + after), Then(Dot, Named(t.table, symbols)));
      assert TableWords(t) + after == [t.schema] + (["."] + ([t.table] + after));
    }
  }

  lemma FromSpells(t: TableReference, condition: Option<Expression>, after: seq<string>, symbols: seq<Symbol>)
    requires WritableTable(t) && (condition.Some? ==> Writable(condition.value)) && Spell(after, symbols)
    ensures Spell(FromWords(t, condition) + after, FromYield(PrintTable(t), PrintCondition(condition), symbols))
  {
    hide Spell, WritableTable, TableWords, Then, TableYield, OrYield, PrintOr, OrWords, Writable;
    var rest, restSymbols := after, symbols;
    if condition.Some? {
      WritablePrintable(condition.value);
      OrSpells(condition.value);
      SpellAppend(OrWords(condition.value), OrYield(PrintOr(condition.value)), after, symbols);
      rest, restSymbols := OrWords(condition.value) + after, OrYield(PrintOr(condition.value)) + symbols;
      WordThen(2, rest, restSymbols);
      rest, restSymbols := ["where"] + rest, Then(Where, restSymbols);
    }
    TableSpells(t, rest, restSymbols);
    WordThen(1, TableWords(t) + rest, TableYield(PrintTable(t), restSymbols));
    assert FromWords(t, condition) + after == ["from"] + (TableWords(t) + rest);
  }

  lemma {:induction false} CommaSpells(items: seq<seq<string>>, symbols: seq<seq<Symbol>>)
    requires |items| == |symbols| && items != [] && forall i | 0 <= i < |items| :: Spell(items[i], symbols[i])
    ensures Spell(CommaWords(items), CommaYield(symbols))
    decreases |items|
  {
    hide Spell;
    var last := |items| - 1;
    if last != 0 {
      CommaSpells(items[..last], symbols[..last]);
      MarkSpells(0);
      SpellAppend(CommaWords(items[..last]), CommaYield(symbols[..last]), [","], [Grammar.Keyword(Comma)]);
      SpellAppend(CommaWords(items[..last]) + [","], CommaYield(symbols[..last]) + [Grammar.Keyword(Comma)],
        items[last], symbols[last]);
    }
  }

  lemma ListSpells(items: seq<seq<string>>, symbols: seq<seq<Symbol>>, after: seq<string>, rest: seq<Symbol>)
    requires |items| == |symbols| && items != [] && forall i | 0 <= i < |items| :: Spell(items[i], symbols[i])
    requires Spell(after, rest)
    ensures Spell(["("] + CommaWords(items) + [")"] + after, ListYield(symbols, rest))
  {
    hide Spell, Then, CommaYield, CommaWords;
    CommaSpells(items, symbols);
    MarkThen(4, after, rest);
    SpellAppend(CommaWords(items), CommaYield(symbols), [")"] + after, Then(RParen, rest));
    MarkThen(3, CommaWords(items) + ([")"] + after), CommaYield(symbols) + Then(RParen, rest));
    assert ["("] + CommaWords(items) + [")"] + after == ["("] + (CommaWords(items) + ([")"] + after));
  }

  // ----- statements -----

  lemma EndSpells()
    ensures Spell([";"], EndYield(true))
  {
    hide Spell, Then;
    NothingSpells();
    MarkThen(1, [], []);
    assert [";"] + [] == [";"];
  }

  lemma SelectSpells(s: Statement)
    requires WritableStatement(s) && s.Select? && BodyOk(PrintBody(s))
    ensures Spell(StatementWords(s), BodyYield(PrintBody(s), EndYield(true)))
  {
    hide Spell, IsName, Then, CommaYield, FromYield, CommaWords, FromWords, PrintTable, PrintCondition, EndYield;
    EndSpells();
    FromSpells(s.table, s.condition, [";"], EndYield(true));
    var words := FromWords(s.table, s.condition) + [";"];
    var from := FromYield(PrintTable(s.table), PrintCondition(s.condition), EndYield(true));
    if s.selectAll {
      MarkThen(5, words, from);
      WordThen(0, ["*"] + words, Then(Star, from));
      assert StatementWords(s) == ["select"] + (["*"] + words);
    } else {
      var names := PrintBody(s).names;
      NamesSpell(s.columns, names);
      CommaSpells(NameWords(s.columns), NameYields(names));
      SpellAppend(CommaWords(NameWords(s.columns)), CommaYield(NameYields(names)), words, from);
      WordThen(0, CommaWords(NameWords(s.columns)) + words, CommaYield(NameYields(names)) + from);
      assert StatementWords(s) == ["select"] + (CommaWords(NameWords(s.columns)) + words);
    }
  }

  lemma NamesSpell(columns: seq<Expression>, names: seq<string>)
    requires |columns| == |names|
    requires forall i | 0 <= i < |columns| :: columns[i] == ColumnRef(names[i]) && IsName(names[i])
    ensures forall i | 0 <= i < |columns| :: Spell(NameWords(columns)[i], NameYields(names)[i])
  {
    hide Spell, IsName, Named;
    forall i | 0 <= i < |columns| ensures Spell(NameWords(columns)[i], NameYields(names)[i]) {
      NothingSpells();
      assert columns[i] == ColumnRef(names[i]);
      NameThen(names[i], [], []);
      assert [names[i]] + [] == [names[i]];
    }
  }

  lemma NothingSpells()
    ensures Spell([], [])
  {
  }

  lemma CreateTableSpells(t: TableReference, definitions: seq<ColumnDefinition>)
    requires WritableStatement(CreateTable(t, definitions))
    ensures Spell(StatementWords(CreateTable(t, definitions)),
      BodyYield(CreateTableD(PrintTable(t), definitions), EndYield(true)))
  {
    hide Spell, IsName, Then, ListYield, TableYield, TableWords, CommaWords, PrintTable, WritableTable;
    hide DefinitionYields, DefinitionWords, EndYield;
    EndSpells();
    DefinitionsSpell(definitions);
    ListSpells(DefinitionWords(definitions), DefinitionYields(definitions), [";"], EndYield(true));
    var words := ["("] + CommaWords(DefinitionWords(definitions)) + [")"] + [";"];
    var list := ListYield(DefinitionYields(definitions), EndYield(true));
    TableSpells(t, words, list);
    WordThen(6, TableWords(t) + words, TableYield(PrintTable(t), list));
    WordThen(5, ["table"] + (TableWords(t) + words), Then(TokenKind.Table, TableYield(PrintTable(t), list)));
    assert StatementWords(CreateTable(t, definitions)) == ["create"] + (["table"] + (TableWords(t) + words));
  }

  lemma DefinitionsSpell(definitions: seq<ColumnDefinition>)
    requires forall i | 0 <= i < |definitions| :: IsName(definitions[i].name)
    ensures |DefinitionWords(definitions)| == |definitions|
    ensures forall i | 0 <= i < |definitions| ::
      Spell(DefinitionWords(definitions)[i], DefinitionYields(definitions)[i])
  {
    hide Spell, IsName, Named, Then;
    forall i | 0 <= i < |definitions|
      ensures Spell(DefinitionWords(definitions)[i], DefinitionYields(definitions)[i])
    {
      var d := definitions[i];
      NothingSpells();
      WordThen(if d.columnType == IntType then 10 else 11, [], []);
      NameThen(d.name, [TypeWord(d.columnType)] + [], Then(TypeKind(d.columnType), []));
      assert [d.name] + ([TypeWord(d.columnType)] + []) == [d.name, TypeWord(d.columnType)];
    }
  }

  lemma CreateNameSpells(k: nat, name: string)
    requires k < |WORDS| && IsName(name)
    ensures Spell(["create", WORDS[k].text, name, ";"],
      Then(TokenKind.Create, Then(WORDS[k].kind, Named(name, EndYield(true)))))
  {
    hide Spell, IsName, Then, Named, EndYield;
    EndSpells();
    NameThen(name, [";"], EndYield(true));
    WordThen(k, [name] + [";"], Named(name, EndYield(true)));
    WordThen(5, [WORDS[k].text] + ([name] + [";"]), Then(WORDS[k].kind, Named(name, EndYield(true))));
    assert ["create", WORDS[k].text, name, ";"] == ["create"] + ([WORDS[k].text] + ([name] + [";"]));
  }

  lemma InsertSpells(s: Statement)
    requires WritableStatement(s) && s.Insert? && BodyOk(PrintBody(s))
    ensures Spell(StatementWords(s), BodyYield(PrintBody(s), EndYield(true)))
  {
    hide Spell, Then, ListYield, TableYield, TableWords, CommaWords, PrintTable, WritableTable, PrimaryOk, Writable;
    hide EndYield, ValueYields, ValueWords;
    EndSpells();
    var values := PrintBody(s).values;
    ValuesSpell(s.values, values);
    ListSpells(ValueWords(s.values), ValueYields(values), [";"], EndYield(true));
    var words := ["("] + CommaWords(ValueWords(s.values)) + [")"] + [";"];
    var list := ListYield(ValueYields(values), EndYield(true));
    WordThen(9, words, list);
    var rest := Then(TokenKind.Values, list);
    TableSpells(s.table, ["values"] + words, rest);
    WordThen(4, TableWords(s.table) + (["values"] + words), TableYield(PrintTable(s.table), rest));
    WordThen(3, ["into"] + (TableWords(s.table) + (["values"] + words)),
      Then(Into, TableYield(PrintTable(s.table), rest)));
    assert StatementWords(s) == ["insert"] + (["into"] + (TableWords(s.table) + (["values"] + words)));
  }

  lemma ValuesSpell(values: seq<Expression>, printed: seq<PrimaryD>)
    requires |values| == |printed|
    requires forall i | 0 <= i < |values| :: Writable(values[i]) && printed[i] == PrintValue(values[i])
    ensures |ValueWords(values)| == |values|
    ensures forall i | 0 <= i < |values| :: Spell(ValueWords(values)[i], ValueYields(printed)[i])
  {
    hide Spell, PrimaryWords, PrimaryYield, PrintPrimary;
    forall i | 0 <= i < |values| ensures Spell(ValueWords(values)[i], ValueYields(printed)[i]) {
      WritablePrintable(values[i]);
      PrimarySpells(values[i]);
    }
  }

  lemma StatementSpells(s: Statement)
    requires WritableStatement(s)
    ensures BodyOk(PrintBody(s))
    ensures Spell(StatementWords(s), StatementYield(StatementD(PrintBody(s), true)))
  {
    hide Spell, EndYield, StatementWords, PrintBody, BodyYield, WritableStatement, BodyOk;
    PrintBodyTree(s);
    if s.Select? {
      SelectSpells(s);
    } else if s.Insert? {
      InsertSpells(s);
    } else {
      CreateSpells(s);
    }
  }

  lemma CreateSpells(s: Statement)
    requires WritableStatement(s) && !s.Select? && !s.Insert? && BodyOk(PrintBody(s))
    ensures Spell(StatementWords(s), BodyYield(PrintBody(s), EndYield(true)))
  {
    hide Spell, EndYield, Then, Named, IsName, WritableTable, TableYield, TableWords, ListYield, CommaWords, PrintTable;
    hide DefinitionYields, DefinitionWords, WORDS;
    match s
    case CreateTable(t, definitions) => CreateTableSpells(t, definitions);
    case CreateSchema(name) => CreateSchemaSpells(name);
    case CreateDatabase(name) => CreateDatabaseSpells(name);
  }

  lemma CreateSchemaSpells(name: string)
    requires IsName(name)
    ensures Spell(["create", "schema", name, ";"],
      Then(TokenKind.Create, Then(TokenKind.Schema, Named(name, EndYield(true)))))
  {
    hide Spell, IsName, Then, Named, EndYield;
    CreateNameSpells(7, name);
  }

  lemma CreateDatabaseSpells(name: string)
    requires IsName(name)
    ensures Spell(["create", "database", name, ";"],
      Then(TokenKind.Create, Then(TokenKind.Database, Named(name, EndYield(true)))))
  {
    hide Spell, IsName, Then, Named, EndYield;
    CreateNameSpells(8, name);
  }

  // ----- the text -----

  /** A space before every word, and nothing at the end. */
  function Spaces(n: nat): seq<string> {
    seq(n, i => " ") + [""]
  }

  lemma SpaceIsGap()
    ensures IsGap(" ", false) && IsGap("", true)
  {
    TailIsGap("", true);
    TailIsGap("", false);
    PrependPiece(" ", "", false);
    assert " " + "" == " ";
  }

  lemma {:induction false} SentenceRenders(words: seq<string>)
    requires forall i | 0 <= i < |words| :: words[i] != ""
    ensures Sentence(words) == Render(words, Spaces(|words|))
    ensures WellSpaced(words, Spaces(|words|))
    decreases |words|
  {
    hide IsGap;
    SpaceIsGap();
    if words != [] {
      assert Spaces(|words|)[1..] == Spaces(|words| - 1);
      SentenceRenders(words[1..]);
    }
  }

  /** Every statement has a text, and lexing and parsing that text gives the statement back. */
  lemma TextParses(s: Statement)
    requires WritableStatement(s)
    ensures ParseStatement(Symbols(Text(s), 0)) == Parsed(s, [])
  {
    hide WritableStatement, PrintBody, StatementYield, BodyOk, ParseStatement, WellSpaced, Render, Symbols;
    hide StatementWords, ScanToken, Sentence;
    StatementSpells(s);
    var words := StatementWords(s);
    SentenceRenders(words);
    TextRoundTrip(s, true, words, Spaces(|words|));
  }
}
