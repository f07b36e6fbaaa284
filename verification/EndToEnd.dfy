/** From SQL text to the rows of a result, over whole scripts. */
module EndToEnd {
  import opened Prelude
  import opened Ast
  import opened Values
  import opened Schema
  import opened TableStorages
  import opened RowGroups
  import opened TableLayout
  import opened ParserSpec
  import opened PredicateMeaning
  import opened CatalogModel
  import opened SelectMeaning
  import opened Engine
  import opened RunTheorems
  import Tokens
  import LexerTheorems
  import Printing
  import ParsedStatements
  import SyntaxErrors
  import CanonicalText

  /** `SELECT *` without a condition means the rows themselves. */
  lemma {:induction false} EverythingMeaning(rows: seq<Row>, schema: TableSchema)
    requires RowsValid(rows, schema) && WellFormedSchema(schema)
    ensures NamesKnown(ColumnNames(schema), schema)
    ensures Meaning(ColumnNames(schema), None, rows, schema) == rows
  {
    hide NamedValues, ColumnNames, WellFormedSchema;
    AllNamesKnown(schema);
    if rows != [] {
      var last := |rows| - 1;
      EverythingMeaning(rows[..last], schema);
      AllNamedValues(rows[last], schema);
    }
  }

  lemma AllNamesKnown(schema: TableSchema)
    requires WellFormedSchema(schema)
    ensures !HasDuplicates(schema) && NamesKnown(ColumnNames(schema), schema)
  {
    AllOrdinalsFound(schema);
  }

  /** The values of a row under all names, in order, are the row. */
  lemma AllNamedValues(row: Row, schema: TableSchema)
    requires ValidRow(row, schema) && WellFormedSchema(schema)
    ensures NamesKnown(ColumnNames(schema), schema) && NamedValues(ColumnNames(schema), row, schema) == row
  {
    hide NamedValues;
    AllOrdinalsFound(schema);
    ProjectionByName(AllOrdinals(schema), ColumnNames(schema), row, schema);
    assert ProjectRow(row, AllOrdinals(schema)) == row;
  }

  /**
   * A SELECT after any script returns the satisfying rows, by column name and in order, of a scan of
   * the rows the table had and the literal rows of the successful INSERTs into it.
   */
  lemma SelectAfterScript(script: seq<string>, s: Statement, w: World)
    requires WorldOk(w) && s.Select? && Bind(s, RunTheorems.Run(Steps(script), w)).Ok?
    ensures var later := RunTheorems.Run(Steps(script), w);
      var p := NamedPlace(s.table, later);
      && Exists(p, later)
      && var schema := TableAt(p, later).schema;
      var rows := RowsAt(p, w) + Inserted(p, Steps(script), w);
      var names := SelectedNames(s.selectAll, s.columns, schema);
      && RowsValid(rows, schema) && !HasDuplicates(schema) && NamesKnown(names, schema)
      && RunStatement(s, later) == (Ok(Rows(names, Meaning(names, s.condition, Scan(rows, schema), schema))), later)
  {
    hide RunStatement, Meaning, RunTheorems.Run, Inserted, Bind, Steps, SelectedNames, WorldOk, Scan;
    var later := RunTheorems.Run(Steps(script), w);
    RunTheorems.RunRows(NamedPlace(s.table, later), Steps(script), w);
    SelectScans(s, later);
  }

  /** What the run of a script leaves in the table `table` means then. */
  ghost function RowsLeft(script: seq<string>, table: TableReference, w: World): seq<Row>
    requires WorldOk(w)
  {
    var p := NamedPlace(table, RunTheorems.Run(Steps(script), w));
    RowsAt(p, w) + Inserted(p, Steps(script), w)
  }

  /** `SELECT *` after any script returns a scan of those rows. */
  lemma SelectStarScans(script: seq<string>, table: TableReference, w: World)
    requires WorldOk(w)
    requires var later := RunTheorems.Run(Steps(script), w); Exists(NamedPlace(table, later), later)
    ensures var later := RunTheorems.Run(Steps(script), w);
      var schema, rows := TableAt(NamedPlace(table, later), later).schema, RowsLeft(script, table, w);
      && RowsValid(rows, schema)
      && RunStatement(Select(true, [], table, None), later).0 == Ok(Rows(ColumnNames(schema), Scan(rows, schema)))
  {
    hide RunStatement, RunTheorems.Run, Inserted, Meaning, Steps, Scan;
    var later := RunTheorems.Run(Steps(script), w);
    var p := NamedPlace(table, later);
    assert TablesOk(CurrentDatabase(later)[p.schemaName]);
    SelectAfterScript(script, Select(true, [], table, None), w);
    EverythingMeaning(Scan(RowsLeft(script, table, w), TableAt(p, later).schema), TableAt(p, later).schema);
  }

  /**
   * So `SELECT *` after a script returns exactly the old rows and the inserted ones if every string of
   * every run is empty or within the 32-bit layout, for which it is enough that no text column of a run
   * has 2^32 bytes; and if not, a table with text of the same lengths is not returned as it is.
   */
  lemma SelectStarAfterScript(script: seq<string>, table: TableReference, w: World)
    requires WorldOk(w)
    requires var later := RunTheorems.Run(Steps(script), w); Exists(NamedPlace(table, later), later)
    ensures var later := RunTheorems.Run(Steps(script), w);
      var schema, rows := TableAt(NamedPlace(table, later), later).schema, RowsLeft(script, table, w);
      && (RunsAreSmall(rows, schema) ==> RowsReadable(rows, schema))
      && (RowsReadable(rows, schema) ==>
        RunStatement(Select(true, [], table, None), later).0 == Ok(Rows(ColumnNames(schema), rows)))
      && (!RowsReadable(rows, schema) ==>
        exists other :: SameTextLengths(rows, other, schema) && Scan(other, schema) != other)
  {
    hide RunStatement, RunTheorems.Run, RowsLeft, RowsReadable, Steps, Scan, SameTextLengths, RunsAreSmall, WorldOk;
    SelectStarScans(script, table, w);
    var later := RunTheorems.Run(Steps(script), w);
    var schema, rows := TableAt(NamedPlace(table, later), later).schema, RowsLeft(script, table, w);
    if RunsAreSmall(rows, schema) {
      SmallRunsReadable(rows, schema);
    }
    if RowsReadable(rows, schema) {
      ScanExact(rows, schema);
    } else {
      var other := ScanMisread(rows, schema);
    }
  }

  // ----- the sample session of the repository's README -----

  function SampleUsers(): TableSchema {
    SchemaOf(TableReference("", "users"), [ColumnDefinition("id", IntType), ColumnDefinition("name", TextType)])
  }

  function SampleCondition(): Expression {
    Binary(Greater, ColumnRef("id"), IntegerLiteral(1))
  }

  lemma SampleRow(id: Int64, name: string)
    ensures ValidRow([FromInt(id), FromText(name)], SampleUsers())
    ensures !HasDuplicates(SampleUsers()) && NamesKnown(["name"], SampleUsers())
    ensures Satisfies(Some(SampleCondition()), [FromInt(id), FromText(name)], SampleUsers()) <==> id > 1
    ensures NamedValues(["name"], [FromInt(id), FromText(name)], SampleUsers()) == [FromText(name)]
  {
    var users, row := SampleUsers(), [FromInt(id), FromText(name)];
    assert users.columns[0].name == "id" && users.columns[1].name == "name";
    assert "id"[0] != "name"[0];
    assert FindFirst(users.columns, "id") == Some(0) && FindFirst(users.columns, "name") == Some(1);
    hide NamedRow, FindFirst;
    FoundByName(users, row, "id");
    FoundByName(users, row, "name");
  }

  /** `SELECT name FROM users WHERE id > 1` returns one of the two rows inserted. */
  lemma SampleSession()
    ensures var rows := [[FromInt(1), FromText("Adura")], [FromInt(2), FromText("Abraham")]];
      && RowsValid(rows, SampleUsers()) && !HasDuplicates(SampleUsers()) && NamesKnown(["name"], SampleUsers())
      && Meaning(["name"], Some(SampleCondition()), rows, SampleUsers()) == [[FromText("Abraham")]]
  {
    hide ValidRow, SampleUsers, SampleCondition, Satisfies, NamedValues, HasDuplicates, NamesKnown;
    SampleRow(1, "Adura");
    SampleRow(2, "Abraham");
    var first, second := [FromInt(1), FromText("Adura")], [FromInt(2), FromText("Abraham")];
    assert [first, second][..1] == [first] && [first][..0] == [];
    assert Meaning(["name"], Some(SampleCondition()), [first], SampleUsers()) == [];
  }

  /**
   * A statement read from text and accepted by the binder fails exactly if it is a CREATE TABLE with
   * two columns of the same name, and it never aborts.
   */
  lemma ReadStatementFailsIff(sql: string, w: World)
    requires WorldOk(w) && Read(sql).Parsed? && Bind(Read(sql).value, w).Ok?
    ensures var s := Read(sql).value;
      && (!RunStatement(s, w).0.Ok? <==> s.CreateTable? && HasDuplicates(SchemaOf(s.table, s.definitions)))
      && !RunStatement(s, w).0.Abort?
  {
    hide ParseStatement, Tokens.Symbols, Bind, Execute, HasDuplicates;
    ParsedStatements.ParsedStatementPrints(sql);
    WritableHasNames(Read(sql).value);
    BoundFailsIff(Read(sql).value, w);
  }

  lemma WritableHasNames(s: Statement)
    requires Printing.WritableStatement(s)
    ensures NamesPresent(s)
  {
  }

  /** Nothing a text can do aborts the program, be it in binding or in execution. */
  lemma NoTextAborts(sql: string, w: World)
    requires WorldOk(w) && Read(sql).Parsed?
    ensures !Bind(Read(sql).value, w).Abort?
    ensures !RunStatement(Read(sql).value, w).0.Abort?
  {
    BindNeverAborts(Read(sql).value, w);
    if Bind(Read(sql).value, w).Ok? {
      ReadStatementFailsIff(sql, w);
    }
  }

  /** Saying a statement in its own words is the same step as any other way of saying it. */
  lemma CanonicalStep(sql: string)
    requires Read(sql).Parsed?
    ensures Printing.WritableStatement(Read(sql).value)
    ensures SqlSteps(CanonicalText.Text(Read(sql).value)) == SqlSteps(sql)
  {
    hide ParseStatement, Tokens.Symbols;
    ParsedStatements.ParsedStatementPrints(sql);
  }

  /**
   * A text gets a syntax error exactly if its symbols are no sentence of the grammar, and the location
   * reported is that of the first token with which they no longer begin one.
   */
  lemma SyntaxErrorLocated(sql: string, answer: Answer, w: World)
    requires WorldOk(w) && IsSqlAnswer(answer, sql, w)
    ensures answer.SyntaxError? <==> !SyntaxErrors.IsSentence(Tokens.Symbols(sql, 0))
    ensures answer.SyntaxError? ==>
      var symbols, tokens := Tokens.Symbols(sql, 0), LexerTheorems.AllTokens(sql, 0);
      && |tokens| == |symbols| + 1
      && exists n | 0 <= n <= |symbols| ::
        && tokens[n].line == answer.line && tokens[n].column == answer.column
        && forall k | 0 <= k <= |symbols| :: SyntaxErrors.BeginsSentence(symbols[..k]) <==> k <= n
  {
    hide ParseStatement, Tokens.Symbols, RunStatement, LexerTheorems.AllTokens, SyntaxErrors.IsSentence;
    var symbols := Tokens.Symbols(sql, 0);
    ParsedStatements.SymbolsLexable(sql, 0);
    ParsedStatements.LexableErased(symbols);
    SyntaxErrors.ReadIffSentence(symbols);
    if answer.SyntaxError? {
      TokenCount(sql);
      var n := |symbols| - |ParseStatement(symbols).rest|;
      SyntaxErrors.ErrorIsEarliest(symbols, 0);
      forall k | 0 <= k <= |symbols| ensures SyntaxErrors.BeginsSentence(symbols[..k]) <==> k <= n {
        SyntaxErrors.ErrorIsEarliest(symbols, k);
      }
    }
  }

  lemma TokenCount(sql: string)
    ensures |LexerTheorems.AllTokens(sql, 0)| == |Tokens.Symbols(sql, 0)| + 1
  {
    LexerTheorems.AllTokensLexed(sql, 0, 0);
    LexerTheorems.SymbolsCount(sql, 0);
  }
}
