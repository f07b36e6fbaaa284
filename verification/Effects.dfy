/**
 * What each statement reads and changes, in terms of the map of databases alone
 * (src/catalog/table_reference.hpp, src/execution/executor.cpp, src/engine/cluster.cpp).
 */
module Effects {
  import opened Prelude
  import opened Ast
  import opened Values
  import opened Schema
  import TableLayout
  import opened PredicateMeaning
  import opened CatalogModel
  import opened RunTheorems
  import opened SelectMeaning
  import opened Engine

  // ----- which schema a reference means -----

  predicate UsesTable(s: Statement) {
    s.Select? || s.Insert? || s.CreateTable?
  }

  function WithSchema(s: Statement, schemaName: string): (r: Statement)
    requires UsesTable(s)
    ensures UsesTable(r) && r.table == TableReference(schemaName, s.table.table)
  {
    var reference := TableReference(schemaName, s.table.table);
    match s
    case Select(selectAll, columns, _, condition) => Select(selectAll, columns, reference, condition)
    case Insert(_, values) => Insert(reference, values)
    case CreateTable(_, definitions) => CreateTable(reference, definitions)
  }

  /** A statement on an unqualified table is the same statement with "public" written out. */
  lemma UnqualifiedIsPublic(s: Statement, w: World)
    requires WorldOk(w) && UsesTable(s) && s.table.schema == ""
    ensures RunStatement(s, w) == RunStatement(WithSchema(s, "public"), w)
  {
    hide Execute, BindCondition, ColumnOrdinals, Literals, WorldOk;
    assert Bind(s, w) == Bind(WithSchema(s, "public"), w);
  }

  // ----- statements on a qualified table -----

  /** The current database has the table in the schema that is written. */
  predicate Named(reference: TableReference, w: World)
    requires w.current in w.databases
  {
    var db := w.databases[w.current];
    reference.schema in db && reference.table in db[reference.schema]
  }

  function NamedTable(reference: TableReference, w: World): Table
    requires w.current in w.databases && Named(reference, w)
  {
    w.databases[w.current][reference.schema][reference.table]
  }

  /** The world with that one table replaced or added. */
  function WithTable(reference: TableReference, table: Table, w: World): World
    requires w.current in w.databases && reference.schema in w.databases[w.current]
  {
    var db := w.databases[w.current];
    var tables := db[reference.schema][reference.table := table];
    World(w.databases[w.current := db[reference.schema := tables]], w.current)
  }

  /** The value is the one the literal denotes; no other expression denotes a value. */
  predicate Denotes(e: Expression, value: Value) {
    match e
    case IntegerLiteral(n) => value == Value(IntType, IntPayload(n))
    case StringLiteral(lexeme) => value == Value(TextType, TextPayload(Decode(lexeme)))
    case _ => false
  }

  /** The expression is a literal of the type. */
  predicate LiteralOf(e: Expression, columnType: LogicalType) {
    match columnType
    case IntType => e.IntegerLiteral?
    case TextType => e.StringLiteral?
  }

  lemma {:induction false} LiteralRowDenotes(values: seq<Expression>)
    requires forall i | 0 <= i < |values| :: IsLiteral(values[i])
    ensures |LiteralRow(values)| == |values|
    ensures forall i | 0 <= i < |values| :: Denotes(values[i], LiteralRow(values)[i])
  {
    if values != [] {
      LiteralRowDenotes(values[..|values| - 1]);
    }
  }

  /** Literals fit a schema exactly if there is one for each column, of the type of the column. */
  lemma LiteralsFitIff(values: seq<Expression>, schema: TableSchema)
    ensures (forall i | 0 <= i < |values| :: IsLiteral(values[i])) && ValidRow(LiteralRow(values), schema)
      <==> (|values| == |schema.columns|
        && forall i | 0 <= i < |values| :: LiteralOf(values[i], schema.columns[i].columnType))
  {
    if forall i | 0 <= i < |values| :: IsLiteral(values[i]) {
      LiteralRowDenotes(values);
    } else if |values| == |schema.columns| {
      var i :| 0 <= i < |values| && !IsLiteral(values[i]);
      assert !LiteralOf(values[i], schema.columns[i].columnType);
    }
  }

  /**
   * An INSERT on a qualified table succeeds exactly if its schema has the table, and there is a literal
   * for every column, of its type. Then the table gains one row, of the values the literals denote, and
   * nothing else changes; if it fails, nothing changes at all.
   */
  lemma InsertEffect(s: Statement, w: World)
    requires WorldOk(w) && s.Insert? && s.table.schema != ""
    ensures RunStatement(s, w).0.Ok? <==>
      && Named(s.table, w)
      && |s.values| == |NamedTable(s.table, w).schema.columns|
      && forall i | 0 <= i < |s.values| ::
        LiteralOf(s.values[i], NamedTable(s.table, w).schema.columns[i].columnType)
    ensures !RunStatement(s, w).0.Ok? ==> RunStatement(s, w).1 == w
    ensures RunStatement(s, w).0.Ok? ==>
      exists row: Row :: |row| == |s.values| && (forall i | 0 <= i < |row| :: Denotes(s.values[i], row[i]))
        && var table := NamedTable(s.table, w);
        RunStatement(s, w) == (Ok(Done), WithTable(s.table, Table(table.schema, table.rows + [row]), w))
  {
    InsertSucceedsIff(s, w);
    if Named(s.table, w) {
      LiteralsFitIff(s.values, NamedTable(s.table, w).schema);
    }
    if RunStatement(s, w).0.Ok? {
      LiteralsIff(s.values);
      LiteralsMean(s.values);
      LiteralRowDenotes(s.values);
    } else {
      FailureChangesNothing(s, w);
    }
  }

  /**
   * A SELECT on a qualified table succeeds exactly if its schema has the table, its condition is
   * well-typed and its items are columns of the table; it reads that table, and changes nothing.
   */
  lemma SelectEffect(s: Statement, w: World)
    requires WorldOk(w) && s.Select? && s.table.schema != ""
    ensures RunStatement(s, w).1 == w
    ensures RunStatement(s, w).0.Ok? <==>
      && Named(s.table, w)
      && (s.condition.None? || WellTyped(s.condition.value, NamedTable(s.table, w).schema))
      && (s.selectAll || forall i | 0 <= i < |s.columns| :: IsColumnOf(s.columns[i], NamedTable(s.table, w).schema))
    ensures RunStatement(s, w).0.Ok? ==>
      var schema, rows := NamedTable(s.table, w).schema, NamedTable(s.table, w).rows;
      var names := SelectedNames(s.selectAll, s.columns, schema);
      && RowsValid(rows, schema) && !HasDuplicates(schema) && NamesKnown(names, schema)
      && RunStatement(s, w).0 == Ok(Rows(names, Meaning(names, s.condition, TableLayout.Scan(rows, schema), schema)))
  {
    hide Execute, Bind, WellTyped, IsColumnOf, Meaning, TableLayout.Scan, WorldOk, SelectedNames;
    SelectSucceedsIff(s, w);
    FailureChangesNothing(s, w);
    if RunStatement(s, w).0.Ok? {
      SelectScans(s, w);
    }
  }

  /**
   * A CREATE TABLE on a qualified name succeeds exactly if the schema exists and has no such table, and
   * there are columns, of different names. Then the schema has the table, with those columns and without
   * rows, and nothing else changes; if it fails, nothing changes at all.
   */
  lemma CreateTableEffect(s: Statement, w: World)
    requires WorldOk(w) && s.CreateTable? && s.table.schema != ""
    ensures RunStatement(s, w).0.Ok? <==>
      && s.table.schema in w.databases[w.current] && s.table.table !in w.databases[w.current][s.table.schema]
      && s.table.table != "" && s.definitions != []
      && (forall i, j | 0 <= i < j < |s.definitions| :: s.definitions[i].name != s.definitions[j].name)
    ensures !RunStatement(s, w).0.Ok? ==> RunStatement(s, w).1 == w
    ensures RunStatement(s, w).0.Ok? ==>
      exists columns: seq<ColumnSchema> :: AreColumns(s.definitions, columns)
        && RunStatement(s, w) == (Ok(Done), WithTable(s.table, Table(TableSchema(s.table.table, columns), []), w))
  {
    CreateTableSucceedsIff(s, w);
    if RunStatement(s, w).0.Ok? {
      assert AreColumns(s.definitions, SchemaColumns(s.definitions));
    } else {
      FailureChangesNothing(s, w);
    }
  }

  // ----- schemas and databases -----

  /**
   * A CREATE SCHEMA succeeds exactly for a name that is not empty and that no schema of the current
   * database has. Then that schema exists, without tables, and nothing else changes.
   */
  lemma CreateSchemaEffect(s: Statement, w: World)
    requires WorldOk(w) && s.CreateSchema?
    ensures RunStatement(s, w).0.Ok? <==> s.schema != "" && s.schema !in w.databases[w.current]
    ensures RunStatement(s, w) ==
      if s.schema != "" && s.schema !in w.databases[w.current] then
        (Ok(Done), World(w.databases[w.current := w.databases[w.current][s.schema := map[]]], w.current))
      else (Fail, w)
  {
  }

  /**
   * A CREATE DATABASE succeeds exactly for a name that is not empty and that no database has. Then that
   * database exists, with the schema "public" and no tables, nothing else changes, and connecting to it
   * succeeds.
   */
  lemma CreateDatabaseEffect(s: Statement, w: World)
    requires WorldOk(w) && s.CreateDatabase?
    ensures RunStatement(s, w) ==
      if s.database != "" && s.database !in w.databases then
        (Ok(Done), World(w.databases[s.database := map["public" := map[]]], w.current))
      else (Fail, w)
    ensures RunStatement(s, w).0.Ok? ==>
      var later := RunStatement(s, w).1;
      WorldOk(later) && Run([Connect(s.database)], later) == World(later.databases, s.database)
  {
    StatementKeepsWorld(s, w);
    var later := RunStatement(s, w).1;
    if RunStatement(s, w).0.Ok? {
      RunShort([Connect(s.database)], later);
    }
  }

  /** After CREATE SCHEMA a table can be created in the schema, and rows inserted into it. */
  lemma CreatedSchemaIsUsable(name: string, table: string, definitions: seq<ColumnDefinition>, w: World)
    requires WorldOk(w) && name != "" && name !in w.databases[w.current]
    requires table != "" && definitions != []
    requires forall i, j | 0 <= i < j < |definitions| :: definitions[i].name != definitions[j].name
    ensures var steps := [Submit(CreateSchema(name)), Submit(CreateTable(TableReference(name, table), definitions))];
      Named(TableReference(name, table), Run(steps, w))
  {
    var create := CreateTable(TableReference(name, table), definitions);
    var steps := [Submit(CreateSchema(name)), Submit(create)];
    assert steps == [Submit(CreateSchema(name))] + [Submit(create)];
    CreateSchemaEffect(CreateSchema(name), w);
    RunShort([Submit(CreateSchema(name))], w);
    var between := Run([Submit(CreateSchema(name))], w);
    CreateTableEffect(create, between);
    RunShort([Submit(create)], between);
    RunAppend([Submit(CreateSchema(name))], [Submit(create)], w);
  }

  // ----- connecting -----

  /** The connect command makes the database named behind it current, if there is one. */
  lemma ConnectLine(name: string, w: World, answer: Answer)
    requires WorldOk(w) && IsAnswer(answer, ".connect " + name, w)
    ensures var line := ".connect " + name;
      if name != "" && name in w.databases then
        answer == Answered(Ok(Done)) && Run(StepsOf(line), w) == World(w.databases, name)
      else answer == Answered(Fail) && Run(StepsOf(line), w) == w
  {
    var line := ".connect " + name;
    assert line[|".connect "|..] == name;
    assert line != ".help" by {
      assert line[1] == 'c' && ".help"[1] == 'h';
    }
    RunShort(StepsOf(line), w);
  }

  /** Only these lines are not read as SQL. */
  lemma OtherLines(line: string, w: World, answer: Answer)
    requires WorldOk(w) && IsAnswer(answer, line, w)
    ensures answer == Silence <==> line == ""
    ensures answer == Help <==> line == ".help"
    ensures line == "" || line == ".help" ==> Run(StepsOf(line), w) == w
    ensures line != "" && line != ".help" && !(".connect " <= line) ==>
      StepsOf(line) == SqlSteps(line) && IsSqlAnswer(answer, line, w)
  {
    hide Read;
  }
}
