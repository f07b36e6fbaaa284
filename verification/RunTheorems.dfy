/** What every run of statements keeps, and what it leaves in each table. */
module RunTheorems {
  import opened Ast
  import opened Values
  import opened Schema
  import opened CatalogModel

  // ----- what one statement keeps -----

  lemma SetTablesOk(w: World, schemaName: string, tables: SchemaTables)
    requires WorldOk(w) && TablesOk(tables)
    ensures WorldOk(SetTables(w, schemaName, tables))
  {
  }

  /** The catalogs stay in order, whatever statement is run; the session stays where it is. */
  lemma StatementKeepsWorld(s: Statement, w: World)
    requires WorldOk(w)
    ensures WorldOk(RunStatement(s, w).1) && RunStatement(s, w).1.current == w.current
  {
    hide WellFormedSchema, ExecuteSelect;
    var db := CurrentDatabase(w);
    var bound := Bind(s, w);
    if bound.Ok? {
      match bound.value
      case BoundCreateTable(schemaName, schema) =>
        if schemaName in db && TableAccepted(schema, db[schemaName]) {
          CreatedOk(schema, db[schemaName]);
          SetTablesOk(w, schemaName, db[schemaName][schema.name := Table(schema, [])]);
        }
      case BoundCreateSchema(name) => SetTablesOk(w, name, map[]);
      case BoundCreateDatabase(name) =>
      case BoundInsert(schemaName, tableName, values) =>
        var table := FindTable(db, schemaName, tableName).value;
        if ValidRow(values, table.schema) {
          GrownOk(db[schemaName], tableName, [values]);
          SetTablesOk(w, schemaName, Grown(db[schemaName], tableName, [values]));
        }
      case BoundSelect(_, _, _, _, _) =>
    }
  }

  /** A statement that does not succeed, and any SELECT, leaves everything as it was. */
  lemma FailureChangesNothing(s: Statement, w: World)
    requires WorldOk(w) && (!RunStatement(s, w).0.Ok? || s.Select?)
    ensures RunStatement(s, w).1 == w
  {
    hide ExecuteSelect, TableAccepted;
  }

  // ----- runs -----

  /** What a session is asked to do: run a statement, or connect to another database. */
  datatype Step = Submit(statement: Statement) | Connect(database: string)

  /** The world after one step; connecting to a database that does not exist changes nothing. */
  ghost function Perform(step: Step, w: World): (r: World)
    requires WorldOk(w)
    ensures WorldOk(r)
  {
    match step
    case Submit(s) =>
      StatementKeepsWorld(s, w);
      RunStatement(s, w).1
    case Connect(database) => if database in w.databases then World(w.databases, database) else w
  }

  ghost function Run(steps: seq<Step>, w: World): (r: World)
    requires WorldOk(w)
    ensures WorldOk(r)
  {
    if steps == [] then w
    else Perform(steps[|steps| - 1], Run(steps[..|steps| - 1], w))
  }

  /** Where a table lives. */
  datatype Place = Place(database: string, schemaName: string, tableName: string)

  /** The place a reference means in a session. */
  function NamedPlace(reference: TableReference, w: World): Place {
    Place(w.current, ResolveSchemaName(reference.schema), reference.table)
  }

  predicate Exists(p: Place, w: World) {
    p.database in w.databases && FindTable(w.databases[p.database], p.schemaName, p.tableName).Some?
  }

  function TableAt(p: Place, w: World): Table
    requires Exists(p, w)
  {
    w.databases[p.database][p.schemaName][p.tableName]
  }

  function RowsAt(p: Place, w: World): seq<Row> {
    if Exists(p, w) then TableAt(p, w).rows else []
  }

  /** The row an INSERT puts into the table at `p`: the values of its literals, if it succeeds. */
  ghost function InsertedInto(p: Place, s: Statement, w: World): seq<Row>
    requires WorldOk(w)
  {
    if s.Insert? && p == NamedPlace(s.table, w) && RunStatement(s, w).0.Ok? then [LiteralRow(s.values)] else []
  }

  /** The values denoted by literals; anything else has no value and is skipped here. */
  function LiteralRow(values: seq<Expression>): Row {
    if values == [] then []
    else
      LiteralRow(values[..|values| - 1])
        + match values[|values| - 1]
          case IntegerLiteral(n) => [FromInt(n)]
          case StringLiteral(lexeme) => [FromText(Decode(lexeme))]
          case _ => []
  }

  /** The rows the INSERTs of a run put into the table at `p`, in order. */
  ghost function Inserted(p: Place, steps: seq<Step>, w: World): seq<Row>
    requires WorldOk(w)
  {
    if steps == [] then []
    else
      var front, last := steps[..|steps| - 1], steps[|steps| - 1];
      Inserted(p, front, w) + if last.Submit? then InsertedInto(p, last.statement, Run(front, w)) else []
  }

  lemma {:induction false} LiteralsMean(values: seq<Expression>)
    requires Literals(values).Ok?
    ensures Literals(values).value == LiteralRow(values)
  {
    if values != [] {
      LiteralsMean(values[..|values| - 1]);
    }
  }

  /** Replacing the tables of one schema is seen in that schema only. */
  lemma SetTablesAt(p: Place, w: World, schemaName: string, tables: SchemaTables)
    requires w.current in w.databases
    ensures var later, here := SetTables(w, schemaName, tables), p.database == w.current && p.schemaName == schemaName;
      && (Exists(p, later) <==> if here then p.tableName in tables else Exists(p, w))
      && (Exists(p, later) ==> TableAt(p, later) == if here then tables[p.tableName] else TableAt(p, w))
  {
  }

  /** One statement: every table gains the row inserted into it, and keeps its schema. */
  lemma StatementRows(p: Place, s: Statement, w: World)
    requires WorldOk(w)
    ensures RowsAt(p, RunStatement(s, w).1) == RowsAt(p, w) + InsertedInto(p, s, w)
    ensures Exists(p, w) ==>
      Exists(p, RunStatement(s, w).1) && TableAt(p, RunStatement(s, w).1).schema == TableAt(p, w).schema
  {
    hide ExecuteSelect, WellFormedSchema, RowsValid, ValidRow, SetTables, BindSelect, LiteralRow, Literals;
    if RunStatement(s, w).0.Ok? {
      var db := CurrentDatabase(w);
      match s
      case Insert(reference, values) =>
        LiteralsMean(values);
        var schemaName := ResolveSchemaName(reference.schema);
        SetTablesAt(p, w, schemaName, Grown(db[schemaName], reference.table, [LiteralRow(values)]));
      case CreateTable(reference, definitions) =>
        var schemaName := ResolveSchemaName(reference.schema);
        var created := Table(SchemaOf(reference, definitions), []);
        SetTablesAt(p, w, schemaName, db[schemaName][reference.table := created]);
      case CreateSchema(name) => SetTablesAt(p, w, name, map[]);
      case _ =>
    } else {
      FailureChangesNothing(s, w);
    }
  }

  /**
   * Whole runs: after any sequence of steps every table holds the rows it had and then the literal
   * rows of the successful INSERTs into it, in order. Failed statements, connecting, and statements on
   * other tables, schemas and databases contribute nothing; and no table is ever lost or altered.
   */
  lemma {:induction false} RunRows(p: Place, steps: seq<Step>, w: World)
    requires WorldOk(w)
    ensures RowsAt(p, Run(steps, w)) == RowsAt(p, w) + Inserted(p, steps, w)
    ensures Exists(p, w) ==>
      Exists(p, Run(steps, w)) && TableAt(p, Run(steps, w)).schema == TableAt(p, w).schema
  {
    hide RunStatement, InsertedInto, WorldOk;
    if steps != [] {
      var front, last := steps[..|steps| - 1], steps[|steps| - 1];
      RunRows(p, front, w);
      if last.Submit? {
        StatementRows(p, last.statement, Run(front, w));
      }
    }
  }

  // ----- CREATE TABLE -----

  /** The columns are those of the definitions: same names, same types, same order. */
  predicate AreColumns(definitions: seq<ColumnDefinition>, columns: seq<ColumnSchema>) {
    && |columns| == |definitions|
    && forall i | 0 <= i < |columns| ::
      && columns[i].name == definitions[i].name
      && columns[i].columnType == definitions[i].columnType
      && columns[i].ordinal == i
  }

  /**
   * A CREATE TABLE succeeds exactly if its schema exists, the table does not, and the columns are
   * present and have different names; then the table exists, with those columns and without rows.
   */
  lemma CreateTableSucceedsIff(s: Statement, w: World)
    requires WorldOk(w) && s.CreateTable?
    ensures RunStatement(s, w).0.Ok? <==>
      && ResolveSchemaName(s.table.schema) in CurrentDatabase(w)
      && !Exists(NamedPlace(s.table, w), w)
      && s.table.table != "" && s.definitions != []
      && (forall i, j | 0 <= i < j < |s.definitions| :: s.definitions[i].name != s.definitions[j].name)
    ensures RunStatement(s, w).0.Ok? ==>
      var later := RunStatement(s, w).1;
      && Exists(NamedPlace(s.table, w), later)
      && var table := TableAt(NamedPlace(s.table, w), later);
      && table.schema.name == s.table.table && table.rows == []
      && AreColumns(s.definitions, table.schema.columns)
  {
    hide WellFormedSchema, RowsValid;
    DuplicateDefinitions(s.table, s.definitions);
  }

  lemma DuplicateDefinitions(reference: TableReference, definitions: seq<ColumnDefinition>)
    ensures HasDuplicates(SchemaOf(reference, definitions)) <==>
      exists i, j | 0 <= i < j < |definitions| :: definitions[i].name == definitions[j].name
  {
    var columns := SchemaOf(reference, definitions).columns;
    assert forall i | 0 <= i < |definitions| :: columns[i].name == definitions[i].name;
  }

  /** A table appears only by its own CREATE TABLE, and tables never disappear. */
  lemma TablesAppear(p: Place, s: Statement, w: World)
    requires WorldOk(w)
    ensures Exists(p, RunStatement(s, w).1) <==>
      Exists(p, w) || (s.CreateTable? && p == NamedPlace(s.table, w) && RunStatement(s, w).0.Ok?)
  {
    hide ExecuteSelect, WellFormedSchema, RowsValid, ValidRow, HasDuplicates;
    if !RunStatement(s, w).0.Ok? {
      FailureChangesNothing(s, w);
    }
  }
}
