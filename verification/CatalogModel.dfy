/**
 * Binding and execution as functions of the catalogs (src/catalog/binder.cpp,
 * src/execution/executor.cpp), where a table is its schema and its rows.
 */
module CatalogModel {
  import opened Prelude
  import opened Ast
  import opened Values
  import opened Schema
  import opened TableLayout
  import opened TableStorages
  import opened BoundExpressions

  datatype Table = Table(schema: TableSchema, rows: seq<Row>)

  type SchemaTables = map<string, Table>
  type DatabaseSchemas = map<string, SchemaTables>

  /** All databases, and the one the session is connected to. */
  datatype World = World(databases: map<string, DatabaseSchemas>, current: string)

  const EMPTY_DATABASE: DatabaseSchemas := map[PUBLIC_SCHEMA := map[]]

  const INITIAL_WORLD := World(map[DEFAULT_DATABASE := EMPTY_DATABASE], DEFAULT_DATABASE)

  /** What a schema keeps of its tables, however they were made: columns may carry any ordinals. */
  ghost predicate TablesSound(tables: SchemaTables) {
    forall name | name in tables ::
      && tables[name].schema.name == name != ""
      && tables[name].schema.columns != [] && !HasDuplicates(tables[name].schema)
      && RowsValid(tables[name].rows, tables[name].schema)
  }

  /** Schemas are well-formed and named by their key, and every row satisfies its schema. */
  ghost predicate TablesOk(tables: SchemaTables) {
    forall name | name in tables ::
      && tables[name].schema.name == name
      && WellFormedSchema(tables[name].schema)
      && RowsValid(tables[name].rows, tables[name].schema)
  }

  /** The session is connected to an existing database, and every table is in order. */
  ghost predicate WorldOk(w: World)
    ensures WorldOk(w) ==> w.current in w.databases
  {
    && w.current in w.databases
    && forall d, s | d in w.databases && s in w.databases[d] :: TablesOk(w.databases[d][s])
  }

  function CurrentDatabase(w: World): DatabaseSchemas
    requires w.current in w.databases
  {
    w.databases[w.current]
  }

  function FindTable(db: DatabaseSchemas, schemaName: string, tableName: string): Option<Table> {
    if schemaName in db && tableName in db[schemaName] then Some(db[schemaName][tableName]) else None
  }

  function SetTables(w: World, schemaName: string, tables: SchemaTables): World
    requires w.current in w.databases
  {
    World(w.databases[w.current := w.databases[w.current][schemaName := tables]], w.current)
  }

  /** The table `name` with rows added at its end. */
  function Grown(tables: SchemaTables, name: string, more: seq<Row>): SchemaTables
    requires name in tables
  {
    tables[name := Table(tables[name].schema, tables[name].rows + more)]
  }

  ghost predicate TableAccepted(schema: TableSchema, tables: SchemaTables) {
    schema.name != "" && schema.columns != [] && !HasDuplicates(schema) && schema.name !in tables
  }

  lemma CreatedOk(schema: TableSchema, tables: SchemaTables)
    requires TablesOk(tables) && TableAccepted(schema, tables) && OrdinalsArePositions(schema)
    ensures TablesOk(tables[schema.name := Table(schema, [])])
  {
  }

  lemma GrownOk(tables: SchemaTables, name: string, more: seq<Row>)
    requires TablesOk(tables) && name in tables && RowsValid(more, tables[name].schema)
    ensures TablesOk(Grown(tables, name, more))
  {
  }

  // ----- bound statements -----

  datatype BoundStatement =
    | BoundCreateTable(schemaName: string, schema: TableSchema)
    | BoundCreateSchema(schemaName: string)
    | BoundCreateDatabase(databaseName: string)
    | BoundInsert(schemaName: string, tableName: string, values: Row)
    | BoundSelect(
        schemaName: string, tableName: string, selectAll: bool, ordinals: seq<nat>, condition: Option<BoundExpression>)

  // ----- binding -----

  function Literals(values: seq<Expression>): Outcome<Row> {
    if values == [] then Ok([])
    else
      var front :- Literals(values[..|values| - 1]);
      var last :- FromExpression(values[|values| - 1]);
      Ok(front + [last])
  }

  function ColumnOrdinals(schema: TableSchema, columns: seq<Expression>): Outcome<seq<nat>> {
    if columns == [] then Ok([])
    else
      var front :- ColumnOrdinals(schema, columns[..|columns| - 1]);
      var last := columns[|columns| - 1];
      if !last.ColumnRef? then Fail
      else
        match ColumnIndex(schema, last.name)
        case None => Fail
        case Some(ordinal) => Ok(front + [ordinal])
  }

  function AllOrdinals(schema: TableSchema): seq<nat> {
    seq(|schema.columns|, i requires 0 <= i < |schema.columns| => schema.columns[i].ordinal)
  }

  function BindCondition(condition: Option<Expression>, schema: TableSchema): Outcome<Option<BoundExpression>>
    requires OrdinalsDefined(schema)
  {
    match condition
    case None => Ok(None)
    case Some(e) =>
      var bound :- BindExpression(e, schema);
      if PredicateValid(bound) then Ok(Some(bound)) else Fail
  }

  function BindSelect(selectAll: bool, columns: seq<Expression>, reference: TableReference,
                      condition: Option<Expression>, db: DatabaseSchemas)
    : (r: Outcome<BoundStatement>)
    requires forall s | s in db :: TablesOk(db[s])
    ensures r.Ok? ==> r.value.BoundSelect?
  {
    var schemaName := ResolveSchemaName(reference.schema);
    match FindTable(db, schemaName, reference.table)
    case None => Fail
    case Some(table) =>
      assert TablesOk(db[schemaName]);
      var bound :- BindCondition(condition, table.schema);
      var ordinals :- if selectAll then Ok(AllOrdinals(table.schema)) else ColumnOrdinals(table.schema, columns);
      Ok(BoundSelect(schemaName, reference.table, selectAll, ordinals, bound))
  }

  function BindInsert(reference: TableReference, values: seq<Expression>, db: DatabaseSchemas)
    : (r: Outcome<BoundStatement>)
    ensures r.Ok? ==> r.value.BoundInsert?
  {
    var schemaName := ResolveSchemaName(reference.schema);
    match FindTable(db, schemaName, reference.table)
    case None => Fail
    case Some(table) =>
      var row :- Literals(values);
      if ValidRow(row, table.schema) then Ok(BoundInsert(schemaName, reference.table, row)) else Fail
  }

  function Bind(statement: Statement, w: World): Outcome<BoundStatement>
    requires WorldOk(w)
  {
    var db := CurrentDatabase(w);
    match statement
    case Select(selectAll, columns, reference, condition) => BindSelect(selectAll, columns, reference, condition, db)
    case Insert(reference, values) => BindInsert(reference, values, db)
    case CreateTable(reference, definitions) =>
      var schemaName := ResolveSchemaName(reference.schema);
      if schemaName !in db || reference.table in db[schemaName] then Fail
      else Ok(BoundCreateTable(schemaName, SchemaOf(reference, definitions)))
    case CreateSchema(name) => if name in db then Fail else Ok(BoundCreateSchema(name))
    case CreateDatabase(name) => if name in w.databases then Fail else Ok(BoundCreateDatabase(name))
  }

  // ----- execution -----

  datatype ExecutionResult = Done | Rows(columnNames: seq<string>, rows: seq<Row>)

  /** The rows the scan callback collects; the first evaluation error is kept and stops collection. */
  function Collect(rows: seq<Row>, condition: Option<BoundExpression>, ordinals: seq<nat>, width: nat)
    : Outcome<seq<Row>>
    requires forall i | 0 <= i < |rows| :: |rows[i]| == width
    requires forall i | 0 <= i < |ordinals| :: ordinals[i] < width
  {
    if rows == [] then Ok([])
    else
      var last := rows[|rows| - 1];
      var front :- Collect(rows[..|rows| - 1], condition, ordinals, width);
      var matches :- if condition.None? then Ok(true) else Evaluate(condition.value, last);
      Ok(if matches then front + [ProjectRow(last, ordinals)] else front)
  }

  predicate SelectAccepted(ordinals: seq<nat>, condition: Option<BoundExpression>, schema: TableSchema) {
    && OrdinalsInRange(ordinals, schema)
    && (condition.Some? ==> PredicateValid(condition.value) && OrdinalsValid(condition.value, |schema.columns|))
  }

  function OrdinalNames(schema: TableSchema, ordinals: seq<nat>): seq<string>
    requires OrdinalsInRange(ordinals, schema)
  {
    seq(|ordinals|, i requires 0 <= i < |ordinals| => schema.columns[ordinals[i]].name)
  }

  ghost function ExecuteSelect(ordinals: seq<nat>, condition: Option<BoundExpression>, table: Table)
    : Outcome<ExecutionResult>
    requires RowsValid(table.rows, table.schema)
  {
    if !SelectAccepted(ordinals, condition, table.schema) then Fail
    else
      var scanned := Scan(table.rows, table.schema);
      assert forall i | 0 <= i < |scanned| :: ValidRow(scanned[i], table.schema);
      var rows :- Collect(scanned, condition, ordinals, |table.schema.columns|);
      Ok(Rows(OrdinalNames(table.schema, ordinals), rows))
  }

  /** The result, and the catalogs afterwards. */
  ghost function Execute(b: BoundStatement, w: World): (Outcome<ExecutionResult>, World)
    requires WorldOk(w)
  {
    var db := CurrentDatabase(w);
    match b
    case BoundCreateTable(schemaName, schema) =>
      if schemaName in db && TableAccepted(schema, db[schemaName]) then
        (Ok(Done), SetTables(w, schemaName, db[schemaName][schema.name := Table(schema, [])]))
      else (Fail, w)
    case BoundCreateSchema(name) =>
      if name == "" || name in db then (Fail, w) else (Ok(Done), SetTables(w, name, map[]))
    case BoundCreateDatabase(name) =>
      if name == "" || name in w.databases then (Fail, w)
      else (Ok(Done), World(w.databases[name := EMPTY_DATABASE], w.current))
    case BoundInsert(schemaName, tableName, values) =>
      (match FindTable(db, schemaName, tableName)
       case None => (Fail, w)
       case Some(table) =>
         if !ValidRow(values, table.schema) then (Fail, w)
         else (Ok(Done), SetTables(w, schemaName, Grown(db[schemaName], tableName, [values]))))
    case BoundSelect(schemaName, tableName, _, ordinals, condition) =>
      (match FindTable(db, schemaName, tableName)
       case None => (Fail, w)
       case Some(table) => (ExecuteSelect(ordinals, condition, table), w))
  }

  /** One statement, bound and executed. */
  ghost function RunStatement(s: Statement, w: World): (Outcome<ExecutionResult>, World)
    requires WorldOk(w)
  {
    match Bind(s, w)
    case Ok(b) => Execute(b, w)
    case Fail => (Fail, w)
    case Abort => (Abort, w)
  }
}
