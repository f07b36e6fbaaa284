/** What a SELECT returns, by column name, and which bound statements can fail. */
module SelectMeaning {
  import opened Prelude
  import opened Ast
  import opened Values
  import opened Schema
  import opened TableLayout
  import opened TableStorages
  import opened BoundExpressions
  import opened PredicateMeaning
  import opened CatalogModel
  import opened RunTheorems

  // ----- the relational meaning -----

  function ColumnNames(schema: TableSchema): seq<string> {
    seq(|schema.columns|, i requires 0 <= i < |schema.columns| => schema.columns[i].name)
  }

  /** The names a SELECT asks for, in order; `*` asks for all of them. */
  function SelectedNames(selectAll: bool, columns: seq<Expression>, schema: TableSchema): seq<string> {
    if selectAll then ColumnNames(schema)
    else seq(|columns|, i requires 0 <= i < |columns| => if columns[i].ColumnRef? then columns[i].name else "")
  }

  predicate NamesKnown(names: seq<string>, schema: TableSchema) {
    forall i | 0 <= i < |names| :: FindFirst(schema.columns, names[i]).Some?
  }

  /** The values of a row under the given names. */
  ghost function NamedValues(names: seq<string>, row: Row, schema: TableSchema): Row
    requires ValidRow(row, schema) && !HasDuplicates(schema) && NamesKnown(names, schema)
  {
    seq(|names|, i requires 0 <= i < |names| =>
      FoundByName(schema, row, names[i]);
      NamedRow(schema.columns, row)[names[i]])
  }

  predicate Satisfies(condition: Option<Expression>, row: Row, schema: TableSchema)
    requires |row| == |schema.columns|
  {
    condition.None? || PredicateMeaning.Holds(condition.value, NamedRow(schema.columns, row))
  }

  /** The rows that satisfy the condition, in order, each projected to the names. */
  ghost function Meaning(names: seq<string>, condition: Option<Expression>, rows: seq<Row>, schema: TableSchema)
    : seq<Row>
    requires RowsValid(rows, schema) && !HasDuplicates(schema) && NamesKnown(names, schema)
  {
    if rows == [] then []
    else
      var last := rows[|rows| - 1];
      Meaning(names, condition, rows[..|rows| - 1], schema)
        + if Satisfies(condition, last, schema) then [NamedValues(names, last, schema)] else []
  }

  // ----- columns -----

  ghost predicate OrdinalsOf(ordinals: seq<nat>, names: seq<string>, schema: TableSchema) {
    && |ordinals| == |names|
    && forall i | 0 <= i < |names| :: FindFirst(schema.columns, names[i]) == Some(ordinals[i])
  }

  lemma {:induction false} ColumnOrdinalsFound(schema: TableSchema, columns: seq<Expression>)
    requires OrdinalsArePositions(schema) && ColumnOrdinals(schema, columns).Ok?
    ensures OrdinalsOf(ColumnOrdinals(schema, columns).value, SelectedNames(false, columns, schema), schema)
  {
    if columns != [] {
      var last := |columns| - 1;
      ColumnOrdinalsFound(schema, columns[..last]);
      assert SelectedNames(false, columns[..last], schema) == SelectedNames(false, columns, schema)[..last];
    }
  }

  lemma AllOrdinalsFound(schema: TableSchema)
    requires OrdinalsArePositions(schema) && !HasDuplicates(schema)
    ensures OrdinalsOf(AllOrdinals(schema), ColumnNames(schema), schema)
  {
    forall i | 0 <= i < |schema.columns| ensures FindFirst(schema.columns, schema.columns[i].name) == Some(i) {
      var found := FindFirst(schema.columns, schema.columns[i].name);
      assert found.Some?;
      assert forall j | 0 <= j < i :: schema.columns[j].name != schema.columns[i].name;
    }
  }

  lemma ProjectionByName(ordinals: seq<nat>, names: seq<string>, row: Row, schema: TableSchema)
    requires ValidRow(row, schema) && !HasDuplicates(schema)
    requires OrdinalsOf(ordinals, names, schema)
    ensures NamesKnown(names, schema) && OrdinalsInRange(ordinals, schema)
    ensures ProjectRow(row, ordinals) == NamedValues(names, row, schema)
  {
    var named := NamedRow(schema.columns, row);
    forall i | 0 <= i < |names|
      ensures ordinals[i] < |row| && names[i] in named && row[ordinals[i]] == named[names[i]]
    {
      assert FindFirst(schema.columns, names[i]) == Some(ordinals[i]);
      FoundByName(schema, row, names[i]);
    }
  }

  // ----- SELECT -----

  /** The test made on each row is the condition by name, and it does not fail. */
  lemma ConditionEvaluates(e: Option<Expression>, row: Row, schema: TableSchema)
    requires WellFormedSchema(schema) && ValidRow(row, schema) && BindCondition(e, schema).Ok?
    ensures var condition := BindCondition(e, schema).value;
      (if condition.None? then Ok(true) else Evaluate(condition.value, row)) == Ok(Satisfies(e, row, schema))
  {
    hide PredicateMeaning.Holds, Evaluate, BindExpression, PredicateValid, WellTyped;
    if e.Some? {
      AcceptedIffWellTyped(e.value, schema);
      EvaluateMeaning(e.value, schema, row);
    }
  }

  lemma {:induction false} CollectMeaning(rows: seq<Row>, e: Option<Expression>, condition: Option<BoundExpression>,
                                          ordinals: seq<nat>, names: seq<string>, schema: TableSchema)
    requires RowsValid(rows, schema) && WellFormedSchema(schema)
    requires BindCondition(e, schema) == Ok(condition)
    requires OrdinalsOf(ordinals, names, schema) && NamesKnown(names, schema) && OrdinalsInRange(ordinals, schema)
    ensures forall i | 0 <= i < |rows| :: |rows[i]| == |schema.columns|
    ensures Collect(rows, condition, ordinals, |schema.columns|) == Ok(Meaning(names, e, rows, schema))
  {
    hide Satisfies, Evaluate, BindCondition, NamedValues;
    assert forall i | 0 <= i < |rows| :: ValidRow(rows[i], schema);
    if rows != [] {
      var last := rows[|rows| - 1];
      CollectMeaning(rows[..|rows| - 1], e, condition, ordinals, names, schema);
      ProjectionByName(ordinals, names, last, schema);
      ConditionEvaluates(e, last, schema);
      var front := Meaning(names, e, rows[..|rows| - 1], schema);
      assert front + [] == front;
    }
  }

  /** A condition that is accepted for a schema passes the checks made again at execution. */
  lemma ConditionAccepted(e: Option<Expression>, schema: TableSchema)
    requires WellFormedSchema(schema) && BindCondition(e, schema).Ok?
    ensures var condition := BindCondition(e, schema).value;
      condition.Some? ==> PredicateValid(condition.value) && OrdinalsValid(condition.value, |schema.columns|)
  {
    if e.Some? {
      AcceptedIffWellTyped(e.value, schema);
    }
  }

  /**
   * A bound SELECT, executed on any rows of the schema it was bound to, succeeds and returns the
   * satisfying rows as scanned, projected by name, in order.
   */
  lemma SelectReturnsMeaning(s: Statement, db: DatabaseSchemas, rows: seq<Row>)
    requires s.Select? && (forall n | n in db :: TablesOk(db[n]))
    requires BindSelect(s.selectAll, s.columns, s.table, s.condition, db).Ok?
    requires RowsValid(rows, FindTable(db, ResolveSchemaName(s.table.schema), s.table.table).value.schema)
    ensures var schema := FindTable(db, ResolveSchemaName(s.table.schema), s.table.table).value.schema;
      var b := BindSelect(s.selectAll, s.columns, s.table, s.condition, db).value;
      var names := SelectedNames(s.selectAll, s.columns, schema);
      && !HasDuplicates(schema) && NamesKnown(names, schema)
      && ExecuteSelect(b.ordinals, b.condition, Table(schema, rows))
        == Ok(Rows(names, Meaning(names, s.condition, Scan(rows, schema), schema)))
  {
    var schemaName := ResolveSchemaName(s.table.schema);
    assert TablesOk(db[schemaName]);
    var schema := FindTable(db, schemaName, s.table.table).value.schema;
    var b := BindSelect(s.selectAll, s.columns, s.table, s.condition, db).value;
    var names := SelectedNames(s.selectAll, s.columns, schema);
    OrdinalsFound(s.selectAll, s.columns, schema);
    ConditionAccepted(s.condition, schema);
    CollectMeaning(Scan(rows, schema), s.condition, b.condition, b.ordinals, names, schema);
    NamesByOrdinal(b.ordinals, names, schema);
  }

  lemma OrdinalsFound(selectAll: bool, columns: seq<Expression>, schema: TableSchema)
    requires WellFormedSchema(schema)
    ensures var bound := if selectAll then Ok(AllOrdinals(schema)) else ColumnOrdinals(schema, columns);
      var names := SelectedNames(selectAll, columns, schema);
      bound.Ok? ==>
        OrdinalsOf(bound.value, names, schema) && NamesKnown(names, schema) && OrdinalsInRange(bound.value, schema)
  {
    if selectAll {
      AllOrdinalsFound(schema);
    } else if ColumnOrdinals(schema, columns).Ok? {
      ColumnOrdinalsFound(schema, columns);
    }
  }

  lemma NamesByOrdinal(ordinals: seq<nat>, names: seq<string>, schema: TableSchema)
    requires OrdinalsOf(ordinals, names, schema) && OrdinalsInRange(ordinals, schema)
    ensures OrdinalNames(schema, ordinals) == names
  {
  }

  /** A SELECT that binds returns the satisfying rows of a scan of its table. */
  lemma SelectScans(s: Statement, w: World)
    requires WorldOk(w) && s.Select? && Bind(s, w).Ok?
    ensures var p := NamedPlace(s.table, w);
      && Exists(p, w)
      && var schema, rows := TableAt(p, w).schema, TableAt(p, w).rows;
      var names := SelectedNames(s.selectAll, s.columns, schema);
      && RowsValid(rows, schema) && !HasDuplicates(schema) && NamesKnown(names, schema)
      && RunStatement(s, w) == (Ok(Rows(names, Meaning(names, s.condition, Scan(rows, schema), schema))), w)
  {
    hide ExecuteSelect, Meaning, Scan;
    var db := CurrentDatabase(w);
    assert TablesOk(db[ResolveSchemaName(s.table.schema)]);
    SelectReturnsMeaning(s, db, TableAt(NamedPlace(s.table, w), w).rows);
  }

  /** While every string is empty or within the 32-bit layout, the scan is the rows of the table. */
  lemma SelectExact(s: Statement, w: World)
    requires WorldOk(w) && s.Select? && Bind(s, w).Ok?
    requires var p := NamedPlace(s.table, w);
      Exists(p, w) && RowsReadable(TableAt(p, w).rows, TableAt(p, w).schema)
    ensures var schema, rows := TableAt(NamedPlace(s.table, w), w).schema, TableAt(NamedPlace(s.table, w), w).rows;
      var names := SelectedNames(s.selectAll, s.columns, schema);
      && RowsValid(rows, schema) && !HasDuplicates(schema) && NamesKnown(names, schema)
      && RunStatement(s, w) == (Ok(Rows(names, Meaning(names, s.condition, rows, schema))), w)
  {
    hide RunStatement, Bind, WorldOk, Meaning, Scan, RowsReadable;
    SelectScans(s, w);
    ScanExact(TableAt(NamedPlace(s.table, w), w).rows, TableAt(NamedPlace(s.table, w), w).schema);
  }

  // ----- binding stays good -----

  lemma BoundSelectStill(s: Statement, w: World, later: World)
    requires WorldOk(w) && WorldOk(later) && w.current == later.current && s.Select? && Bind(s, w).Ok?
    requires var p := NamedPlace(s.table, w);
      Exists(p, later) && TableAt(p, later).schema == TableAt(p, w).schema
    ensures Execute(Bind(s, w).value, later).0.Ok?
  {
    hide ExecuteSelect, Meaning, BindCondition, ColumnOrdinals;
    var p := NamedPlace(s.table, w);
    assert TablesOk(later.databases[p.database][p.schemaName]);
    SelectReturnsMeaning(s, CurrentDatabase(w), TableAt(p, later).rows);
  }

  /**
   * A bound INSERT or SELECT still executes after any further steps, as long as the session is then
   * connected to the same database.
   */
  lemma BindingIsStable(s: Statement, w: World, steps: seq<Step>)
    requires WorldOk(w) && (s.Insert? || s.Select?) && Bind(s, w).Ok?
    requires RunTheorems.Run(steps, w).current == w.current
    ensures Execute(Bind(s, w).value, RunTheorems.Run(steps, w)).0.Ok?
  {
    hide ExecuteSelect, RunTheorems.Run, BindCondition, ColumnOrdinals, Literals;
    RunTheorems.RunRows(NamedPlace(s.table, w), steps, w);
    if s.Select? {
      BoundSelectStill(s, w, RunTheorems.Run(steps, w));
    }
  }

  // ----- which statements fail -----

  /** Statements as the parser returns them: names and lists are not empty. */
  predicate NamesPresent(s: Statement) {
    match s
    case CreateTable(reference, definitions) => reference.table != "" && definitions != []
    case CreateSchema(name) => name != ""
    case CreateDatabase(name) => name != ""
    case _ => true
  }

  /**
   * Executed right after binding, a parsed statement fails exactly if it is a CREATE TABLE with
   * two columns of the same name; and no statement ever aborts.
   */
  lemma BoundFailsIff(s: Statement, w: World)
    requires WorldOk(w) && NamesPresent(s) && Bind(s, w).Ok?
    ensures !Execute(Bind(s, w).value, w).0.Ok? <==>
      s.CreateTable? && HasDuplicates(SchemaOf(s.table, s.definitions))
    ensures !Execute(Bind(s, w).value, w).0.Abort?
  {
    hide ExecuteSelect, BindCondition, ColumnOrdinals, Literals;
    if s.Select? {
      var p := NamedPlace(s.table, w);
      BoundSelectStill(s, w, w);
    }
  }

  /** An INSERT succeeds exactly if its table exists and its values are literals that fit the schema. */
  lemma InsertSucceedsIff(s: Statement, w: World)
    requires WorldOk(w) && s.Insert?
    ensures RunStatement(s, w).0.Ok? <==>
      var p := NamedPlace(s.table, w);
      && Exists(p, w)
      && (forall i | 0 <= i < |s.values| :: IsLiteral(s.values[i]))
      && ValidRow(LiteralRow(s.values), TableAt(p, w).schema)
  {
    LiteralsIff(s.values);
    if Literals(s.values).Ok? {
      LiteralsMean(s.values);
    }
  }

  lemma {:induction false} LiteralsIff(values: seq<Expression>)
    ensures Literals(values).Ok? <==> forall i | 0 <= i < |values| :: IsLiteral(values[i])
    ensures !Literals(values).Abort?
  {
    hide FromExpression, IsLiteral;
    if values != [] {
      LiteralsIff(values[..|values| - 1]);
      LiteralIff(values[|values| - 1]);
    }
  }

  lemma LiteralIff(e: Expression)
    ensures FromExpression(e).Ok? <==> IsLiteral(e)
    ensures !FromExpression(e).Abort?
  {
    hide Decode;
  }

  lemma {:induction false} ColumnOrdinalsIff(schema: TableSchema, columns: seq<Expression>)
    ensures ColumnOrdinals(schema, columns).Ok? <==> forall i | 0 <= i < |columns| :: IsColumnOf(columns[i], schema)
    ensures !ColumnOrdinals(schema, columns).Abort?
  {
    if columns != [] {
      ColumnOrdinalsIff(schema, columns[..|columns| - 1]);
    }
  }

  predicate IsColumnOf(e: Expression, schema: TableSchema) {
    e.ColumnRef? && FindFirst(schema.columns, e.name).Some?
  }

  lemma BindConditionIff(condition: Option<Expression>, schema: TableSchema)
    requires WellFormedSchema(schema)
    ensures BindCondition(condition, schema).Ok? <==> condition.None? || WellTyped(condition.value, schema)
    ensures !BindCondition(condition, schema).Abort?
  {
    hide BindExpression, PredicateValid, WellTyped;
    if condition.Some? {
      AcceptedIffWellTyped(condition.value, schema);
    }
  }

  lemma BindSelectIff(s: Statement, w: World)
    requires WorldOk(w) && s.Select?
    ensures !Bind(s, w).Abort?
    ensures Bind(s, w).Ok? <==>
      var p := NamedPlace(s.table, w);
      && Exists(p, w)
      && (s.condition.None? || WellTyped(s.condition.value, TableAt(p, w).schema))
      && (s.selectAll || forall i | 0 <= i < |s.columns| :: IsColumnOf(s.columns[i], TableAt(p, w).schema))
  {
    hide WellTyped, BindCondition, ColumnOrdinals, WellFormedSchema, IsColumnOf;
    var db, p := CurrentDatabase(w), NamedPlace(s.table, w);
    if Exists(p, w) {
      assert TablesOk(db[p.schemaName]);
      BindConditionIff(s.condition, TableAt(p, w).schema);
      ColumnOrdinalsIff(TableAt(p, w).schema, s.columns);
    }
  }

  /**
   * A SELECT succeeds exactly if its table exists, its condition is well-typed, and every item it asks
   * for is a column of the table.
   */
  lemma SelectSucceedsIff(s: Statement, w: World)
    requires WorldOk(w) && s.Select?
    ensures RunStatement(s, w).0.Ok? <==>
      var p := NamedPlace(s.table, w);
      && Exists(p, w)
      && (s.condition.None? || WellTyped(s.condition.value, TableAt(p, w).schema))
      && (s.selectAll || forall i | 0 <= i < |s.columns| :: IsColumnOf(s.columns[i], TableAt(p, w).schema))
  {
    hide Bind, Execute, WellTyped, IsColumnOf, Exists;
    BindSelectIff(s, w);
    if Bind(s, w).Ok? {
      BoundSelectStill(s, w, w);
    }
  }

  /** Binding never aborts, whatever the statement. */
  lemma BindNeverAborts(s: Statement, w: World)
    requires WorldOk(w)
    ensures !Bind(s, w).Abort?
  {
    hide Literals, BindCondition, ColumnOrdinals, ValidRow;
    match s
    case Select(_, _, _, _) => BindSelectIff(s, w);
    case Insert(_, values) => LiteralsIff(values);
    case _ =>
  }
}
