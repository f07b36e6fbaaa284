/** The executor (src/execution/executor.cpp): it changes the session's catalogs. */
module Executor {
  import opened Prelude
  import opened Values
  import opened Schema
  import opened TableLayout
  import opened TableStorages
  import opened BoundExpressions
  import opened CatalogModel
  import opened Sessions

  method ExecuteCreateTable(session: Session, schemaName: string, schema: TableSchema)
    returns (r: Outcome<ExecutionResult>)
    requires session.Valid() && OrdinalsArePositions(schema)
    modifies session.Repr
    ensures session.Valid() && fresh(session.Repr - old(session.Repr))
    ensures (r, session.world) == CatalogModel.Execute(BoundCreateTable(schemaName, schema), old(session.world))
  {
    hide Session.Valid, WorldOk, TableAccepted;
    var status := session.CreateTable(schemaName, schema);
    return if status.Failure? then Fail else Ok(Done);
  }

  method ExecuteCreateSchema(session: Session, name: string) returns (r: Outcome<ExecutionResult>)
    requires session.Valid()
    modifies session.Repr
    ensures session.Valid() && fresh(session.Repr - old(session.Repr))
    ensures (r, session.world) == CatalogModel.Execute(BoundCreateSchema(name), old(session.world))
  {
    hide Session.Valid, WorldOk;
    var status := session.CreateSchema(name);
    return if status.Failure? then Fail else Ok(Done);
  }

  method ExecuteCreateDatabase(session: Session, name: string) returns (r: Outcome<ExecutionResult>)
    requires session.Valid()
    modifies session.Repr
    ensures session.Valid() && fresh(session.Repr - old(session.Repr))
    ensures (r, session.world) == CatalogModel.Execute(BoundCreateDatabase(name), old(session.world))
  {
    hide Session.Valid, WorldOk;
    var status := session.CreateDatabase(name);
    return if status.Failure? then Fail else Ok(Done);
  }

  method ExecuteInsert(session: Session, schemaName: string, tableName: string, values: Row)
    returns (r: Outcome<ExecutionResult>)
    requires session.Valid()
    modifies session.Repr
    ensures session.Valid() && fresh(session.Repr - old(session.Repr))
    ensures (r, session.world) == CatalogModel.Execute(BoundInsert(schemaName, tableName, values), old(session.world))
  {
    hide Session.Valid, WorldOk, ValidRow;
    if session.FindTable(schemaName, tableName).None? {
      return Fail;
    }
    var status := session.Insert(schemaName, tableName, values);
    return if status.Failure? then Fail else Ok(Done);
  }

  // ----- SELECT -----

  method CheckOrdinals(ordinals: seq<nat>, columnCount: nat) returns (inRange: bool)
    ensures inRange <==> forall i | 0 <= i < |ordinals| :: ordinals[i] < columnCount
  {
    for i := 0 to |ordinals|
      invariant forall j | 0 <= j < i :: ordinals[j] < columnCount
    {
      if ordinals[i] >= columnCount {
        return false;
      }
    }
    return true;
  }

  method ColumnNames(schema: TableSchema, ordinals: seq<nat>) returns (names: seq<string>)
    requires OrdinalsInRange(ordinals, schema)
    ensures names == OrdinalNames(schema, ordinals)
  {
    names := [];
    for i := 0 to |ordinals|
      invariant names == OrdinalNames(schema, ordinals)[..i]
    {
      names := names + [schema.columns[ordinals[i]].name];
    }
  }

  method Project(row: Row, ordinals: seq<nat>) returns (projected: Row)
    requires forall i | 0 <= i < |ordinals| :: ordinals[i] < |row|
    ensures projected == ProjectRow(row, ordinals)
  {
    projected := [];
    for i := 0 to |ordinals|
      invariant projected == ProjectRow(row, ordinals)[..i]
    {
      projected := projected + [row[ordinals[i]]];
    }
  }

  /** A failure among the first rows is the outcome for all of them. */
  lemma {:induction false} CollectFailure(rows: seq<Row>, condition: Option<BoundExpression>, ordinals: seq<nat>,
                                          width: nat, n: nat)
    requires n <= |rows| && forall i | 0 <= i < |rows| :: |rows[i]| == width
    requires forall i | 0 <= i < |ordinals| :: ordinals[i] < width
    requires !Collect(rows[..n], condition, ordinals, width).Ok?
    ensures Collect(rows, condition, ordinals, width) == Collect(rows[..n], condition, ordinals, width)
  {
    if n == |rows| {
      assert rows[..n] == rows;
    } else {
      var last := |rows| - 1;
      assert rows[..last][..n] == rows[..n];
      CollectFailure(rows[..last], condition, ordinals, width, n);
    }
  }

  /** The callback of the scan, row by row: after an evaluation error it ignores the remaining rows. */
  method CollectRows(visited: seq<Row>, condition: Option<BoundExpression>, ordinals: seq<nat>, width: nat)
    returns (r: Outcome<seq<Row>>)
    requires forall i | 0 <= i < |visited| :: |visited[i]| == width
    requires forall i | 0 <= i < |ordinals| :: ordinals[i] < width
    ensures r == Collect(visited, condition, ordinals, width)
  {
    hide Evaluate, ProjectRow;
    var rows: seq<Row> := [];
    var evaluationError := false;
    for i := 0 to |visited|
      invariant Collect(visited[..i], condition, ordinals, width) == if evaluationError then Fail else Ok(rows)
    {
      assert visited[..i + 1][..i] == visited[..i];
      if evaluationError {
        continue;
      }
      if condition.Some? {
        var matches := Evaluate(condition.value, visited[i]);
        if matches.Abort? {
          CollectFailure(visited, condition, ordinals, width, i + 1);
          return Abort;
        }
        if matches.Fail? {
          evaluationError := true;
          continue;
        }
        if !matches.value {
          continue;
        }
      }
      var projected := Project(visited[i], ordinals);
      rows := rows + [projected];
    }
    assert visited[..|visited|] == visited;
    return if evaluationError then Fail else Ok(rows);
  }

  method ExecuteSelect(session: Session, schemaName: string, tableName: string, ordinals: seq<nat>,
                       condition: Option<BoundExpression>, ghost selectAll: bool)
    returns (r: Outcome<ExecutionResult>)
    requires session.Valid()
    ensures var b := BoundSelect(schemaName, tableName, selectAll, ordinals, condition);
      (r, session.world) == CatalogModel.Execute(b, session.world)
  {
    hide Session.Valid, WorldOk, Scan, Collect, PredicateValid, OrdinalsValid;
    var table := session.FindTable(schemaName, tableName);
    if table.None? {
      return Fail;
    }
    var inRange := CheckOrdinals(ordinals, |table.value.columns|);
    if !inRange {
      return Fail;
    }
    if condition.Some? {
      if !PredicateValid(condition.value) {
        return Fail;
      }
      if !OrdinalsValid(condition.value, |table.value.columns|) {
        return Fail;
      }
    }
    var names := ColumnNames(table.value, ordinals);
    var status, visited := session.ForEachRow(schemaName, tableName);
    var rows := CollectRows(visited, condition, ordinals, |table.value.columns|);
    if !rows.Ok? {
      return rows.PropagateFailure();
    }
    return Ok(Rows(names, rows.value));
  }

  method Execute(session: Session, bound: BoundStatement) returns (r: Outcome<ExecutionResult>)
    requires session.Valid()
    requires bound.BoundCreateTable? ==> OrdinalsArePositions(bound.schema)
    modifies session.Repr
    ensures session.Valid() && fresh(session.Repr - old(session.Repr))
    ensures (r, session.world) == CatalogModel.Execute(bound, old(session.world))
  {
    hide Session.Valid, WorldOk, CatalogModel.Execute;
    match bound {
      case BoundCreateTable(schemaName, schema) => r := ExecuteCreateTable(session, schemaName, schema);
      case BoundCreateSchema(name) => r := ExecuteCreateSchema(session, name);
      case BoundCreateDatabase(name) => r := ExecuteCreateDatabase(session, name);
      case BoundInsert(schemaName, tableName, values) => r := ExecuteInsert(session, schemaName, tableName, values);
      case BoundSelect(schemaName, tableName, selectAll, ordinals, condition) =>
        r := ExecuteSelect(session, schemaName, tableName, ordinals, condition, selectAll);
    }
  }
}
