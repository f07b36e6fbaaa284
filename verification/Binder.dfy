/** The binder (src/catalog/binder.cpp): it reads the session and changes nothing. */
module Binder {
  import opened Prelude
  import opened Ast
  import opened Values
  import opened Schema
  import opened BoundExpressions
  import opened CatalogModel
  import opened Sessions

  method LiteralValue(e: Expression) returns (r: Outcome<Value>)
    ensures r == FromExpression(e)
  {
    match e {
      case IntegerLiteral(n) => r := Ok(FromInt(n));
      case StringLiteral(lexeme) =>
        var text := DecodeStringLiteral(lexeme);
        r := Ok(FromText(text));
      case _ => r := Fail;
    }
  }

  lemma {:induction false} LiteralsPrefix(values: seq<Expression>, n: nat)
    requires n <= |values| && Literals(values[..n]) == Fail
    ensures Literals(values) == Fail
  {
    if n == |values| {
      assert values[..n] == values;
    } else {
      var last := |values| - 1;
      assert values[..last][..n] == values[..n];
      LiteralsPrefix(values[..last], n);
    }
  }

  method BindLiterals(values: seq<Expression>) returns (r: Outcome<Row>)
    ensures r == Literals(values)
  {
    var row: Row := [];
    for i := 0 to |values|
      invariant Literals(values[..i]) == Ok(row)
    {
      assert values[..i + 1][..i] == values[..i];
      if !IsLiteral(values[i]) {
        LiteralsPrefix(values, i + 1);
        return Fail;
      }
      var value := LiteralValue(values[i]);
      row := row + [value.value];
    }
    assert values[..|values|] == values;
    return Ok(row);
  }

  lemma {:induction false} OrdinalsPrefix(schema: TableSchema, columns: seq<Expression>, n: nat)
    requires n <= |columns| && ColumnOrdinals(schema, columns[..n]) == Fail
    ensures ColumnOrdinals(schema, columns) == Fail
  {
    if n == |columns| {
      assert columns[..n] == columns;
    } else {
      var last := |columns| - 1;
      assert columns[..last][..n] == columns[..n];
      OrdinalsPrefix(schema, columns[..last], n);
    }
  }

  method BindColumns(schema: TableSchema, columns: seq<Expression>) returns (r: Outcome<seq<nat>>)
    ensures r == ColumnOrdinals(schema, columns)
  {
    var ordinals: seq<nat> := [];
    for i := 0 to |columns|
      invariant ColumnOrdinals(schema, columns[..i]) == Ok(ordinals)
    {
      assert columns[..i + 1][..i] == columns[..i];
      if !columns[i].ColumnRef? {
        OrdinalsPrefix(schema, columns, i + 1);
        return Fail;
      }
      var column := FindColumn(schema, columns[i].name);
      if column.None? {
        OrdinalsPrefix(schema, columns, i + 1);
        return Fail;
      }
      ordinals := ordinals + [column.value.ordinal];
    }
    assert columns[..|columns|] == columns;
    return Ok(ordinals);
  }

  method BindAllColumns(schema: TableSchema) returns (ordinals: seq<nat>)
    ensures ordinals == AllOrdinals(schema)
  {
    ordinals := [];
    for i := 0 to |schema.columns|
      invariant ordinals == AllOrdinals(schema)[..i]
    {
      ordinals := ordinals + [schema.columns[i].ordinal];
    }
  }

  method BindCreateTable(session: Session, reference: TableReference, definitions: seq<ColumnDefinition>)
    returns (r: Outcome<BoundStatement>)
    requires session.Valid()
    ensures r == CatalogModel.Bind(CreateTable(reference, definitions), session.world)
    ensures r.Ok? ==> r.value.BoundCreateTable? && OrdinalsArePositions(r.value.schema)
  {
    hide WorldOk, Session.Valid, Catalogs;
    var schemaName := ResolveSchemaName(reference.schema);
    if !session.SchemaExists(schemaName) {
      return Fail;
    }
    if session.FindTable(schemaName, reference.table).Some? {
      return Fail;
    }
    var schema := TableSchemaFromAst(reference, definitions);
    return Ok(BoundCreateTable(schemaName, schema));
  }

  method BindCreateSchema(session: Session, name: string) returns (r: Outcome<BoundStatement>)
    requires session.Valid()
    ensures r == CatalogModel.Bind(CreateSchema(name), session.world)
  {
    hide WorldOk, Session.Valid;
    if session.SchemaExists(name) {
      return Fail;
    }
    return Ok(BoundCreateSchema(name));
  }

  method BindCreateDatabase(session: Session, name: string) returns (r: Outcome<BoundStatement>)
    requires session.Valid()
    ensures r == CatalogModel.Bind(CreateDatabase(name), session.world)
  {
    hide WorldOk, Session.Valid;
    if session.DatabaseExists(name) {
      return Fail;
    }
    return Ok(BoundCreateDatabase(name));
  }

  method BindInsert(session: Session, reference: TableReference, values: seq<Expression>)
    returns (r: Outcome<BoundStatement>)
    requires session.Valid()
    ensures r == CatalogModel.BindInsert(reference, values, CurrentDatabase(session.world))
  {
    hide ValidRow, Literals, WorldOk, Session.Valid;
    var schemaName := ResolveSchemaName(reference.schema);
    if session.FindTable(schemaName, reference.table).None? {
      return Fail;
    }
    var row := BindLiterals(values);
    if !row.Ok? {
      return row.PropagateFailure();
    }
    var status := session.ValidateInsert(schemaName, reference.table, row.value);
    if status.Failure? {
      return Fail;
    }
    return Ok(BoundInsert(schemaName, reference.table, row.value));
  }

  method BindWhere(condition: Option<Expression>, schema: TableSchema) returns (r: Outcome<Option<BoundExpression>>)
    requires OrdinalsDefined(schema)
    ensures r == BindCondition(condition, schema)
  {
    hide BindExpression, PredicateValid;
    if condition.None? {
      return Ok(None);
    }
    var bound := BindExpression(condition.value, schema);
    if !bound.Ok? {
      return bound.PropagateFailure();
    }
    if !PredicateValid(bound.value) {
      return Fail;
    }
    return Ok(Some(bound.value));
  }

  method BindSelect(session: Session, selectAll: bool, columns: seq<Expression>, reference: TableReference,
                    condition: Option<Expression>) returns (r: Outcome<BoundStatement>)
    requires session.Valid()
    ensures r == CatalogModel.BindSelect(selectAll, columns, reference, condition, CurrentDatabase(session.world))
  {
    var schemaName := ResolveSchemaName(reference.schema);
    var table := session.FindTable(schemaName, reference.table);
    if table.None? {
      return Fail;
    }
    var schema := table.value;
    assert TablesOk(CurrentDatabase(session.world)[schemaName]);
    hide Session.Valid, WorldOk, TablesOk, BindCondition, AllOrdinals, ColumnOrdinals;
    var bound := BindWhere(condition, schema);
    if !bound.Ok? {
      return bound.PropagateFailure();
    }
    var ordinals: seq<nat>;
    if selectAll {
      ordinals := BindAllColumns(schema);
    } else {
      var found := BindColumns(schema, columns);
      if !found.Ok? {
        return found.PropagateFailure();
      }
      ordinals := found.value;
    }
    return Ok(BoundSelect(schemaName, reference.table, selectAll, ordinals, bound.value));
  }

  method Bind(session: Session, statement: Statement) returns (r: Outcome<BoundStatement>)
    requires session.Valid()
    ensures r == CatalogModel.Bind(statement, session.world)
    ensures r.Ok? && r.value.BoundCreateTable? ==> OrdinalsArePositions(r.value.schema)
  {
    hide WorldOk, Session.Valid, CatalogModel.BindInsert, CatalogModel.BindSelect;
    match statement {
      case CreateTable(reference, definitions) => r := BindCreateTable(session, reference, definitions);
      case CreateSchema(name) => r := BindCreateSchema(session, name);
      case CreateDatabase(name) => r := BindCreateDatabase(session, name);
      case Insert(reference, values) => r := BindInsert(session, reference, values);
      case Select(selectAll, columns, reference, condition) =>
        r := BindSelect(session, selectAll, columns, reference, condition);
    }
  }
}
