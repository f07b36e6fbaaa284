/** Table schemas (src/catalog/schema.cpp) and row validation (src/storage/row.cpp). */
module Schema {
  import opened Prelude
  import opened Ast
  import opened Values

  datatype ColumnSchema = ColumnSchema(name: string, columnType: LogicalType, ordinal: nat)

  datatype TableSchema = TableSchema(name: string, columns: seq<ColumnSchema>)

  /** The position of the first column called `name`. */
  function FindFirst(columns: seq<ColumnSchema>, name: string): (r: Option<nat>)
    ensures r.Some? ==> r.value < |columns| && columns[r.value].name == name
    ensures r.Some? ==> forall i | 0 <= i < r.value :: columns[i].name != name
    ensures r.None? ==> forall i | 0 <= i < |columns| :: columns[i].name != name
  {
    if columns == [] then None
    else if columns[0].name == name then Some(0)
    else
      match FindFirst(columns[1..], name)
      case None =>
        assert forall i | 0 < i < |columns| :: columns[i] == columns[1..][i - 1];
        None
      case Some(k) =>
        assert forall i | 0 < i < |columns| :: columns[i] == columns[1..][i - 1];
        Some(k + 1)
  }

  method FindColumn(schema: TableSchema, name: string) returns (r: Option<ColumnSchema>)
    ensures match FindFirst(schema.columns, name)
      case None => r == None
      case Some(i) => r == Some(schema.columns[i])
  {
    for i := 0 to |schema.columns|
      invariant forall j | 0 <= j < i :: schema.columns[j].name != name
    {
      if schema.columns[i].name == name {
        return Some(schema.columns[i]);
      }
    }
    return None;
  }

  function ColumnIndex(schema: TableSchema, name: string): Option<nat> {
    match FindFirst(schema.columns, name)
    case None => None
    case Some(i) => Some(schema.columns[i].ordinal)
  }

  predicate OrdinalsArePositions(schema: TableSchema) {
    forall i | 0 <= i < |schema.columns| :: schema.columns[i].ordinal == i
  }

  ghost predicate HasDuplicates(schema: TableSchema) {
    exists i, j | 0 <= i < j < |schema.columns| :: schema.columns[i].name == schema.columns[j].name
  }

  /** The schemas a catalog built from SQL holds. */
  ghost predicate WellFormedSchema(schema: TableSchema) {
    schema.name != "" && schema.columns != [] && OrdinalsArePositions(schema) && !HasDuplicates(schema)
  }

  method HasDuplicateColumns(schema: TableSchema) returns (r: bool)
    ensures r <==> HasDuplicates(schema)
  {
    for left := 0 to |schema.columns|
      invariant forall i, j | 0 <= i < left && i < j < |schema.columns| ::
        schema.columns[i].name != schema.columns[j].name
    {
      for right := left + 1 to |schema.columns|
        invariant forall j | left < j < right :: schema.columns[left].name != schema.columns[j].name
      {
        if schema.columns[left].name == schema.columns[right].name {
          return true;
        }
      }
    }
    return false;
  }

  function SchemaColumns(definitions: seq<ColumnDefinition>): seq<ColumnSchema> {
    seq(|definitions|, i requires 0 <= i < |definitions| =>
      ColumnSchema(definitions[i].name, definitions[i].columnType, i))
  }

  function SchemaOf(table: TableReference, definitions: seq<ColumnDefinition>): TableSchema {
    TableSchema(table.table, SchemaColumns(definitions))
  }

  method TableSchemaFromAst(table: TableReference, definitions: seq<ColumnDefinition>)
    returns (schema: TableSchema)
    ensures schema == SchemaOf(table, definitions)
    ensures OrdinalsArePositions(schema)
  {
    var columns := [];
    for index := 0 to |definitions|
      invariant columns == SchemaColumns(definitions)[..index]
    {
      columns := columns + [ColumnSchema(definitions[index].name, definitions[index].columnType, index)];
    }
    schema := TableSchema(table.table, columns);
  }

  // ----- rows -----

  predicate ValidCell(value: Value, columnType: LogicalType) {
    value.tag == columnType && value.PayloadMatchesTag()
  }

  predicate ValidRow(row: Row, schema: TableSchema) {
    |row| == |schema.columns| && forall i | 0 <= i < |row| :: ValidCell(row[i], schema.columns[i].columnType)
  }

  predicate RowsValid(rows: seq<Row>, schema: TableSchema) {
    forall i | 0 <= i < |rows| :: ValidRow(rows[i], schema)
  }

  method ValidateValues(values: Row, schema: TableSchema) returns (status: Status)
    ensures status.Success? <==> ValidRow(values, schema)
  {
    if |values| != |schema.columns| {
      return Failure;
    }
    for index := 0 to |values|
      invariant forall i | 0 <= i < index :: ValidCell(values[i], schema.columns[i].columnType)
    {
      if values[index].tag != schema.columns[index].columnType {
        return Failure;
      }
      if !values[index].PayloadMatchesTag() {
        return Failure;
      }
    }
    return Success;
  }
}
