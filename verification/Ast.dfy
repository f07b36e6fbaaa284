/** The syntax trees of src/frontend/ast.hpp and src/catalog/table_reference.hpp. */
module Ast {
  import opened Prelude

  type Int64 = x: int | -0x8000_0000_0000_0000 <= x < 0x8000_0000_0000_0000

  datatype LogicalType = IntType | TextType

  datatype BinaryOperator =
    | Equal
    | NotEqual
    | Less
    | LessEqual
    | Greater
    | GreaterEqual
    | And
    | Or

  datatype Expression =
    | ColumnRef(name: string)
    | IntegerLiteral(value: Int64)
    | StringLiteral(lexeme: string)
    | Binary(op: BinaryOperator, left: Expression, right: Expression)

  datatype ColumnDefinition = ColumnDefinition(name: string, columnType: LogicalType)

  /** An empty schema name stands for an unqualified reference. */
  datatype TableReference = TableReference(schema: string, table: string)

  datatype Statement =
    | Select(selectAll: bool, columns: seq<Expression>, table: TableReference, condition: Option<Expression>)
    | CreateTable(table: TableReference, definitions: seq<ColumnDefinition>)
    | CreateSchema(schema: string)
    | CreateDatabase(database: string)
    | Insert(table: TableReference, values: seq<Expression>)

  const PUBLIC_SCHEMA := "public"
  const DEFAULT_DATABASE := "main"

  function ResolveSchemaName(schema: string): string {
    if schema == "" then PUBLIC_SCHEMA else schema
  }
}
