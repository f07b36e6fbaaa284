/**
 * What a WHERE expression means, by column name, and why binding, validating and evaluating it
 * computes that meaning without ever failing.
 */
module PredicateMeaning {
  import opened Prelude
  import opened Ast
  import opened Values
  import opened Schema
  import opened BoundExpressions

  // ----- typing, without bound expressions -----

  function TypeOfColumn(schema: TableSchema, name: string): Option<LogicalType> {
    match FindFirst(schema.columns, name)
    case None => None
    case Some(i) => Some(schema.columns[i].columnType)
  }

  /** The type of a literal or of a column of the schema; no other expression is an operand. */
  function OperandType(e: Expression, schema: TableSchema): Option<LogicalType> {
    match e
    case IntegerLiteral(_) => Some(IntType)
    case StringLiteral(_) => Some(TextType)
    case ColumnRef(name) => TypeOfColumn(schema, name)
    case Binary(_, _, _) => None
  }

  predicate IsOrderingOperator(op: BinaryOperator) {
    op.Less? || op.LessEqual? || op.Greater? || op.GreaterEqual?
  }

  /** Comparisons of operands of one type, integers if ordered, combined by AND and OR. */
  predicate WellTyped(e: Expression, schema: TableSchema) {
    match e
    case Binary(op, left, right) =>
      if op.And? || op.Or? then WellTyped(left, schema) && WellTyped(right, schema)
      else
        && OperandType(left, schema).Some?
        && OperandType(left, schema) == OperandType(right, schema)
        && (IsOrderingOperator(op) ==> OperandType(left, schema) == Some(IntType))
    case _ => false
  }

  // ----- meaning, by column name -----

  /** The values of a row by column name. */
  function NamedRow(columns: seq<ColumnSchema>, row: Row): map<string, Value>
    requires |columns| == |row|
  {
    if columns == [] then map[]
    else
      var last := |columns| - 1;
      NamedRow(columns[..last], row[..last])[columns[last].name := row[last]]
  }

  function OperandValue(e: Expression, named: map<string, Value>): Option<Payload> {
    match e
    case IntegerLiteral(n) => Some(IntPayload(n))
    case StringLiteral(lexeme) => Some(TextPayload(Decode(lexeme)))
    case ColumnRef(name) => if name in named then Some(named[name].payload) else None
    case Binary(_, _, _) => None
  }

  predicate ComparisonHolds(op: BinaryOperator, a: Payload, b: Payload) {
    match op
    case Equal => a == b
    case NotEqual => a != b
    case Less => a.IntPayload? && b.IntPayload? && a.int64 < b.int64
    case LessEqual => a.IntPayload? && b.IntPayload? && a.int64 <= b.int64
    case Greater => a.IntPayload? && b.IntPayload? && a.int64 > b.int64
    case GreaterEqual => a.IntPayload? && b.IntPayload? && a.int64 >= b.int64
    case _ => false
  }

  predicate Holds(e: Expression, named: map<string, Value>) {
    match e
    case Binary(op, left, right) =>
      if op.And? then Holds(left, named) && Holds(right, named)
      else if op.Or? then Holds(left, named) || Holds(right, named)
      else
        var a, b := OperandValue(left, named), OperandValue(right, named);
        a.Some? && b.Some? && ComparisonHolds(op, a.value, b.value)
    case _ => false
  }

  // ----- rows by name and by position -----

  lemma {:induction false} NamedRowAt(columns: seq<ColumnSchema>, row: Row, i: nat)
    requires |columns| == |row| && i < |columns|
    requires forall j, k | 0 <= j < k < |columns| :: columns[j].name != columns[k].name
    ensures columns[i].name in NamedRow(columns, row) && NamedRow(columns, row)[columns[i].name] == row[i]
    decreases |columns|
  {
    var last := |columns| - 1;
    if i < last {
      NamedRowAt(columns[..last], row[..last], i);
    }
  }

  /** With distinct names, the column found by name is the one whose value is found by name. */
  lemma FoundByName(schema: TableSchema, row: Row, name: string)
    requires ValidRow(row, schema) && !HasDuplicates(schema) && FindFirst(schema.columns, name).Some?
    ensures var i := FindFirst(schema.columns, name).value;
      name in NamedRow(schema.columns, row) && NamedRow(schema.columns, row)[name] == row[i]
  {
    NamedRowAt(schema.columns, row, FindFirst(schema.columns, name).value);
  }

  // ----- acceptance -----

  /** Exactly the literals and the columns of the schema are bound to operands, and with their types. */
  lemma BindOperand(e: Expression, schema: TableSchema)
    requires OrdinalsArePositions(schema)
    ensures BindExpression(e, schema).Ok? && IsOperand(BindExpression(e, schema).value)
      <==> OperandType(e, schema).Some?
    ensures OperandType(e, schema).Some? ==>
      var b := BindExpression(e, schema).value;
      Some(ExpressionType(b)) == OperandType(e, schema) && OrdinalsValid(b, |schema.columns|)
  {
  }

  /** Binding followed by validation accepts exactly the well-typed predicates, and never aborts. */
  lemma {:induction false} AcceptedIffWellTyped(e: Expression, schema: TableSchema)
    requires OrdinalsArePositions(schema)
    ensures !BindExpression(e, schema).Abort?
    ensures BindExpression(e, schema).Ok? && PredicateValid(BindExpression(e, schema).value) <==> WellTyped(e, schema)
    ensures WellTyped(e, schema) ==> OrdinalsValid(BindExpression(e, schema).value, |schema.columns|)
  {
    match e
    case Binary(op, left, right) =>
      AcceptedIffWellTyped(left, schema);
      AcceptedIffWellTyped(right, schema);
      if !(op.And? || op.Or?) {
        ComparisonAcceptedIff(op, left, right, schema);
      }
    case _ =>
  }

  lemma BindComparison(op: BinaryOperator, left: Expression, right: Expression, schema: TableSchema)
    requires OrdinalsArePositions(schema) && !op.And? && !op.Or?
    ensures var a, b, o := BindExpression(left, schema), BindExpression(right, schema), ToBoundComparison(op);
      && (BindExpression(Binary(op, left, right), schema).Ok? <==>
        a.Ok? && b.Ok? && ComparisonAccepted(a.value, b.value, o))
      && (a.Ok? && b.Ok? && ComparisonAccepted(a.value, b.value, o) ==>
        BindExpression(Binary(op, left, right), schema) == Ok(ComparisonNode(o, a.value, b.value)))
  {
    hide ComparisonAccepted, ToBoundComparison, ColumnIndex, FromExpression, ComparisonNode, OrdinalsDefined;
  }

  lemma ComparisonAcceptedIff(op: BinaryOperator, left: Expression, right: Expression, schema: TableSchema)
    requires OrdinalsArePositions(schema) && !op.And? && !op.Or?
    ensures var e := Binary(op, left, right);
      BindExpression(e, schema).Ok? && PredicateValid(BindExpression(e, schema).value) <==> WellTyped(e, schema)
    ensures WellTyped(Binary(op, left, right), schema) ==>
      OrdinalsValid(BindExpression(Binary(op, left, right), schema).value, |schema.columns|)
  {
    hide BindExpression, OperandType, ExpressionType, IsOperand;
    BindOperand(left, schema);
    BindOperand(right, schema);
    BindComparison(op, left, right, schema);
  }

  // ----- evaluation -----

  /** A bound operand evaluates to the value its expression has by name, with the type it was given. */
  lemma OperandEvaluates(e: Expression, schema: TableSchema, row: Row)
    requires OrdinalsArePositions(schema) && !HasDuplicates(schema) && ValidRow(row, schema)
    requires OperandType(e, schema).Some?
    ensures BindExpression(e, schema).Ok? && EvaluateValue(BindExpression(e, schema).value, row).Ok?
    ensures var v := EvaluateValue(BindExpression(e, schema).value, row).value;
      && ValidCell(v, OperandType(e, schema).value)
      && OperandValue(e, NamedRow(schema.columns, row)) == Some(v.payload)
  {
    match e
    case ColumnRef(name) =>
      FoundByName(schema, row, name);
      var i := FindFirst(schema.columns, name).value;
      assert ValidCell(row[i], schema.columns[i].columnType);
    case _ =>
  }

  /** On values of one type, the comparison of values is the comparison of payloads. */
  lemma CompareMeaning(op: BinaryOperator, a: Value, b: Value, t: LogicalType)
    requires !op.And? && !op.Or? && ValidCell(a, t) && ValidCell(b, t)
    requires IsOrderingOperator(op) ==> t == IntType
    ensures CompareValues(ToBoundComparison(op), a, b) == Ok(ComparisonHolds(op, a.payload, b.payload))
  {
  }

  /**
   * Soundness and preservation of meaning: on every row of the table, an accepted predicate
   * evaluates, without error or wrong-payload access, to its meaning by column name.
   */
  lemma {:induction false} EvaluateMeaning(e: Expression, schema: TableSchema, row: Row)
    requires OrdinalsArePositions(schema) && !HasDuplicates(schema) && ValidRow(row, schema)
    requires WellTyped(e, schema)
    ensures BindExpression(e, schema).Ok?
    ensures Evaluate(BindExpression(e, schema).value, row) == Ok(Holds(e, NamedRow(schema.columns, row)))
  {
    var op, left, right := e.op, e.left, e.right;
    if op.And? || op.Or? {
      EvaluateMeaning(left, schema, row);
      EvaluateMeaning(right, schema, row);
    } else {
      AcceptedIffWellTyped(e, schema);
      OperandEvaluates(left, schema, row);
      OperandEvaluates(right, schema, row);
      var a := EvaluateValue(BindExpression(left, schema).value, row).value;
      var b := EvaluateValue(BindExpression(right, schema).value, row).value;
      CompareMeaning(op, a, b, OperandType(left, schema).value);
    }
  }

  /**
   * Without the type check evaluation could abort: comparing two operands, of whatever types, reads a
   * wrong payload exactly if two texts are ordered, and no such comparison is well-typed. Operands of
   * different types would compare as false, whatever the operator.
   */
  lemma UncheckedAbortsIff(op: BinaryOperator, left: Expression, right: Expression, schema: TableSchema, row: Row)
    requires OrdinalsArePositions(schema) && !HasDuplicates(schema) && ValidRow(row, schema)
    requires !op.And? && !op.Or? && OperandType(left, schema).Some? && OperandType(right, schema).Some?
    ensures BindExpression(left, schema).Ok? && BindExpression(right, schema).Ok?
    ensures var a, b := BindExpression(left, schema).value, BindExpression(right, schema).value;
      var unchecked := ComparisonNode(ToBoundComparison(op), a, b);
      && (Evaluate(unchecked, row).Abort? <==>
        IsOrderingOperator(op) && OperandType(left, schema) == OperandType(right, schema) == Some(TextType))
      && (Evaluate(unchecked, row).Abort? ==> !WellTyped(Binary(op, left, right), schema))
      && (OperandType(left, schema) != OperandType(right, schema) ==> Evaluate(unchecked, row) == Ok(false))
  {
    hide BindExpression, NamedRow, ValidRow;
    OperandEvaluates(left, schema, row);
    OperandEvaluates(right, schema, row);
  }
}
