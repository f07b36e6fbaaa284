/** Bound predicates: binding, validation and evaluation (src/catalog/bound_expr.cpp). */
module BoundExpressions {
  import opened Prelude
  import opened Ast
  import opened Values
  import opened Schema

  datatype BoundOperator = Equal | NotEqual | Less | LessEqual | Greater | GreaterEqual

  datatype BoundKind = LiteralKind | ColumnRefKind | ComparisonKind | AndKind | OrKind

  /** One record for every kind of node, as in the source; operands may be missing. */
  datatype BoundExpression = BoundExpression(
    kind: BoundKind,
    literal: Value,
    ordinal: nat,
    columnType: LogicalType,
    op: BoundOperator,
    left: Option<BoundExpression>,
    right: Option<BoundExpression>)

  function LiteralNode(value: Value): BoundExpression {
    BoundExpression(LiteralKind, value, 0, IntType, BoundOperator.Equal, None, None)
  }

  function ColumnNode(ordinal: nat, columnType: LogicalType): BoundExpression {
    BoundExpression(ColumnRefKind, FromInt(0), ordinal, columnType, BoundOperator.Equal, None, None)
  }

  function ComparisonNode(op: BoundOperator, left: BoundExpression, right: BoundExpression): BoundExpression {
    BoundExpression(ComparisonKind, FromInt(0), 0, IntType, op, Some(left), Some(right))
  }

  function LogicalNode(kind: BoundKind, left: BoundExpression, right: BoundExpression): BoundExpression {
    BoundExpression(kind, FromInt(0), 0, IntType, BoundOperator.Equal, Some(left), Some(right))
  }

  // ----- binding -----

  function ToBoundComparison(op: BinaryOperator): BoundOperator {
    match op
    case NotEqual => BoundOperator.NotEqual
    case Less => BoundOperator.Less
    case LessEqual => BoundOperator.LessEqual
    case Greater => BoundOperator.Greater
    case GreaterEqual => BoundOperator.GreaterEqual
    case _ => BoundOperator.Equal
  }

  function ExpressionType(b: BoundExpression): LogicalType {
    match b.kind
    case LiteralKind => b.literal.tag
    case ColumnRefKind => b.columnType
    case _ => IntType
  }

  predicate IsOrdering(op: BoundOperator) {
    op.Less? || op.LessEqual? || op.Greater? || op.GreaterEqual?
  }

  predicate ComparisonAccepted(left: BoundExpression, right: BoundExpression, op: BoundOperator) {
    && ExpressionType(left) == ExpressionType(right)
    && (IsOrdering(op) ==> ExpressionType(left) == IntType)
  }

  /** Reading `schema.columns[ordinal]` is defined only for ordinals that are positions. */
  predicate OrdinalsDefined(schema: TableSchema) {
    forall i | 0 <= i < |schema.columns| :: schema.columns[i].ordinal < |schema.columns|
  }

  function BindExpression(e: Expression, schema: TableSchema): Outcome<BoundExpression>
    requires OrdinalsDefined(schema)
  {
    match e
    case IntegerLiteral(n) => Ok(LiteralNode(FromInt(n)))
    case StringLiteral(_) =>
      var literal :- FromExpression(e);
      Ok(LiteralNode(literal))
    case ColumnRef(name) =>
      (match ColumnIndex(schema, name)
       case None => Fail
       case Some(ordinal) => Ok(ColumnNode(ordinal, schema.columns[ordinal].columnType)))
    case Binary(op, l, r) =>
      var left :- BindExpression(l, schema);
      var right :- BindExpression(r, schema);
      if op == BinaryOperator.And then Ok(LogicalNode(AndKind, left, right))
      else if op == BinaryOperator.Or then Ok(LogicalNode(OrKind, left, right))
      else if ComparisonAccepted(left, right, ToBoundComparison(op)) then
        Ok(ComparisonNode(ToBoundComparison(op), left, right))
      else Fail
  }

  // ----- validation -----

  predicate OrdinalsValid(b: BoundExpression, columnCount: nat) {
    if b.kind == ColumnRefKind then b.ordinal < columnCount
    else
      && (b.left.Some? ==> OrdinalsValid(b.left.value, columnCount))
      && (b.right.Some? ==> OrdinalsValid(b.right.value, columnCount))
  }

  predicate IsOperand(b: BoundExpression) {
    b.kind == LiteralKind || b.kind == ColumnRefKind
  }

  predicate PredicateValid(b: BoundExpression) {
    match b.kind
    case ComparisonKind => b.left.Some? && b.right.Some? && IsOperand(b.left.value) && IsOperand(b.right.value)
    case AndKind => b.left.Some? && b.right.Some? && PredicateValid(b.left.value) && PredicateValid(b.right.value)
    case OrKind => b.left.Some? && b.right.Some? && PredicateValid(b.left.value) && PredicateValid(b.right.value)
    case _ => false
  }

  // ----- evaluation -----

  function EvaluateValue(b: BoundExpression, row: Row): Outcome<Value> {
    match b.kind
    case LiteralKind => Ok(b.literal)
    case ColumnRefKind => if b.ordinal < |row| then Ok(row[b.ordinal]) else Fail
    case _ => Fail
  }

  function CompareValues(op: BoundOperator, left: Value, right: Value): Outcome<bool> {
    if left.tag != right.tag then Ok(false)
    else if (op.Equal? || op.NotEqual?) && left.tag != IntType then
      var a :- left.AsText();
      var b :- right.AsText();
      Ok(if op.Equal? then a == b else a != b)
    else
      var a :- left.AsInt();
      var b :- right.AsInt();
      Ok(match op
         case Equal => a == b
         case NotEqual => a != b
         case Less => a < b
         case LessEqual => a <= b
         case Greater => a > b
         case GreaterEqual => a >= b)
  }

  /** An operand that is missing when it is reached is dereferenced all the same. */
  function Evaluate(b: BoundExpression, row: Row): Outcome<bool> {
    match b.kind
    case ComparisonKind =>
      if b.left.None? then Abort
      else
        var left :- EvaluateValue(b.left.value, row);
        if b.right.None? then Abort
        else
          var right :- EvaluateValue(b.right.value, row);
          CompareValues(b.op, left, right)
    case AndKind =>
      if b.left.None? then Abort
      else
        var left :- Evaluate(b.left.value, row);
        if !left then Ok(false) else if b.right.None? then Abort else Evaluate(b.right.value, row)
    case OrKind =>
      if b.left.None? then Abort
      else
        var left :- Evaluate(b.left.value, row);
        if left then Ok(true) else if b.right.None? then Abort else Evaluate(b.right.value, row)
    case _ => Fail
  }
}
