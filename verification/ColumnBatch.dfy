/** Columnar batches and their validation (src/storage/column_batch.cpp). */
module ColumnBatches {
  import opened Prelude
  import opened Ast
  import opened Values
  import opened Schema
  import opened TextLayout

  datatype ColumnView = IntView(values: seq<Int64>) | TextView(offsets: seq<Uint32>, bytes: string)

  datatype ColumnBatch = ColumnBatch(rowCount: nat, columns: seq<ColumnView>)

  ghost predicate ValidView(view: ColumnView, columnType: LogicalType, rowCount: nat) {
    match columnType
    case IntType => view.IntView? && rowCount <= |view.values|
    case TextType => view.TextView? && ValidOffsets(view.offsets, view.bytes, rowCount)
  }

  ghost predicate ValidBatch(batch: ColumnBatch, schema: TableSchema) {
    && |batch.columns| == |schema.columns|
    && forall c | 0 <= c < |batch.columns| ::
      ValidView(batch.columns[c], schema.columns[c].columnType, batch.rowCount)
  }

  /** The text columns end exactly where their blobs end. */
  predicate Tight(batch: ColumnBatch) {
    forall c | 0 <= c < |batch.columns| && batch.columns[c].TextView? ::
      |batch.columns[c].offsets| == batch.rowCount + 1
      && batch.columns[c].offsets[batch.rowCount] == |batch.columns[c].bytes|
  }

  // ----- what a batch means -----

  ghost function Cell(view: ColumnView, columnType: LogicalType, rowCount: nat, i: nat): Value
    requires ValidView(view, columnType, rowCount) && i < rowCount
  {
    match view
    case IntView(values) => FromInt(values[i])
    case TextView(offsets, bytes) => FromText(bytes[offsets[i]..offsets[i + 1]])
  }

  ghost function BatchRow(batch: ColumnBatch, schema: TableSchema, i: nat): Row
    requires ValidBatch(batch, schema) && i < batch.rowCount
  {
    seq(|batch.columns|, c requires 0 <= c < |batch.columns| =>
      Cell(batch.columns[c], schema.columns[c].columnType, batch.rowCount, i))
  }

  ghost function BatchRows(batch: ColumnBatch, schema: TableSchema): seq<Row>
    requires ValidBatch(batch, schema)
  {
    seq(batch.rowCount, i requires 0 <= i < batch.rowCount => BatchRow(batch, schema, i))
  }

  /** The rows of a batch satisfy the schema. */
  lemma BatchRowsValid(batch: ColumnBatch, schema: TableSchema)
    requires ValidBatch(batch, schema)
    ensures RowsValid(BatchRows(batch, schema), schema)
  {
    forall i | 0 <= i < batch.rowCount ensures ValidRow(BatchRows(batch, schema)[i], schema) {
      var row := BatchRow(batch, schema, i);
      forall c | 0 <= c < |row| ensures ValidCell(row[c], schema.columns[c].columnType) {
        assert ValidView(batch.columns[c], schema.columns[c].columnType, batch.rowCount);
      }
    }
  }

  // ----- validation -----

  ghost predicate Monotonic(offsets: seq<Uint32>) {
    forall i, j | 0 <= i <= j < |offsets| :: offsets[i] <= offsets[j]
  }

  method TextOffsetsAreMonotonic(offsets: seq<Uint32>) returns (r: bool)
    ensures r <==> Monotonic(offsets)
  {
    if |offsets| == 0 {
      return true;
    }
    for index := 1 to |offsets|
      invariant forall i, j | 0 <= i <= j < index :: offsets[i] <= offsets[j]
    {
      if offsets[index] < offsets[index - 1] {
        return false;
      }
    }
    return true;
  }

  method ValidateColumnBatch(batch: ColumnBatch, schema: TableSchema) returns (status: Status)
    ensures status.Success? <==> ValidBatch(batch, schema)
  {
    if |batch.columns| != |schema.columns| {
      return Failure;
    }
    for c := 0 to |schema.columns|
      invariant forall k | 0 <= k < c ::
        ValidView(batch.columns[k], schema.columns[k].columnType, batch.rowCount)
    {
      var column := batch.columns[c];
      match schema.columns[c].columnType {
        case IntType =>
          if !column.IntView? {
            assert !ValidView(column, IntType, batch.rowCount);
            return Failure;
          }
          if |column.values| < batch.rowCount {
            assert !ValidView(column, IntType, batch.rowCount);
            return Failure;
          }
        case TextType =>
          if !column.TextView? {
            assert !ValidView(column, TextType, batch.rowCount);
            return Failure;
          }
          var valid := ValidateTextColumn(column.offsets, column.bytes, batch.rowCount);
          if !valid {
            assert !ValidView(column, TextType, batch.rowCount);
            return Failure;
          }
      }
    }
    return Success;
  }

  method ValidateTextColumn(offsets: seq<Uint32>, bytes: string, rowCount: nat) returns (valid: bool)
    ensures valid <==> ValidOffsets(offsets, bytes, rowCount)
  {
    if |offsets| != rowCount + 1 {
      return false;
    }
    if offsets[0] != 0 {
      return false;
    }
    if offsets[|offsets| - 1] > |bytes| {
      return false;
    }
    valid := TextOffsetsAreMonotonic(offsets);
  }

  // ----- slices -----

  /** Offsets start..start+count of a valid column, moved to start at zero. */
  ghost predicate IsRebased(source: seq<Uint32>, start: nat, count: nat, rebased: seq<Uint32>)
    requires start + count < |source|
  {
    && |rebased| == count + 1
    && forall i | 0 <= i <= count :: rebased[i] as int == source[start + i] as int - source[start] as int
  }

  method RebaseOffsets(offsets: seq<Uint32>, start: nat, count: nat) returns (rebased: seq<Uint32>)
    requires start + count < |offsets| && Monotonic(offsets)
    ensures IsRebased(offsets, start, count, rebased)
  {
    var owned := new Uint32[count + 1];
    var byteBase := offsets[start];
    for index := 0 to count + 1
      invariant forall i | 0 <= i < index :: owned[i] == offsets[start + i] - byteBase
    {
      // The subtraction is modulo 2^32 and never wraps: the offsets do not decrease.
      owned[index] := (offsets[start + index] - byteBase) % UINT32;
    }
    rebased := owned[..];
  }

  /** `slice` holds rows start..start+count of `view`, with its text offsets rebased and its blob trimmed. */
  ghost predicate IsSlice(view: ColumnView, start: nat, count: nat, slice: ColumnView) {
    match view
    case IntView(values) =>
      start + count <= |values| && slice == IntView(values[start..start + count])
    case TextView(offsets, bytes) =>
      && start + count < |offsets| && offsets[start] <= offsets[start + count] <= |bytes|
      && slice.TextView?
      && IsRebased(offsets, start, count, slice.offsets)
      && slice.bytes == bytes[offsets[start]..offsets[start + count]]
  }

  lemma SubSlice(s: string, from: nat, to: nat, a: nat, b: nat)
    requires from <= to <= |s| && a <= b <= to - from
    ensures s[from..to][a..b] == s[from + a..from + b]
  {
    forall k | 0 <= k < b - a ensures s[from..to][a..b][k] == s[from + a..from + b][k] {
    }
  }

  lemma SliceView(view: ColumnView, columnType: LogicalType, rowCount: nat, start: nat, count: nat, slice: ColumnView)
    requires ValidView(view, columnType, rowCount) && start + count <= rowCount
    requires IsSlice(view, start, count, slice)
    ensures ValidView(slice, columnType, count)
    ensures slice.TextView? ==> slice.offsets[count] == |slice.bytes|
    ensures forall i | 0 <= i < count ::
      Cell(slice, columnType, count, i) == Cell(view, columnType, rowCount, start + i)
  {
    if view.TextView? {
      var offsets, bytes := view.offsets, view.bytes;
      forall i | 0 <= i < count
        ensures slice.bytes[slice.offsets[i]..slice.offsets[i + 1]] == bytes[offsets[start + i]..offsets[start + i + 1]]
      {
        var from, next := start + i, start + i + 1;
        assert offsets[start] <= offsets[from] <= offsets[next] <= offsets[start + count];
        assert slice.offsets[i] as int == offsets[from] as int - offsets[start] as int;
        assert slice.offsets[i + 1] as int == offsets[start + (i + 1)] as int - offsets[start] as int;
        SubSlice(bytes, offsets[start], offsets[start + count], slice.offsets[i], slice.offsets[i + 1]);
      }
    }
  }

  method MakeBatchSlice(batch: ColumnBatch, ghost schema: TableSchema, start: nat, count: nat)
    returns (slice: ColumnBatch)
    requires ValidBatch(batch, schema) && start + count <= batch.rowCount
    ensures slice.rowCount == count && ValidBatch(slice, schema) && Tight(slice)
    ensures BatchRows(slice, schema) == BatchRows(batch, schema)[start..start + count]
  {
    var columns: seq<ColumnView> := [];
    for c := 0 to |batch.columns|
      invariant |columns| == c
      invariant forall k | 0 <= k < c :: IsSlice(batch.columns[k], start, count, columns[k])
    {
      var column := batch.columns[c];
      assert ValidView(column, schema.columns[c].columnType, batch.rowCount);
      match column {
        case IntView(values) =>
          columns := columns + [IntView(values[start..start + count])];
        case TextView(offsets, bytes) =>
          var rebased := RebaseOffsets(offsets, start, count);
          columns := columns + [TextView(rebased, bytes[offsets[start]..offsets[start + count]])];
      }
    }
    slice := ColumnBatch(count, columns);
    SliceBatch(batch, schema, start, count, slice);
  }

  lemma SliceBatch(batch: ColumnBatch, schema: TableSchema, start: nat, count: nat, slice: ColumnBatch)
    requires ValidBatch(batch, schema) && start + count <= batch.rowCount
    requires slice.rowCount == count && |slice.columns| == |batch.columns|
    requires forall c | 0 <= c < |batch.columns| :: IsSlice(batch.columns[c], start, count, slice.columns[c])
    ensures ValidBatch(slice, schema) && Tight(slice)
    ensures BatchRows(slice, schema) == BatchRows(batch, schema)[start..start + count]
  {
    forall c | 0 <= c < |batch.columns|
      ensures ValidView(slice.columns[c], schema.columns[c].columnType, count)
      ensures slice.columns[c].TextView? ==> slice.columns[c].offsets[count] == |slice.columns[c].bytes|
      ensures forall i | 0 <= i < count ::
        Cell(slice.columns[c], schema.columns[c].columnType, count, i)
        == Cell(batch.columns[c], schema.columns[c].columnType, batch.rowCount, start + i)
    {
      SliceView(batch.columns[c], schema.columns[c].columnType, batch.rowCount, start, count, slice.columns[c]);
    }
    forall i | 0 <= i < count ensures BatchRow(slice, schema, i) == BatchRow(batch, schema, start + i) {
    }
  }
}
