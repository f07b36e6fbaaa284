/** A row group: one buffer per column, at most `ROW_GROUP_CAPACITY` rows (src/storage/row_group.cpp). */
module RowGroups {
  import opened Prelude
  import opened Ast
  import opened Values
  import opened Schema
  import opened TextLayout
  import opened ColumnBuffers
  import opened ColumnBatches

  type Capacity = n: nat | 0 < n witness 65536

  /** `kRowGroupCapacity`, of which only positivity is ever used. */
  const ROW_GROUP_CAPACITY: Capacity

  // ----- the text of a column of rows -----

  function TextOf(row: Row, c: nat): string {
    if c < |row| && row[c].payload.TextPayload? then row[c].payload.text else ""
  }

  function TextsOf(rows: seq<Row>, c: nat): seq<string> {
    seq(|rows|, i requires 0 <= i < |rows| => TextOf(rows[i], c))
  }

  /** Every string of every text column is empty or within the 32-bit layout, so every read is exact. */
  ghost predicate Readable(rows: seq<Row>, schema: TableSchema) {
    forall c | 0 <= c < |schema.columns| && schema.columns[c].columnType == TextType ::
      AllFit(TextsOf(rows, c))
  }

  lemma ReadablePrefix(rows: seq<Row>, schema: TableSchema, n: nat)
    requires n <= |rows| && Readable(rows, schema)
    ensures Readable(rows[..n], schema)
  {
    forall c | 0 <= c < |schema.columns| && schema.columns[c].columnType == TextType
      ensures AllFit(TextsOf(rows[..n], c))
    {
      assert TextsOf(rows[..n], c) == TextsOf(rows, c)[..n];
      FitsPrefix(TextsOf(rows, c), n);
    }
  }

  /** What reading cell `i` of column `c` of a group returns, wrapped offsets included. */
  ghost function ReadCell(rows: seq<Row>, schema: TableSchema, i: nat, c: nat): (value: Value)
    requires RowsValid(rows, schema) && i < |rows| && c < |schema.columns|
    ensures ValidCell(value, schema.columns[c].columnType)
  {
    assert ValidRow(rows[i], schema);
    if schema.columns[c].columnType == IntType then rows[i][c]
    else
      var texts := TextsOf(rows, c);
      ReadRange(texts, i);
      FromText(ReadText(StoredOffsets(texts), Concat(texts), i))
  }

  ghost function ReadRow(rows: seq<Row>, schema: TableSchema, i: nat): (row: Row)
    requires RowsValid(rows, schema) && i < |rows|
    ensures ValidRow(row, schema)
  {
    seq(|schema.columns|, c requires 0 <= c < |schema.columns| => ReadCell(rows, schema, i, c))
  }

  ghost function ReadRows(rows: seq<Row>, schema: TableSchema): (r: seq<Row>)
    requires RowsValid(rows, schema)
    ensures |r| == |rows| && RowsValid(r, schema)
  {
    seq(|rows|, i requires 0 <= i < |rows| => ReadRow(rows, schema, i))
  }

  /** A group whose text fits is read back exactly as it was appended. */
  lemma ReadRowExact(rows: seq<Row>, schema: TableSchema, i: nat)
    requires RowsValid(rows, schema) && i < |rows| && Readable(rows, schema)
    ensures ReadRow(rows, schema, i) == rows[i]
  {
    assert ValidRow(rows[i], schema);
    forall c | 0 <= c < |schema.columns| ensures ReadCell(rows, schema, i, c) == rows[i][c] {
      assert ValidCell(rows[i][c], schema.columns[c].columnType);
      if schema.columns[c].columnType == TextType {
        var texts := TextsOf(rows, c);
        assert Fits(texts, i);
        ReadBack(texts, i);
      }
    }
  }

  lemma ReadRowsExact(rows: seq<Row>, schema: TableSchema)
    requires RowsValid(rows, schema) && Readable(rows, schema)
    ensures ReadRows(rows, schema) == rows
  {
    forall i | 0 <= i < |rows| ensures ReadRow(rows, schema, i) == rows[i] {
      ReadRowExact(rows, schema, i);
    }
  }

  // ----- and only then, whatever the bytes -----

  /** Other rows of the schema whose strings have the same lengths. */
  ghost predicate SameTextLengths(rows: seq<Row>, other: seq<Row>, schema: TableSchema) {
    && |rows| == |other| && RowsValid(other, schema)
    && forall c | 0 <= c < |schema.columns| && schema.columns[c].columnType == TextType ::
      SameLengths(TextsOf(rows, c), TextsOf(other, c))
  }

  lemma SameReadable(rows: seq<Row>, other: seq<Row>, schema: TableSchema)
    requires SameTextLengths(rows, other, schema) && Readable(rows, schema)
    ensures Readable(other, schema)
  {
    forall c | 0 <= c < |schema.columns| && schema.columns[c].columnType == TextType
      ensures AllFit(TextsOf(other, c))
    {
      forall i | 0 <= i < |other| ensures Fits(TextsOf(other, c), i) {
        assert Fits(TextsOf(rows, c), i);
        SameFits(TextsOf(rows, c), TextsOf(other, c), i);
      }
    }
  }

  /** Rows with the strings of one text column replaced. */
  function WithTexts(rows: seq<Row>, c: nat, texts: seq<string>): seq<Row>
    requires |texts| == |rows| && forall k | 0 <= k < |rows| :: c < |rows[k]|
  {
    seq(|rows|, k requires 0 <= k < |rows| => rows[k][c := FromText(texts[k])])
  }

  lemma WithTextsValid(rows: seq<Row>, schema: TableSchema, c: nat, texts: seq<string>)
    requires RowsValid(rows, schema) && c < |schema.columns| && schema.columns[c].columnType == TextType
    requires SameLengths(TextsOf(rows, c), texts)
    ensures forall k | 0 <= k < |rows| :: ValidRow(rows[k], schema) && c < |rows[k]|
    ensures TextsOf(WithTexts(rows, c, texts), c) == texts
    ensures SameTextLengths(rows, WithTexts(rows, c, texts), schema)
  {
    assert forall k | 0 <= k < |rows| :: ValidRow(rows[k], schema);
    var other := WithTexts(rows, c, texts);
    forall k | 0 <= k < |rows| ensures ValidRow(other[k], schema) {
      assert ValidRow(rows[k], schema);
    }
    forall d | 0 <= d < |schema.columns| && d != c ensures TextsOf(other, d) == TextsOf(rows, d) {
    }
  }

  /** A group with a string that does not fit is misread for some bytes of the same lengths. */
  lemma GroupMisread(rows: seq<Row>, schema: TableSchema) returns (other: seq<Row>)
    requires RowsValid(rows, schema) && !Readable(rows, schema)
    ensures SameTextLengths(rows, other, schema) && ReadRows(other, schema) != other
  {
    var c :| 0 <= c < |schema.columns| && schema.columns[c].columnType == TextType && !AllFit(TextsOf(rows, c));
    var i :| 0 <= i < |rows| && !Fits(TextsOf(rows, c), i);
    var marked := Marked(TextsOf(rows, c), i);
    WithTextsValid(rows, schema, c, marked);
    other := WithTexts(rows, c, marked);
    MarkedIsMisread(TextsOf(rows, c), i);
    assert ValidRow(other[i], schema);
    assert ReadRows(other, schema)[i][c] == ReadCell(other, schema, i, c) != other[i][c];
  }

  /**
   * Exactly when a group is read back: all groups with text of these lengths are, if and only if every
   * string is empty or within the 32-bit layout.
   */
  lemma ReadRowsExactIff(rows: seq<Row>, schema: TableSchema)
    requires RowsValid(rows, schema)
    ensures (forall other | SameTextLengths(rows, other, schema) :: ReadRows(other, schema) == other)
      <==> Readable(rows, schema)
  {
    if Readable(rows, schema) {
      forall other | SameTextLengths(rows, other, schema) ensures ReadRows(other, schema) == other {
        SameReadable(rows, other, schema);
        ReadRowsExact(other, schema);
      }
    } else {
      var other := GroupMisread(rows, schema);
    }
  }

  /** `cells` is column `c` of `rows`. */
  ghost predicate IsColumn(cells: seq<Value>, rows: seq<Row>, c: nat) {
    |cells| == |rows| && forall i | 0 <= i < |rows| :: c < |rows[i]| && cells[i] == rows[i][c]
  }

  // ----- what a group gains from a batch -----

  /** Like `Cell`, but the last string of a text column runs to the end of the blob. */
  ghost function AbsorbedCell(view: ColumnView, columnType: LogicalType, rowCount: nat, i: nat): Value
    requires ValidView(view, columnType, rowCount) && i < rowCount
  {
    match view
    case IntView(values) => FromInt(values[i])
    case TextView(offsets, bytes) => FromText(AbsorbedTexts(offsets, bytes, rowCount)[i])
  }

  ghost function AbsorbedRow(batch: ColumnBatch, schema: TableSchema, i: nat): Row
    requires ValidBatch(batch, schema) && i < batch.rowCount
  {
    seq(|batch.columns|, c requires 0 <= c < |batch.columns| =>
      AbsorbedCell(batch.columns[c], schema.columns[c].columnType, batch.rowCount, i))
  }

  ghost function AbsorbedRows(batch: ColumnBatch, schema: TableSchema): seq<Row>
    requires ValidBatch(batch, schema)
  {
    seq(batch.rowCount, i requires 0 <= i < batch.rowCount => AbsorbedRow(batch, schema, i))
  }

  /** A group stores the rows of a batch exactly when no text blob has bytes after its last offset. */
  lemma AbsorbedRowsIffTight(batch: ColumnBatch, schema: TableSchema)
    requires ValidBatch(batch, schema) && 0 < batch.rowCount
    ensures AbsorbedRows(batch, schema) == BatchRows(batch, schema) <==> Tight(batch)
  {
    var n := batch.rowCount;
    forall c | 0 <= c < |batch.columns| && batch.columns[c].TextView?
      ensures ValidOffsets(batch.columns[c].offsets, batch.columns[c].bytes, n)
      ensures AbsorbedTexts(batch.columns[c].offsets, batch.columns[c].bytes, n)
          == BatchTexts(batch.columns[c].offsets, batch.columns[c].bytes, n)
        <==> batch.columns[c].offsets[n] == |batch.columns[c].bytes|
    {
      assert ValidView(batch.columns[c], schema.columns[c].columnType, n);
      AbsorbedIffTight(batch.columns[c].offsets, batch.columns[c].bytes, n);
    }
    if Tight(batch) {
      forall i | 0 <= i < n ensures AbsorbedRow(batch, schema, i) == BatchRow(batch, schema, i) {
        forall c | 0 <= c < |batch.columns|
          ensures AbsorbedRow(batch, schema, i)[c] == BatchRow(batch, schema, i)[c]
        {
          TightCell(batch.columns[c], schema.columns[c].columnType, n, i);
        }
      }
    } else {
      var c :| 0 <= c < |batch.columns| && batch.columns[c].TextView?
        && batch.columns[c].offsets[n] != |batch.columns[c].bytes|;
      var absorbed := AbsorbedTexts(batch.columns[c].offsets, batch.columns[c].bytes, n)[n - 1];
      var expected := BatchTexts(batch.columns[c].offsets, batch.columns[c].bytes, n)[n - 1];
      assert |absorbed| != |expected|;
      assert AbsorbedRows(batch, schema)[n - 1][c] == FromText(absorbed);
      assert BatchRows(batch, schema)[n - 1][c] == FromText(expected);
    }
  }

  lemma TightCell(view: ColumnView, columnType: LogicalType, rowCount: nat, i: nat)
    requires ValidView(view, columnType, rowCount) && i < rowCount
    requires view.TextView? ==> view.offsets[rowCount] == |view.bytes|
    ensures AbsorbedCell(view, columnType, rowCount, i) == Cell(view, columnType, rowCount, i)
  {
    if view.TextView? {
      assert i + 1 == rowCount ==> view.offsets[i + 1] == view.offsets[rowCount];
    }
  }

  ghost function AbsorbedCells(view: ColumnView, columnType: LogicalType, rowCount: nat): seq<Value>
    requires ValidView(view, columnType, rowCount)
  {
    seq(rowCount, i requires 0 <= i < rowCount => AbsorbedCell(view, columnType, rowCount, i))
  }

  ghost function AbsorbedColumns(batch: ColumnBatch, schema: TableSchema): seq<seq<Value>>
    requires ValidBatch(batch, schema)
  {
    seq(|batch.columns|, c requires 0 <= c < |batch.columns| =>
      AbsorbedCells(batch.columns[c], schema.columns[c].columnType, batch.rowCount))
  }

  lemma AbsorbedRowsValid(batch: ColumnBatch, schema: TableSchema)
    requires ValidBatch(batch, schema)
    ensures RowsValid(AbsorbedRows(batch, schema), schema)
    ensures forall c | 0 <= c < |batch.columns| ::
      IsColumn(AbsorbedColumns(batch, schema)[c], AbsorbedRows(batch, schema), c)
  {
    forall i | 0 <= i < batch.rowCount ensures ValidRow(AbsorbedRows(batch, schema)[i], schema) {
      var row := AbsorbedRow(batch, schema, i);
      forall c | 0 <= c < |row| ensures ValidCell(row[c], schema.columns[c].columnType) {
        assert ValidView(batch.columns[c], schema.columns[c].columnType, batch.rowCount);
      }
    }
  }

  // ----- appending to one column -----

  /** The payload access of `append_validated_row`; the tag decides which buffer is meant. */
  method AppendCell(column: ColumnBuffer, value: Value)
    requires column.Valid() && ValidCell(value, column.ColumnType())
    modifies column.Object()
    ensures column.Valid() && column.Cells() == old(column.Cells()) + [value]
  {
    if value.tag == IntType {
      column.ints.Append(value.AsInt().value);
    } else {
      column.strings.Append(value.AsText().value);
    }
  }

  /** The cells of a column after a batch. Without rows, the bytes go to the last string. */
  ghost function CellsAfter(cells: seq<Value>, view: ColumnView, columnType: LogicalType, rowCount: nat): seq<Value>
    requires ValidView(view, columnType, rowCount)
    requires forall i | 0 <= i < |cells| :: ValidCell(cells[i], columnType)
  {
    if rowCount == 0 && view.TextView? && cells != [] then
      assert ValidCell(cells[|cells| - 1], columnType);
      cells[|cells| - 1 := Lengthened(cells[|cells| - 1], view)]
    else cells + AbsorbedCells(view, columnType, rowCount)
  }

  function Lengthened(cell: Value, view: ColumnView): Value
    requires view.TextView? ==> cell.payload.TextPayload?
  {
    if view.TextView? then FromText(cell.payload.text + view.bytes) else cell
  }

  /** Bytes without a row, and no string to add them to. */
  predicate Stray(cells: seq<Value>, view: ColumnView, rowCount: nat) {
    rowCount == 0 && cells == [] && view.TextView? && view.bytes != ""
  }

  method AppendView(column: ColumnBuffer, view: ColumnView, rowCount: nat)
    requires column.Valid() && ValidView(view, column.ColumnType(), rowCount)
    requires forall i | 0 <= i < |column.Cells()| :: ValidCell(column.Cells()[i], column.ColumnType())
    modifies column.Object()
    ensures column.Valid() <==> !Stray(old(column.Cells()), view, rowCount)
    ensures column.Valid() ==> column.Cells() == CellsAfter(old(column.Cells()), view, column.ColumnType(), rowCount)
  {
    match view {
      case IntView(values) =>
        column.ints.AppendSpan(values[..rowCount]);
      case TextView(offsets, bytes) =>
        column.strings.AppendBatch(offsets, bytes, rowCount);
    }
  }

  lemma IsColumnAppend(cells: seq<Value>, rows: seq<Row>, moreCells: seq<Value>, moreRows: seq<Row>, c: nat)
    requires IsColumn(cells, rows, c) && IsColumn(moreCells, moreRows, c)
    ensures IsColumn(cells + moreCells, rows + moreRows, c)
  {
  }

  // ----- the rows of a group after a batch -----

  function LengthenedRow(row: Row, batch: ColumnBatch, schema: TableSchema): Row
    requires ValidRow(row, schema) && |batch.columns| == |schema.columns|
    requires forall c | 0 <= c < |schema.columns| ::
      batch.columns[c].TextView? ==> schema.columns[c].columnType == TextType
  {
    seq(|row|, c requires 0 <= c < |row| => assert ValidCell(row[c], schema.columns[c].columnType);
      Lengthened(row[c], batch.columns[c]))
  }

  /** A batch without rows adds its text blobs to the strings of the last row. */
  ghost function RowsAfter(rows: seq<Row>, batch: ColumnBatch, schema: TableSchema): (after: seq<Row>)
    requires RowsValid(rows, schema) && ValidBatch(batch, schema)
    ensures |after| == |rows| + batch.rowCount
  {
    if batch.rowCount == 0 && rows != [] then
      assert forall c | 0 <= c < |schema.columns| ::
        ValidView(batch.columns[c], schema.columns[c].columnType, batch.rowCount);
      rows[|rows| - 1 := LengthenedRow(rows[|rows| - 1], batch, schema)]
    else rows + AbsorbedRows(batch, schema)
  }

  predicate HasBytes(batch: ColumnBatch) {
    exists c | 0 <= c < |batch.columns| :: batch.columns[c].TextView? && batch.columns[c].bytes != ""
  }

  /** An empty batch changes nothing in a group with rows exactly if all its text blobs are empty. */
  lemma EmptyBatchKeepsRowsIff(rows: seq<Row>, batch: ColumnBatch, schema: TableSchema)
    requires RowsValid(rows, schema) && ValidBatch(batch, schema) && batch.rowCount == 0 && rows != []
    ensures RowsAfter(rows, batch, schema) == rows <==> !HasBytes(batch)
  {
    var last := rows[|rows| - 1];
    var longer := RowsAfter(rows, batch, schema)[|rows| - 1];
    assert ValidRow(last, schema);
    if HasBytes(batch) {
      var c :| 0 <= c < |batch.columns| && batch.columns[c].TextView? && batch.columns[c].bytes != "";
      assert ValidView(batch.columns[c], schema.columns[c].columnType, 0);
      assert ValidCell(last[c], schema.columns[c].columnType);
      assert |longer[c].payload.text| == |last[c].payload.text| + |batch.columns[c].bytes|;
    } else {
      forall c | 0 <= c < |last| ensures longer[c] == last[c] {
        assert ValidCell(last[c], schema.columns[c].columnType);
        assert ValidView(batch.columns[c], schema.columns[c].columnType, 0);
        if batch.columns[c].TextView? {
          assert last[c].payload.text + batch.columns[c].bytes == last[c].payload.text;
        }
      }
      assert longer == last;
    }
  }

  lemma RowsAfterValid(rows: seq<Row>, batch: ColumnBatch, schema: TableSchema)
    requires RowsValid(rows, schema) && ValidBatch(batch, schema)
    ensures RowsValid(RowsAfter(rows, batch, schema), schema)
  {
    AbsorbedRowsValid(batch, schema);
    if batch.rowCount == 0 && rows != [] {
      assert ValidRow(rows[|rows| - 1], schema);
    }
  }

  lemma ColumnAfter(cells: seq<Value>, rows: seq<Row>, batch: ColumnBatch, schema: TableSchema, c: nat)
    requires RowsValid(rows, schema) && ValidBatch(batch, schema) && c < |schema.columns| && IsColumn(cells, rows, c)
    ensures ValidView(batch.columns[c], schema.columns[c].columnType, batch.rowCount)
    ensures forall i | 0 <= i < |cells| :: ValidCell(cells[i], schema.columns[c].columnType)
    ensures IsColumn(CellsAfter(cells, batch.columns[c], schema.columns[c].columnType, batch.rowCount),
      RowsAfter(rows, batch, schema), c)
  {
    forall i | 0 <= i < |cells| ensures ValidCell(cells[i], schema.columns[c].columnType) {
      assert ValidRow(rows[i], schema);
    }
    AbsorbedRowsValid(batch, schema);
    if batch.rowCount == 0 && rows != [] {
      assert ValidRow(rows[|rows| - 1], schema);
    } else {
      IsColumnAppend(cells, rows, AbsorbedColumns(batch, schema)[c], AbsorbedRows(batch, schema), c);
    }
  }

  /** All columns after a batch. */
  ghost function ColumnsAfter(before: seq<seq<Value>>, rows: seq<Row>, batch: ColumnBatch, schema: TableSchema)
    : seq<seq<Value>>
    requires RowsValid(rows, schema) && ValidBatch(batch, schema) && |before| == |schema.columns|
    requires forall c | 0 <= c < |before| :: IsColumn(before[c], rows, c)
  {
    seq(|before|, c requires 0 <= c < |before| =>
      ColumnAfter(before[c], rows, batch, schema, c);
      CellsAfter(before[c], batch.columns[c], schema.columns[c].columnType, batch.rowCount))
  }

  class RowGroup {
    const schema: TableSchema
    const columns: seq<ColumnBuffer>
    ghost const Repr: set<object>
    ghost var rows: seq<Row>

    ghost predicate Valid()
      reads this, Repr
      ensures Valid() ==> this in Repr
    {
      && this in Repr
      && Shaped()
      && (forall c | 0 <= c < |columns| :: columns[c].Valid() && IsColumn(columns[c].Cells(), rows, c))
      && RowsValid(rows, schema)
      && |rows| <= ROW_GROUP_CAPACITY
    }

    /** One buffer of the right type per column; the buffers belong to the group and are distinct. */
    ghost predicate Shaped() {
      && 0 < |columns| == |schema.columns|
      && (forall c | 0 <= c < |columns| :: columns[c].ColumnType() == schema.columns[c].columnType)
      && (forall c | 0 <= c < |columns| :: columns[c].Object() in Repr && columns[c].Object() != this)
      && (forall c, d | 0 <= c < d < |columns| :: columns[c].Object() != columns[d].Object())
    }

    constructor (schema: TableSchema)
      requires schema.columns != []
      ensures Valid() && fresh(Repr)
      ensures this.schema == schema && rows == []
    {
      var buffers: seq<ColumnBuffer> := [];
      ghost var owned: set<object> := {};
      for c := 0 to |schema.columns|
        invariant |buffers| == c && fresh(owned)
        invariant forall k | 0 <= k < c ::
          && buffers[k].Object() in owned && buffers[k].Valid()
          && buffers[k].ColumnType() == schema.columns[k].columnType && buffers[k].Cells() == []
        invariant forall k, l | 0 <= k < l < c :: buffers[k].Object() != buffers[l].Object()
      {
        var buffer := MakeColumnBuffer(schema.columns[c].columnType);
        buffers, owned := buffers + [buffer], owned + {buffer.Object()};
      }
      this.schema := schema;
      columns := buffers;
      Repr := owned + {this};
      rows := [];
    }

    function RowCount(): (n: nat)
      requires Valid()
      reads this, Repr
      ensures n == |rows|
    {
      assert IsColumn(columns[0].Cells(), rows, 0);
      columns[0].Size()
    }

    function IsFull(): bool
      requires Valid()
      reads this, Repr
    {
      RowCount() >= ROW_GROUP_CAPACITY
    }

    ghost function AllCells(): seq<seq<Value>>
      reads this, Repr
      requires Shaped()
    {
      seq(|columns|, c requires 0 <= c < |columns| reads this, Repr => columns[c].Cells())
    }

    /** These buffers hold these cells. */
    ghost predicate Hold(cells: seq<seq<Value>>, from: nat, to: nat)
      reads this, Repr
      requires Shaped() && |columns| == |cells|
    {
      forall c | from <= c < to && c < |columns| :: columns[c].Valid() && columns[c].Cells() == cells[c]
    }

    /** Buffers that hold the columns of some rows make the group hold these rows. */
    ghost method Become(cells: seq<seq<Value>>, newRows: seq<Row>)
      requires this in Repr && Shaped() && |columns| == |cells| && Hold(cells, 0, |columns|)
      requires forall c | 0 <= c < |columns| :: IsColumn(cells[c], newRows, c)
      requires RowsValid(newRows, schema) && |newRows| <= ROW_GROUP_CAPACITY
      modifies this
      ensures Valid() && rows == newRows
    {
      hide IsColumn, RowsValid;
      rows := newRows;
    }

    method AppendValidatedRow(values: Row, ghost before: seq<seq<Value>>, ghost after: seq<seq<Value>>)
      requires Shaped() && ValidRow(values, schema) && |before| == |after| == |columns|
      requires Hold(before, 0, |columns|)
      requires forall c | 0 <= c < |after| :: after[c] == before[c] + [values[c]]
      modifies Repr
      ensures rows == old(rows) && Hold(after, 0, |columns|)
    {
      assert forall c | 0 <= c < |values| :: ValidCell(values[c], schema.columns[c].columnType);
      hide ValidRow, ValidCell, RowsValid, IsColumn;
      for c := 0 to |values|
        invariant rows == old(rows)
        invariant Hold(after, 0, c) && Hold(before, c, |columns|)
      {
        AppendCell(columns[c], values[c]);
        assert columns[c].Cells() == after[c];
        assert Hold(after, 0, c) && Hold(before, c + 1, |columns|);
      }
    }

    method AppendRow(values: Row) returns (status: Status)
      requires Valid()
      modifies Repr
      ensures Valid()
      ensures status.Success? <==> old(|rows|) < ROW_GROUP_CAPACITY && ValidRow(values, schema)
      ensures rows == if status.Success? then old(rows) + [values] else old(rows)
    {
      if IsFull() {
        return Failure;
      }
      status := ValidateValues(values, schema);
      if status.Success? {
        ghost var before := AllCells();
        ghost var after := seq(|values|, c requires 0 <= c < |values| => before[c] + [values[c]]);
        RowColumns(before, rows, values, after);
        AppendValidatedRow(values, before, after);
        Become(after, rows + [values]);
      }
    }

    lemma RowColumns(before: seq<seq<Value>>, rows: seq<Row>, values: Row, after: seq<seq<Value>>)
      requires |before| == |after| == |values|
      requires forall c | 0 <= c < |after| :: IsColumn(before[c], rows, c) && after[c] == before[c] + [values[c]]
      ensures forall c | 0 <= c < |after| :: IsColumn(after[c], rows + [values], c)
    {
      forall c | 0 <= c < |after| ensures IsColumn(after[c], rows + [values], c) {
        IsColumnAppend(before[c], rows, [values[c]], [values], c);
      }
    }

    /**
     * As without debug assertions, an empty batch is not refused. If it has bytes and the group has no
     * rows, they are left before the first string, and the group is no longer one of its rows.
     */
    method AppendColumnBatch(batch: ColumnBatch) returns (status: Status)
      requires Valid()
      modifies Repr
      ensures status.Success? <==>
        old(|rows|) < ROW_GROUP_CAPACITY && ValidBatch(batch, schema)
        && old(|rows|) + batch.rowCount <= ROW_GROUP_CAPACITY
      ensures Valid() <==> !(status.Success? && batch.rowCount == 0 && old(rows) == [] && HasBytes(batch))
      ensures Valid() ==> rows == if status.Success? then RowsAfter(old(rows), batch, schema) else old(rows)
    {
      if IsFull() {
        return Failure;
      }
      status := ValidateColumnBatch(batch, schema);
      if status.Failure? {
        return;
      }
      var available := ROW_GROUP_CAPACITY - RowCount();
      if batch.rowCount > available {
        return Failure;
      }
      ghost var before := AllCells();
      ghost var after := ColumnsAfter(before, rows, batch, schema);
      RowsAfterValid(rows, batch, schema);
      ghost var newRows := RowsAfter(rows, batch, schema);
      forall c | 0 <= c < |columns| ensures IsColumn(after[c], newRows, c) {
        ColumnAfter(before[c], rows, batch, schema, c);
      }
      StrayIff(before, batch);
      AppendViews(batch, before, after);
      if Hold(after, 0, |columns|) {
        Become(after, newRows);
      }
    }

    method AppendViews(batch: ColumnBatch, ghost before: seq<seq<Value>>, ghost after: seq<seq<Value>>)
      requires Shaped() && ValidBatch(batch, schema) && |before| == |columns| && Hold(before, 0, |columns|)
      requires RowsValid(rows, schema) && forall c | 0 <= c < |before| :: IsColumn(before[c], rows, c)
      requires after == ColumnsAfter(before, rows, batch, schema)
      modifies Repr
      ensures rows == old(rows)
      ensures forall c | 0 <= c < |columns| ::
        && (columns[c].Valid() <==> !Stray(before[c], batch.columns[c], batch.rowCount))
        && (columns[c].Valid() ==> columns[c].Cells() == after[c])
    {
      hide ValidOffsets, AbsorbedCells, IsColumn, CellsAfter, Stray, RowsValid;
      for c := 0 to |batch.columns|
        invariant rows == old(rows)
        invariant forall k | 0 <= k < c ::
          && (columns[k].Valid() <==> !Stray(before[k], batch.columns[k], batch.rowCount))
          && (columns[k].Valid() ==> columns[k].Cells() == after[k])
        invariant Hold(before, c, |columns|)
      {
        ColumnAfter(before[c], rows, batch, schema, c);
        AppendView(columns[c], batch.columns[c], batch.rowCount);
        assert Hold(before, c + 1, |columns|);
      }
    }

    /** Some column has stray bytes exactly if an empty batch brings bytes to a group without rows. */
    lemma StrayIff(cells: seq<seq<Value>>, batch: ColumnBatch)
      requires |cells| == |batch.columns| && forall c | 0 <= c < |cells| :: IsColumn(cells[c], rows, c)
      ensures (exists c | 0 <= c < |cells| :: Stray(cells[c], batch.columns[c], batch.rowCount))
        <==> batch.rowCount == 0 && rows == [] && HasBytes(batch)
    {
      assert forall c | 0 <= c < |cells| :: IsColumn(cells[c], rows, c) ==> |cells[c]| == |rows|;
      if batch.rowCount == 0 && rows == [] && HasBytes(batch) {
        var c :| 0 <= c < |batch.columns| && batch.columns[c].TextView? && batch.columns[c].bytes != "";
        assert Stray(cells[c], batch.columns[c], batch.rowCount);
      }
    }

    function ValueAt(rowIndex: nat, columnIndex: nat): (value: Value)
      requires Valid() && rowIndex < |rows| && columnIndex < |schema.columns|
      reads this, Repr
      ensures value == ReadCell(rows, schema, rowIndex, columnIndex) == ReadRow(rows, schema, rowIndex)[columnIndex]
    {
      assert IsColumn(columns[columnIndex].Cells(), rows, columnIndex);
      if schema.columns[columnIndex].columnType == IntType then
        FromInt(columns[columnIndex].ints.At(rowIndex))
      else
        assert columns[columnIndex].strings.texts == TextsOf(rows, columnIndex);
        FromText(columns[columnIndex].strings.At(rowIndex))
    }

    method MaterializeRow(rowIndex: nat) returns (row: Row)
      requires Valid() && rowIndex < |rows|
      ensures row == ReadRow(rows, schema, rowIndex)
    {
      hide ReadCell, RowsValid;
      row := [];
      for c := 0 to |schema.columns|
        invariant row == ReadRow(rows, schema, rowIndex)[..c]
      {
        row := row + [ValueAt(rowIndex, c)];
      }
    }
  }
}
