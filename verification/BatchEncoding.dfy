/**
 * Which columnar batches are accepted, and what they mean (src/storage/column_batch.cpp): an
 * explicit encoding of rows, and what may be added to it.
 */
module BatchEncodings {
  import opened Ast
  import opened Values
  import opened Schema
  import opened TextLayout
  import opened ColumnBatches
  import opened RowGroups
  import opened TableLayout

  // ----- one column -----

  lemma StartWithin(texts: seq<string>, i: nat)
    requires i <= |texts|
    ensures Start(texts, i) <= |Concat(texts)|
    ensures i == |texts| ==> Start(texts, i) == |Concat(texts)|
  {
    if i < |texts| {
      TextAtStart(texts, i);
    } else {
      assert texts[..i] == texts;
    }
  }

  function Narrow(n: nat): Uint32
    requires n < 0x1_0000_0000
  {
    n
  }

  /** Where every string starts, and where the last one ends. */
  function RunningOffsets(texts: seq<string>): seq<Uint32>
    requires |Concat(texts)| < 0x1_0000_0000
  {
    seq(|texts| + 1, i requires 0 <= i <= |texts| => StartWithin(texts, i); Narrow(Start(texts, i)))
  }

  lemma {:induction false} OffsetsOrdered(texts: seq<string>, i: nat, j: nat)
    requires i <= j <= |texts|
    ensures Start(texts, i) <= Start(texts, j)
  {
    if i < j {
      OffsetsOrdered(texts, i, j - 1);
      TextAtStart(texts, j - 1);
    }
  }

  lemma PrefixSlice(bytes: string, more: string, from: nat, to: nat)
    requires from <= to <= |bytes|
    ensures (bytes + more)[from..to] == bytes[from..to]
  {
  }

  lemma OffsetsAccepted(texts: seq<string>, more: string)
    requires |Concat(texts)| < 0x1_0000_0000
    ensures ValidOffsets(RunningOffsets(texts), Concat(texts) + more, |texts|)
  {
    var offsets, n := RunningOffsets(texts), |texts|;
    StartWithin(texts, n);
    assert texts[..0] == [];
    assert offsets[0] == 0 && offsets[n] == |Concat(texts)|;
    forall i, j | 0 <= i <= j <= n ensures offsets[i] <= offsets[j] {
      OffsetsOrdered(texts, i, j);
    }
  }

  /** Strings laid end to end, with more bytes behind them, are accepted and read as they are. */
  lemma OffsetsDecode(texts: seq<string>, more: string)
    requires |Concat(texts)| < 0x1_0000_0000
    ensures ValidOffsets(RunningOffsets(texts), Concat(texts) + more, |texts|)
    ensures BatchTexts(RunningOffsets(texts), Concat(texts) + more, |texts|) == texts
  {
    var offsets, bytes := RunningOffsets(texts), Concat(texts) + more;
    OffsetsAccepted(texts, more);
    hide ValidOffsets, Concat;
    forall i | 0 <= i < |texts| ensures BatchTexts(offsets, bytes, |texts|)[i] == texts[i] {
      TextAtStart(texts, i);
      PrefixSlice(Concat(texts), more, Start(texts, i), Start(texts, i + 1));
    }
  }

  /** Delimited strings laid end to end are the blob up to where the last of them ends. */
  lemma {:induction false} DelimitedPrefix(offsets: seq<Uint32>, bytes: string, n: nat, i: nat)
    requires ValidOffsets(offsets, bytes, n) && i <= n
    ensures Concat(BatchTexts(offsets, bytes, n)[..i]) == bytes[..offsets[i]]
  {
    var texts := BatchTexts(offsets, bytes, n);
    if i != 0 {
      DelimitedPrefix(offsets, bytes, n, i - 1);
      assert texts[..i][..i - 1] == texts[..i - 1];
      assert bytes[..offsets[i]] == bytes[..offsets[i - 1]] + bytes[offsets[i - 1]..offsets[i]];
    }
  }

  /** Only such offsets and bytes are accepted. */
  lemma OffsetsEncode(offsets: seq<Uint32>, bytes: string, n: nat)
    requires ValidOffsets(offsets, bytes, n)
    ensures var texts := BatchTexts(offsets, bytes, n);
      && |Concat(texts)| < 0x1_0000_0000 && Concat(texts) <= bytes && RunningOffsets(texts) == offsets
  {
    var texts := BatchTexts(offsets, bytes, n);
    assert texts[..n] == texts;
    DelimitedPrefix(offsets, bytes, n, n);
    forall i | 0 <= i <= n ensures Start(texts, i) == offsets[i] {
      DelimitedPrefix(offsets, bytes, n, i);
    }
  }

  // ----- batches -----

  /** Column `c` of rows: its integers, or its strings laid end to end. */
  function EncodeColumn(rows: seq<Row>, schema: TableSchema, c: nat): ColumnView
    requires RowsValid(rows, schema) && c < |schema.columns|
    requires schema.columns[c].columnType == TextType ==> |Concat(TextsOf(rows, c))| < 0x1_0000_0000
  {
    match schema.columns[c].columnType
    case IntType =>
      assert forall i | 0 <= i < |rows| :: ValidRow(rows[i], schema) && ValidCell(rows[i][c], IntType);
      IntView(seq(|rows|, i requires 0 <= i < |rows| => rows[i][c].payload.int64))
    case TextType => TextView(RunningOffsets(TextsOf(rows, c)), Concat(TextsOf(rows, c)))
  }

  /** The rows as a batch. Their text must fit 32-bit offsets. */
  ghost function Encode(rows: seq<Row>, schema: TableSchema): ColumnBatch
    requires RowsValid(rows, schema) && GroupIsSmall(rows, schema)
  {
    ColumnBatch(|rows|, seq(|schema.columns|, c requires 0 <= c < |schema.columns| => EncodeColumn(rows, schema, c)))
  }

  /** The same span or blob, perhaps with more behind it; offsets must be the same. */
  predicate LongerView(view: ColumnView, longer: ColumnView) {
    match view
    case IntView(values) => longer.IntView? && values <= longer.values
    case TextView(offsets, bytes) => longer.TextView? && offsets == longer.offsets && bytes <= longer.bytes
  }

  predicate Longer(batch: ColumnBatch, longer: ColumnBatch) {
    && longer.rowCount == batch.rowCount && |longer.columns| == |batch.columns|
    && forall c | 0 <= c < |batch.columns| :: LongerView(batch.columns[c], longer.columns[c])
  }

  lemma EncodedView(rows: seq<Row>, schema: TableSchema, c: nat, view: ColumnView)
    requires RowsValid(rows, schema) && GroupIsSmall(rows, schema) && c < |schema.columns|
    requires LongerView(EncodeColumn(rows, schema, c), view)
    ensures ValidView(view, schema.columns[c].columnType, |rows|)
    ensures forall i | 0 <= i < |rows| ::
      c < |rows[i]| && Cell(view, schema.columns[c].columnType, |rows|, i) == rows[i][c]
  {
    var columnType := schema.columns[c].columnType;
    forall i | 0 <= i < |rows| ensures c < |rows[i]| && ValidCell(rows[i][c], columnType) {
      assert ValidRow(rows[i], schema);
    }
    if columnType == TextType {
      var texts := TextsOf(rows, c);
      var more := view.bytes[|Concat(texts)|..];
      assert view.bytes == Concat(texts) + more;
      OffsetsDecode(texts, more);
      forall i | 0 <= i < |rows| ensures Cell(view, columnType, |rows|, i) == rows[i][c] {
        assert BatchTexts(view.offsets, view.bytes, |rows|)[i] == texts[i];
      }
    }
  }

  /** A batch that is the encoding of rows, perhaps with more behind a column, is accepted and means them. */
  lemma EncodedMeans(rows: seq<Row>, batch: ColumnBatch, schema: TableSchema)
    requires RowsValid(rows, schema) && GroupIsSmall(rows, schema) && Longer(Encode(rows, schema), batch)
    ensures ValidBatch(batch, schema) && BatchRows(batch, schema) == rows
  {
    hide LongerView, EncodeColumn, Cell, ValidView, GroupIsSmall;
    forall c | 0 <= c < |schema.columns|
      ensures ValidView(batch.columns[c], schema.columns[c].columnType, |rows|)
      ensures forall i | 0 <= i < |rows| ::
        c < |rows[i]| && Cell(batch.columns[c], schema.columns[c].columnType, |rows|, i) == rows[i][c]
    {
      assert LongerView(Encode(rows, schema).columns[c], batch.columns[c]);
      EncodedView(rows, schema, c, batch.columns[c]);
    }
    forall i | 0 <= i < |rows| ensures BatchRow(batch, schema, i) == rows[i] {
      assert ValidRow(rows[i], schema);
    }
  }

  lemma DecodedView(batch: ColumnBatch, schema: TableSchema, c: nat)
    requires ValidBatch(batch, schema) && RowsValid(BatchRows(batch, schema), schema) && c < |schema.columns|
    ensures schema.columns[c].columnType == TextType ==>
      |Concat(TextsOf(BatchRows(batch, schema), c))| < 0x1_0000_0000
    ensures LongerView(EncodeColumn(BatchRows(batch, schema), schema, c), batch.columns[c])
  {
    var rows, view, n := BatchRows(batch, schema), batch.columns[c], batch.rowCount;
    assert ValidView(view, schema.columns[c].columnType, n);
    forall i | 0 <= i < n ensures rows[i][c] == Cell(view, schema.columns[c].columnType, n, i) {
      assert rows[i] == BatchRow(batch, schema, i);
    }
    match view
    case IntView(values) =>
      assert EncodeColumn(rows, schema, c).values == values[..n];
    case TextView(offsets, bytes) =>
      assert TextsOf(rows, c) == BatchTexts(offsets, bytes, n);
      OffsetsEncode(offsets, bytes, n);
  }

  /** An accepted batch is the encoding of its rows, perhaps with more behind a column. */
  lemma AcceptedIsEncoded(batch: ColumnBatch, schema: TableSchema)
    requires ValidBatch(batch, schema)
    ensures var rows := BatchRows(batch, schema);
      RowsValid(rows, schema) && GroupIsSmall(rows, schema) && Longer(Encode(rows, schema), batch)
  {
    hide LongerView, EncodeColumn, Cell, ValidView;
    BatchRowsValid(batch, schema);
    var rows := BatchRows(batch, schema);
    forall c | 0 <= c < |schema.columns|
      ensures schema.columns[c].columnType == TextType ==> |Concat(TextsOf(rows, c))| < 0x1_0000_0000
      ensures LongerView(EncodeColumn(rows, schema, c), batch.columns[c])
    {
      DecodedView(batch, schema, c);
    }
  }

  /**
   * Exactly which batches are accepted: the encodings of valid rows with fewer than 2^32 bytes in each
   * text column, with anything behind the spans and the blobs.
   */
  lemma AcceptedIff(batch: ColumnBatch, schema: TableSchema)
    ensures ValidBatch(batch, schema) <==>
      exists rows ::
        RowsValid(rows, schema) && GroupIsSmall(rows, schema) && Longer(Encode(rows, schema), batch)
  {
    hide ValidBatch, Longer, Encode, GroupIsSmall, BatchRows;
    if ValidBatch(batch, schema) {
      AcceptedIsEncoded(batch, schema);
    }
    forall rows | RowsValid(rows, schema) && GroupIsSmall(rows, schema) && Longer(Encode(rows, schema), batch)
      ensures ValidBatch(batch, schema)
    {
      EncodedMeans(rows, batch, schema);
    }
  }

  lemma LongerTwice(a: ColumnBatch, b: ColumnBatch, c: ColumnBatch)
    requires Longer(a, b) && Longer(b, c)
    ensures Longer(a, c)
  {
    forall i | 0 <= i < |a.columns| ensures LongerView(a.columns[i], c.columns[i]) {
      assert LongerView(a.columns[i], b.columns[i]) && LongerView(b.columns[i], c.columns[i]);
    }
  }

  /** More bytes or integers behind the columns of an accepted batch make no difference at all. */
  lemma LongerMeansTheSame(batch: ColumnBatch, longer: ColumnBatch, schema: TableSchema)
    requires ValidBatch(batch, schema) && Longer(batch, longer)
    ensures ValidBatch(longer, schema) && BatchRows(longer, schema) == BatchRows(batch, schema)
    ensures Adds(AppendColumnBatch(longer), schema) == Adds(AppendColumnBatch(batch), schema)
    ensures forall layout | WellFormed(layout) ::
      Apply(AppendColumnBatch(longer), layout, schema) == Apply(AppendColumnBatch(batch), layout, schema)
  {
    hide ValidBatch, BatchRows, Longer, Encode, GroupIsSmall, AddSlices;
    AcceptedIsEncoded(batch, schema);
    LongerTwice(Encode(BatchRows(batch, schema), schema), batch, longer);
    EncodedMeans(BatchRows(batch, schema), longer, schema);
  }

  /** Adding encoded rows, perhaps with more behind them, adds exactly those rows. */
  lemma EncodedIsAdded(rows: seq<Row>, batch: ColumnBatch, layout: Layout, schema: TableSchema)
    requires RowsValid(rows, schema) && GroupIsSmall(rows, schema) && Longer(Encode(rows, schema), batch)
    requires WellFormed(layout)
    ensures AllRows(Apply(AppendColumnBatch(batch), layout, schema)) == AllRows(layout) + rows
  {
    hide ValidBatch, BatchRows, Longer, Encode, GroupIsSmall, AddSlices, WellFormed;
    EncodedMeans(rows, batch, schema);
    ApplyAdds(AppendColumnBatch(batch), layout, schema);
  }

  /** One string with more bytes behind it in the blob. */
  lemma TrailingBytes(text: string, more: string, schema: TableSchema)
    requires |text| < 0x1_0000_0000 && |schema.columns| == 1 && schema.columns[0].columnType == TextType
    ensures var batch := ColumnBatch(1, [TextView([0, |text|], text + more)]);
      ValidBatch(batch, schema) && BatchRows(batch, schema) == [[FromText(text)]]
  {
    var batch := ColumnBatch(1, [TextView([0, |text|], text + more)]);
    assert ValidView(batch.columns[0], TextType, 1);
    assert (text + more)[0..|text|] == text;
    assert BatchRow(batch, schema, 0) == [FromText(text)];
  }
}
