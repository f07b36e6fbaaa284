/**
 * How a table cuts its rows into groups (src/storage/table_storage.cpp), on values: the two sealing
 * policies, and what they agree on.
 */
module TableLayout {
  import opened Ast
  import opened Values
  import opened Schema
  import opened ColumnBatches
  import opened RowGroups
  import opened TextLayout

  /** The rows of the sealed groups, and those of the active group. */
  datatype Layout = Layout(sealed: seq<seq<Row>>, active: seq<Row>)

  const EMPTY_LAYOUT := Layout([], [])

  function Flatten(groups: seq<seq<Row>>): seq<Row> {
    if groups == [] then [] else Flatten(groups[..|groups| - 1]) + groups[|groups| - 1]
  }

  /** The rows of a table, in scan order. */
  function AllRows(layout: Layout): seq<Row> {
    Flatten(layout.sealed) + layout.active
  }

  /** Sealed groups are full, and the active group never overflows. */
  predicate WellFormed(layout: Layout) {
    && (forall g | 0 <= g < |layout.sealed| :: |layout.sealed[g]| == ROW_GROUP_CAPACITY)
    && |layout.active| <= ROW_GROUP_CAPACITY
  }

  // ----- the operations -----

  predicate IsFull(layout: Layout) {
    |layout.active| >= ROW_GROUP_CAPACITY
  }

  function SealIfFull(layout: Layout): Layout {
    if IsFull(layout) then Layout(layout.sealed + [layout.active], []) else layout
  }

  /** Rows seal lazily: a full group is sealed only by the next row, before that row is validated. */
  function AddRow(layout: Layout, row: Row, schema: TableSchema): Layout {
    var ready := SealIfFull(layout);
    if ValidRow(row, schema) then Layout(ready.sealed, ready.active + [row]) else ready
  }

  function AddRows(layout: Layout, rows: seq<Row>, schema: TableSchema): Layout
    decreases |rows|
  {
    if rows == [] then layout
    else if ValidRow(rows[0], schema) then AddRows(AddRow(layout, rows[0], schema), rows[1..], schema)
    else AddRow(layout, rows[0], schema)
  }

  function SliceCount(ready: Layout, pending: nat): nat
    requires |ready.active| <= ROW_GROUP_CAPACITY
  {
    var available := ROW_GROUP_CAPACITY - |ready.active|;
    if pending <= available then pending else available
  }

  /** Batches seal eagerly: a group is sealed as soon as a slice has filled it. */
  function AddSlice(layout: Layout, part: seq<Row>): Layout {
    var ready := SealIfFull(layout);
    SealIfFull(Layout(ready.sealed, ready.active + part))
  }

  function AddSlices(layout: Layout, rows: seq<Row>): Layout
    requires WellFormed(layout)
    decreases |rows|
  {
    if rows == [] then layout
    else
      var count := SliceCount(SealIfFull(layout), |rows|);
      AddSlices(AddSlice(layout, rows[..count]), rows[count..])
  }

  // ----- what one operation does -----

  lemma SealKeepsRows(layout: Layout)
    requires WellFormed(layout)
    ensures WellFormed(SealIfFull(layout)) && |SealIfFull(layout).active| < ROW_GROUP_CAPACITY
    ensures AllRows(SealIfFull(layout)) == AllRows(layout)
  {
    var sealed := layout.sealed + [layout.active];
    assert sealed[..|layout.sealed|] == layout.sealed;
  }

  lemma AddRowRows(layout: Layout, row: Row, schema: TableSchema)
    requires WellFormed(layout)
    ensures WellFormed(AddRow(layout, row, schema))
    ensures AllRows(AddRow(layout, row, schema))
      == AllRows(layout) + if ValidRow(row, schema) then [row] else []
  {
    SealKeepsRows(layout);
  }

  /** The longest prefix of rows that satisfy the schema. */
  function ValidPrefix(rows: seq<Row>, schema: TableSchema): (n: nat)
    ensures n <= |rows|
    ensures forall i | 0 <= i < n :: ValidRow(rows[i], schema)
    ensures n < |rows| ==> !ValidRow(rows[n], schema)
  {
    if rows == [] || !ValidRow(rows[0], schema) then 0
    else
      var n := ValidPrefix(rows[1..], schema);
      assert forall i | 0 < i < n + 1 :: rows[i] == rows[1..][i - 1];
      n + 1
  }

  /** `append_rows` adds exactly the longest valid prefix. */
  lemma {:induction false} AddRowsRows(layout: Layout, rows: seq<Row>, schema: TableSchema)
    requires WellFormed(layout)
    ensures WellFormed(AddRows(layout, rows, schema))
    ensures AllRows(AddRows(layout, rows, schema)) == AllRows(layout) + rows[..ValidPrefix(rows, schema)]
    decreases |rows|
  {
    if rows != [] {
      AddRowRows(layout, rows[0], schema);
      if ValidRow(rows[0], schema) {
        AddRowsRows(AddRow(layout, rows[0], schema), rows[1..], schema);
        var n := ValidPrefix(rows[1..], schema);
        assert rows[..n + 1] == [rows[0]] + rows[1..][..n];
      }
    }
  }

  lemma AddSliceRows(layout: Layout, part: seq<Row>)
    requires WellFormed(layout) && |SealIfFull(layout).active| + |part| <= ROW_GROUP_CAPACITY
    ensures WellFormed(AddSlice(layout, part)) && |AddSlice(layout, part).active| < ROW_GROUP_CAPACITY
    ensures AllRows(AddSlice(layout, part)) == AllRows(layout) + part
  {
    SealKeepsRows(layout);
    SealKeepsRows(Layout(SealIfFull(layout).sealed, SealIfFull(layout).active + part));
  }

  /** A batch adds its rows, however many groups it fills, and leaves no full active group behind. */
  lemma {:induction false} AddSlicesRows(layout: Layout, rows: seq<Row>)
    requires WellFormed(layout)
    ensures WellFormed(AddSlices(layout, rows))
    ensures AllRows(AddSlices(layout, rows)) == AllRows(layout) + rows
    ensures rows != [] ==> |AddSlices(layout, rows).active| < ROW_GROUP_CAPACITY
    decreases |rows|
  {
    hide AddSlice, SealIfFull, SliceCount, AllRows;
    if rows != [] {
      SealKeepsRows(layout);
      SliceCountBounds(SealIfFull(layout), |rows|);
      var count := SliceCount(SealIfFull(layout), |rows|);
      AddSliceRows(layout, rows[..count]);
      AddSlicesRows(AddSlice(layout, rows[..count]), rows[count..]);
      assert rows == rows[..count] + rows[count..];
    }
  }

  /** The loop over slices, `start` rows in. */
  lemma AddSlicesStep(layout: Layout, rows: seq<Row>, start: nat, next: nat)
    requires WellFormed(layout) && start < |rows|
    requires next == start + SliceCount(SealIfFull(layout), |rows| - start)
    ensures start < next <= |rows| && WellFormed(AddSlice(layout, rows[start..next]))
    ensures AddSlices(AddSlice(layout, rows[start..next]), rows[next..]) == AddSlices(layout, rows[start..])
  {
    hide AddSlices, AddSlice, SealIfFull, SliceCount;
    SealKeepsRows(layout);
    SliceCountBounds(SealIfFull(layout), |rows| - start);
    AddSliceRows(layout, rows[start..next]);
    assert rows[start..][..next - start] == rows[start..next];
    assert rows[start..][next - start..] == rows[next..];
    AddSlicesUnfold(layout, rows[start..]);
  }

  lemma SliceCountBounds(ready: Layout, pending: nat)
    requires |ready.active| < ROW_GROUP_CAPACITY && 0 < pending
    ensures 0 < SliceCount(ready, pending) <= pending
    ensures |ready.active| + SliceCount(ready, pending) <= ROW_GROUP_CAPACITY
  {
  }

  lemma AddSlicesUnfold(layout: Layout, rows: seq<Row>)
    requires WellFormed(layout) && rows != []
    ensures |SealIfFull(layout).active| <= ROW_GROUP_CAPACITY
    ensures var count := SliceCount(SealIfFull(layout), |rows|);
      && count <= |rows| && WellFormed(AddSlice(layout, rows[..count]))
      && AddSlices(layout, rows) == AddSlices(AddSlice(layout, rows[..count]), rows[count..])
  {
    hide AddSlice, SealIfFull, SliceCount;
    SealKeepsRows(layout);
    SliceCountBounds(SealIfFull(layout), |rows|);
    AddSliceRows(layout, rows[..SliceCount(SealIfFull(layout), |rows|)]);
  }

  // ----- where a row is -----

  lemma {:induction false} FlattenLength(groups: seq<seq<Row>>)
    requires forall g | 0 <= g < |groups| :: |groups[g]| == ROW_GROUP_CAPACITY
    ensures |Flatten(groups)| == |groups| * ROW_GROUP_CAPACITY
  {
    if groups != [] {
      FlattenLength(groups[..|groups| - 1]);
      assert (|groups| - 1) * ROW_GROUP_CAPACITY + ROW_GROUP_CAPACITY == |groups| * ROW_GROUP_CAPACITY;
    }
  }

  function GroupRows(layout: Layout, g: nat): seq<Row>
    requires g <= |layout.sealed|
  {
    if g < |layout.sealed| then layout.sealed[g] else layout.active
  }

  lemma {:induction false} GroupOffset(groups: seq<seq<Row>>, g: nat)
    requires forall h | 0 <= h < |groups| :: |groups[h]| == ROW_GROUP_CAPACITY
    requires g < |groups|
    ensures (g + 1) * ROW_GROUP_CAPACITY <= |Flatten(groups)|
    ensures Flatten(groups)[g * ROW_GROUP_CAPACITY..(g + 1) * ROW_GROUP_CAPACITY] == groups[g]
  {
    var last := |groups| - 1;
    FlattenLength(groups);
    FlattenLength(groups[..last]);
    MulMonotone(g + 1, |groups|, ROW_GROUP_CAPACITY);
    if g < last {
      GroupOffset(groups[..last], g);
      assert groups[..last][g] == groups[g];
    }
  }

  lemma MulMonotone(a: nat, b: nat, k: nat)
    requires a <= b
    ensures a * k <= b * k
  {
  }

  lemma FlattenWithin(layout: Layout, g: nat, i: nat)
    requires WellFormed(layout) && i < ROW_GROUP_CAPACITY
    requires g * ROW_GROUP_CAPACITY + i < |AllRows(layout)|
    ensures g <= |layout.sealed| && i < |GroupRows(layout, g)|
    ensures GroupRows(layout, g)[i] == AllRows(layout)[g * ROW_GROUP_CAPACITY + i]
  {
    hide Flatten;
    FlattenLength(layout.sealed);
    var n := |layout.sealed|;
    assert (n + 1) * ROW_GROUP_CAPACITY == n * ROW_GROUP_CAPACITY + ROW_GROUP_CAPACITY;
    if g < n {
      GroupOffset(layout.sealed, g);
      var from, to := g * ROW_GROUP_CAPACITY, (g + 1) * ROW_GROUP_CAPACITY;
      assert to == from + ROW_GROUP_CAPACITY;
      assert Flatten(layout.sealed)[from..to][i] == Flatten(layout.sealed)[from + i];
    } else if g > n {
      MulMonotone(n + 1, g, ROW_GROUP_CAPACITY);
    }
  }

  /** Row `k` of a table is in group `k / capacity`, at index `k % capacity`. */
  lemma RowAddress(layout: Layout, k: nat)
    requires WellFormed(layout) && k < |AllRows(layout)|
    ensures k / ROW_GROUP_CAPACITY <= |layout.sealed|
    ensures k % ROW_GROUP_CAPACITY < |GroupRows(layout, k / ROW_GROUP_CAPACITY)|
    ensures GroupRows(layout, k / ROW_GROUP_CAPACITY)[k % ROW_GROUP_CAPACITY] == AllRows(layout)[k]
  {
    Euclid(k);
    FlattenWithin(layout, k / ROW_GROUP_CAPACITY, k % ROW_GROUP_CAPACITY);
  }

  lemma Euclid(n: nat)
    ensures n == n / ROW_GROUP_CAPACITY * ROW_GROUP_CAPACITY + n % ROW_GROUP_CAPACITY
    ensures n % ROW_GROUP_CAPACITY < ROW_GROUP_CAPACITY
  {
  }

  // ----- the rows decide the layout, up to one unsealed full group -----

  lemma {:induction false} SameFlatten(a: seq<seq<Row>>, x: seq<Row>, b: seq<seq<Row>>, y: seq<Row>)
    requires WellFormed(Layout(a, x)) && WellFormed(Layout(b, y))
    requires |x| < ROW_GROUP_CAPACITY && |y| < ROW_GROUP_CAPACITY
    requires Flatten(a) + x == Flatten(b) + y
    ensures a == b && x == y
  {
    FlattenLength(a);
    FlattenLength(b);
    SameQuotient(|a|, |x|, |b|, |y|);
    assert Flatten(a) == (Flatten(a) + x)[..|Flatten(a)|] == Flatten(b);
    assert x == (Flatten(a) + x)[|Flatten(a)|..] == y;
    forall g | 0 <= g < |a| ensures a[g] == b[g] {
      GroupOffset(a, g);
      GroupOffset(b, g);
    }
  }

  lemma SameQuotient(p: nat, r: nat, q: nat, s: nat)
    requires p * ROW_GROUP_CAPACITY + r == q * ROW_GROUP_CAPACITY + s
    requires r < ROW_GROUP_CAPACITY && s < ROW_GROUP_CAPACITY
    ensures p == q && r == s
  {
    assert (p + 1) * ROW_GROUP_CAPACITY == p * ROW_GROUP_CAPACITY + ROW_GROUP_CAPACITY;
    assert (q + 1) * ROW_GROUP_CAPACITY == q * ROW_GROUP_CAPACITY + ROW_GROUP_CAPACITY;
    if p < q {
      MulMonotone(p + 1, q, ROW_GROUP_CAPACITY);
    } else if q < p {
      MulMonotone(q + 1, p, ROW_GROUP_CAPACITY);
    }
  }

  /** Without a full active group the number of sealed groups is the quotient of the row count. */
  lemma EagerSealCount(layout: Layout)
    requires WellFormed(layout) && |layout.active| < ROW_GROUP_CAPACITY
    ensures |layout.sealed| == |AllRows(layout)| / ROW_GROUP_CAPACITY
    ensures |layout.active| == |AllRows(layout)| % ROW_GROUP_CAPACITY
  {
    FlattenLength(layout.sealed);
    Euclid(|AllRows(layout)|);
    SameQuotient(|layout.sealed|, |layout.active|,
      |AllRows(layout)| / ROW_GROUP_CAPACITY, |AllRows(layout)| % ROW_GROUP_CAPACITY);
  }

  /**
   * Two tables with the same rows have the same groups once a full active group is sealed. Their
   * numbers of sealed groups differ exactly if one of them has a full active group and the other has
   * not; then they differ by one, and the row count is a positive multiple of the capacity.
   */
  lemma LayoutsAgree(l: Layout, m: Layout)
    requires WellFormed(l) && WellFormed(m) && AllRows(l) == AllRows(m)
    ensures SealIfFull(l) == SealIfFull(m)
    ensures |l.sealed| != |m.sealed| <==> IsFull(l) != IsFull(m)
    ensures |l.sealed| != |m.sealed| ==>
      && (|l.sealed| == |m.sealed| + 1 || |m.sealed| == |l.sealed| + 1)
      && |AllRows(l)| > 0
      && |AllRows(l)| % ROW_GROUP_CAPACITY == 0
  {
    SealKeepsRows(l);
    SealKeepsRows(m);
    SameFlatten(SealIfFull(l).sealed, SealIfFull(l).active, SealIfFull(m).sealed, SealIfFull(m).active);
    EagerSealCount(SealIfFull(l));
  }

  // ----- what a scan returns -----

  ghost predicate LayoutValid(layout: Layout, schema: TableSchema) {
    && (forall g | 0 <= g < |layout.sealed| :: RowsValid(layout.sealed[g], schema))
    && RowsValid(layout.active, schema)
  }

  lemma {:induction false} FlattenValid(groups: seq<seq<Row>>, schema: TableSchema)
    requires forall g | 0 <= g < |groups| :: RowsValid(groups[g], schema)
    ensures RowsValid(Flatten(groups), schema)
  {
    if groups != [] {
      FlattenValid(groups[..|groups| - 1], schema);
    }
  }

  /** What a scan of these rows returns: each run of `capacity` rows is read from one group. */
  ghost function Scan(rows: seq<Row>, schema: TableSchema): (r: seq<Row>)
    requires RowsValid(rows, schema)
    ensures |r| == |rows| && RowsValid(r, schema)
    decreases |rows|
  {
    if |rows| <= ROW_GROUP_CAPACITY then ReadRows(rows, schema)
    else ReadRows(rows[..ROW_GROUP_CAPACITY], schema) + Scan(rows[ROW_GROUP_CAPACITY..], schema)
  }

  /** In each such run every string is empty or within the 32-bit layout. */
  ghost predicate RowsReadable(rows: seq<Row>, schema: TableSchema)
    decreases |rows|
  {
    if |rows| <= ROW_GROUP_CAPACITY then Readable(rows, schema)
    else Readable(rows[..ROW_GROUP_CAPACITY], schema) && RowsReadable(rows[ROW_GROUP_CAPACITY..], schema)
  }

  /** Then a scan returns exactly the rows that were added. */
  lemma {:induction false} ScanExact(rows: seq<Row>, schema: TableSchema)
    requires RowsValid(rows, schema) && RowsReadable(rows, schema)
    ensures Scan(rows, schema) == rows
    decreases |rows|
  {
    if |rows| <= ROW_GROUP_CAPACITY {
      ReadRowsExact(rows, schema);
    } else {
      ReadRowsExact(rows[..ROW_GROUP_CAPACITY], schema);
      ScanExact(rows[ROW_GROUP_CAPACITY..], schema);
    }
  }

  lemma SameLengthsPart(rows: seq<Row>, other: seq<Row>, schema: TableSchema, from: nat, to: nat)
    requires SameTextLengths(rows, other, schema) && from <= to <= |rows|
    ensures SameTextLengths(rows[from..to], other[from..to], schema)
  {
    forall c | 0 <= c < |schema.columns| && schema.columns[c].columnType == TextType
      ensures SameLengths(TextsOf(rows[from..to], c), TextsOf(other[from..to], c))
    {
      assert SameLengths(TextsOf(rows, c), TextsOf(other, c));
      assert TextsOf(rows[from..to], c) == TextsOf(rows, c)[from..to];
      assert TextsOf(other[from..to], c) == TextsOf(other, c)[from..to];
    }
  }

  lemma {:induction false} SameRowsReadable(rows: seq<Row>, other: seq<Row>, schema: TableSchema)
    requires SameTextLengths(rows, other, schema) && RowsReadable(rows, schema)
    ensures RowsReadable(other, schema)
    decreases |rows|
  {
    hide Readable, SameTextLengths;
    assert |rows| == |other| by { SameCount(rows, other, schema); }
    if |rows| <= ROW_GROUP_CAPACITY {
      SameReadable(rows, other, schema);
    } else {
      var n := ROW_GROUP_CAPACITY;
      SameLengthsPart(rows, other, schema, 0, n);
      assert rows[0..n] == rows[..n] && other[0..n] == other[..n];
      SameReadable(rows[..n], other[..n], schema);
      SameLengthsPart(rows, other, schema, n, |rows|);
      assert rows[n..|rows|] == rows[n..] && other[n..|rows|] == other[n..];
      SameRowsReadable(rows[n..], other[n..], schema);
    }
  }

  lemma SameCount(rows: seq<Row>, other: seq<Row>, schema: TableSchema)
    requires SameTextLengths(rows, other, schema)
    ensures |rows| == |other|
  {
  }

  lemma SameTextAppend(a: seq<Row>, b: seq<Row>, x: seq<Row>, y: seq<Row>, schema: TableSchema)
    requires SameTextLengths(a, x, schema) && SameTextLengths(b, y, schema)
    ensures SameTextLengths(a + b, x + y, schema)
  {
    forall c | 0 <= c < |schema.columns| && schema.columns[c].columnType == TextType
      ensures SameLengths(TextsOf(a + b, c), TextsOf(x + y, c))
    {
      assert TextsOf(a + b, c) == TextsOf(a, c) + TextsOf(b, c);
      assert TextsOf(x + y, c) == TextsOf(x, c) + TextsOf(y, c);
      assert SameLengths(TextsOf(a, c), TextsOf(x, c)) && SameLengths(TextsOf(b, c), TextsOf(y, c));
    }
  }

  /** A table with a string that does not fit is misread for some bytes of the same lengths. */
  lemma {:induction false} ScanMisread(rows: seq<Row>, schema: TableSchema) returns (other: seq<Row>)
    requires RowsValid(rows, schema) && !RowsReadable(rows, schema)
    ensures SameTextLengths(rows, other, schema) && Scan(other, schema) != other
    decreases |rows|
  {
    hide Readable;
    var n := ROW_GROUP_CAPACITY;
    if |rows| <= n {
      other := GroupMisread(rows, schema);
    } else {
      var first, rest := rows[..n], rows[n..];
      assert rows == first + rest;
      if !Readable(first, schema) {
        first := GroupMisread(first, schema);
      } else {
        rest := ScanMisread(rest, schema);
      }
      SameTextAppend(rows[..n], rows[n..], first, rest, schema);
      other := first + rest;
      ScanFront(first, rest, schema);
      DifferentParts(ReadRows(first, schema), Scan(rest, schema), first, rest);
    }
  }

  lemma DifferentParts(a: seq<Row>, b: seq<Row>, x: seq<Row>, y: seq<Row>)
    requires |a| == |x| && (a != x || b != y)
    ensures a + b != x + y
  {
    assert (a + b)[..|a|] == a && (a + b)[|a|..] == b;
    assert (x + y)[..|x|] == x && (x + y)[|x|..] == y;
  }

  /**
   * Exactly when a scan returns the rows that were added: it does for all rows with text of these
   * lengths if and only if in every run every string is empty or within the 32-bit layout.
   */
  lemma ScanExactIff(rows: seq<Row>, schema: TableSchema)
    requires RowsValid(rows, schema)
    ensures (forall other | SameTextLengths(rows, other, schema) :: Scan(other, schema) == other)
      <==> RowsReadable(rows, schema)
  {
    if RowsReadable(rows, schema) {
      forall other | SameTextLengths(rows, other, schema) ensures Scan(other, schema) == other {
        SameRowsReadable(rows, other, schema);
        ScanExact(other, schema);
      }
    } else {
      var other := ScanMisread(rows, schema);
    }
  }

  /** A row whose only cell has 2^32 bytes is scanned as one with an empty cell. */
  lemma WrappedScanIsWrong(text: string, schema: TableSchema)
    requires |text| == UINT32 && |schema.columns| == 1 && schema.columns[0].columnType == TextType
    ensures RowsValid([[FromText(text)]], schema)
    ensures Scan([[FromText(text)]], schema) == [[FromText("")]] != [[FromText(text)]]
  {
    var rows := [[FromText(text)]];
    assert TextsOf(rows, 0) == [text];
    WrappedReadIsWrong(text);
    assert ReadRow(rows, schema, 0) == [ReadCell(rows, schema, 0, 0)];
    assert [FromText("")][0] != [FromText(text)][0];
  }

  // ----- a bound in bytes -----

  /** In every run the strings of each text column have fewer than 2^32 bytes in all. */
  ghost predicate RunsAreSmall(rows: seq<Row>, schema: TableSchema)
    decreases |rows|
  {
    if |rows| <= ROW_GROUP_CAPACITY then GroupIsSmall(rows, schema)
    else GroupIsSmall(rows[..ROW_GROUP_CAPACITY], schema) && RunsAreSmall(rows[ROW_GROUP_CAPACITY..], schema)
  }

  ghost predicate GroupIsSmall(rows: seq<Row>, schema: TableSchema) {
    forall c | 0 <= c < |schema.columns| && schema.columns[c].columnType == TextType ::
      |Concat(TextsOf(rows, c))| < UINT32
  }

  lemma SmallGroupReadable(rows: seq<Row>, schema: TableSchema)
    requires GroupIsSmall(rows, schema)
    ensures Readable(rows, schema)
  {
    forall c | 0 <= c < |schema.columns| && schema.columns[c].columnType == TextType
      ensures AllFit(TextsOf(rows, c))
    {
      SmallBlobFits(TextsOf(rows, c));
    }
  }

  /** Such a table is scanned exactly. */
  lemma {:induction false} SmallRunsReadable(rows: seq<Row>, schema: TableSchema)
    requires RunsAreSmall(rows, schema)
    ensures RowsReadable(rows, schema)
    decreases |rows|
  {
    hide GroupIsSmall, Readable;
    if |rows| <= ROW_GROUP_CAPACITY {
      SmallGroupReadable(rows, schema);
    } else {
      SmallGroupReadable(rows[..ROW_GROUP_CAPACITY], schema);
      SmallRunsReadable(rows[ROW_GROUP_CAPACITY..], schema);
    }
  }

  /** A table that reads back exactly did so before its last rows were added. */
  lemma {:induction false} RowsReadablePrefix(rows: seq<Row>, schema: TableSchema, n: nat)
    requires n <= |rows| && RowsReadable(rows, schema)
    ensures RowsReadable(rows[..n], schema)
    decreases |rows|
  {
    if n <= ROW_GROUP_CAPACITY {
      var first := if |rows| <= ROW_GROUP_CAPACITY then rows else rows[..ROW_GROUP_CAPACITY];
      assert rows[..n] == first[..n];
      ReadablePrefix(first, schema, n);
    } else {
      assert rows[..n][..ROW_GROUP_CAPACITY] == rows[..ROW_GROUP_CAPACITY];
      assert rows[..n][ROW_GROUP_CAPACITY..] == rows[ROW_GROUP_CAPACITY..][..n - ROW_GROUP_CAPACITY];
      RowsReadablePrefix(rows[ROW_GROUP_CAPACITY..], schema, n - ROW_GROUP_CAPACITY);
    }
  }

  lemma {:induction false} FlattenFront(groups: seq<seq<Row>>)
    requires groups != []
    ensures Flatten(groups) == groups[0] + Flatten(groups[1..])
  {
    var last := |groups| - 1;
    if last != 0 {
      FlattenFront(groups[..last]);
      assert groups[..last][1..] == groups[1..][..last - 1];
    }
  }

  /** What the groups return, group by group. */
  ghost function ReadLayout(layout: Layout, schema: TableSchema): Layout
    requires LayoutValid(layout, schema)
  {
    Layout(
      seq(|layout.sealed|, g requires 0 <= g < |layout.sealed| => ReadRows(layout.sealed[g], schema)),
      ReadRows(layout.active, schema))
  }

  /** Reading the groups in turn is the scan of the rows, however the rows were cut into groups. */
  lemma {:induction false} ReadLayoutScan(layout: Layout, schema: TableSchema)
    requires WellFormed(layout) && LayoutValid(layout, schema)
    ensures RowsValid(AllRows(layout), schema)
    ensures AllRows(ReadLayout(layout, schema)) == Scan(AllRows(layout), schema)
    decreases |layout.sealed|
  {
    FlattenValid(layout.sealed, schema);
    var read := ReadLayout(layout, schema);
    if layout.sealed == [] {
      assert AllRows(layout) == layout.active && AllRows(read) == read.active;
    } else {
      var first, rest := layout.sealed[0], Layout(layout.sealed[1..], layout.active);
      assert read.sealed[1..] == ReadLayout(rest, schema).sealed;
      AllRowsFront(layout);
      AllRowsFront(read);
      ReadLayoutScan(rest, schema);
      ScanFront(first, AllRows(rest), schema);
    }
  }

  lemma AllRowsFront(layout: Layout)
    requires layout.sealed != []
    ensures AllRows(layout) == layout.sealed[0] + AllRows(Layout(layout.sealed[1..], layout.active))
  {
    FlattenFront(layout.sealed);
  }

  lemma ScanFront(group: seq<Row>, rest: seq<Row>, schema: TableSchema)
    requires |group| == ROW_GROUP_CAPACITY && RowsValid(group, schema) && RowsValid(rest, schema)
    ensures RowsValid(group + rest, schema)
    ensures Scan(group + rest, schema) == ReadRows(group, schema) + Scan(rest, schema)
  {
    if rest == [] {
      assert group + rest == group;
    } else {
      assert (group + rest)[..ROW_GROUP_CAPACITY] == group;
      assert (group + rest)[ROW_GROUP_CAPACITY..] == rest;
    }
  }

  // ----- histories -----

  datatype Operation =
    | AppendRow(values: Row)
    | AppendRows(rows: seq<Row>)
    | AppendColumnBatch(batch: ColumnBatch)

  ghost function Apply(op: Operation, layout: Layout, schema: TableSchema): Layout
    requires WellFormed(layout)
  {
    match op
    case AppendRow(values) => AddRow(layout, values, schema)
    case AppendRows(rows) => AddRows(layout, rows, schema)
    case AppendColumnBatch(batch) =>
      if ValidBatch(batch, schema) then AddSlices(layout, BatchRows(batch, schema)) else layout
  }

  /** The rows an operation is meant to add. */
  ghost function Adds(op: Operation, schema: TableSchema): seq<Row> {
    match op
    case AppendRow(values) => if ValidRow(values, schema) then [values] else []
    case AppendRows(rows) => rows[..ValidPrefix(rows, schema)]
    case AppendColumnBatch(batch) => if ValidBatch(batch, schema) then BatchRows(batch, schema) else []
  }

  ghost function AddedBy(history: seq<Operation>, schema: TableSchema): seq<Row> {
    if history == [] then []
    else AddedBy(history[..|history| - 1], schema) + Adds(history[|history| - 1], schema)
  }

  lemma ApplyAdds(op: Operation, layout: Layout, schema: TableSchema)
    requires WellFormed(layout)
    ensures WellFormed(Apply(op, layout, schema))
    ensures AllRows(Apply(op, layout, schema)) == AllRows(layout) + Adds(op, schema)
  {
    match op
    case AppendRow(values) => AddRowRows(layout, values, schema);
    case AppendRows(rows) => AddRowsRows(layout, rows, schema);
    case AppendColumnBatch(batch) =>
      if ValidBatch(batch, schema) {
        AddSlicesRows(layout, BatchRows(batch, schema));
      }
  }

  /** What a new table becomes. */
  ghost function Run(history: seq<Operation>, schema: TableSchema): (layout: Layout)
    ensures WellFormed(layout)
  {
    if history == [] then EMPTY_LAYOUT
    else
      var before := Run(history[..|history| - 1], schema);
      ApplyAdds(history[|history| - 1], before, schema);
      Apply(history[|history| - 1], before, schema)
  }

  /** A table holds exactly the rows its history added, in order. */
  lemma {:induction false} RunRows(history: seq<Operation>, schema: TableSchema)
    ensures AllRows(Run(history, schema)) == AddedBy(history, schema)
  {
    if history != [] {
      RunRows(history[..|history| - 1], schema);
      ApplyAdds(history[|history| - 1], Run(history[..|history| - 1], schema), schema);
    }
  }

  // ----- when groups are sealed -----

  /** A single row leaves as many sealed groups as the rows before it fill. */
  lemma AddRowSeals(layout: Layout, row: Row, schema: TableSchema)
    requires WellFormed(layout)
    ensures |AddRow(layout, row, schema).sealed| == |AllRows(layout)| / ROW_GROUP_CAPACITY
  {
    SealKeepsRows(layout);
    EagerSealCount(SealIfFull(layout));
  }

  /** A list is sealed like its last row that was tried. */
  lemma {:induction false} AddRowsSeals(layout: Layout, rows: seq<Row>, schema: TableSchema)
    requires WellFormed(layout) && rows != []
    ensures var n := ValidPrefix(rows, schema);
      |AddRows(layout, rows, schema).sealed|
      == (|AllRows(layout)| + if n == |rows| then n - 1 else n) / ROW_GROUP_CAPACITY
    decreases |rows|
  {
    hide AllRows, AddRow, ValidRow;
    AddRowSeals(layout, rows[0], schema);
    AddRowRows(layout, rows[0], schema);
    if ValidRow(rows[0], schema) && |rows| > 1 {
      AddRowsSeals(AddRow(layout, rows[0], schema), rows[1..], schema);
    }
  }

  /**
   * The rows and the last operation that did anything decide the groups: after a single row, or a list
   * that was accepted, the last row has not sealed its group even if it filled it; after a rejected row,
   * or a batch with rows, every full group is sealed.
   */
  lemma LastOperationSeals(history: seq<Operation>, schema: TableSchema)
    requires history != []
    ensures var front, last := history[..|history| - 1], history[|history| - 1];
      var before, after := |AddedBy(front, schema)|, |AddedBy(history, schema)|;
      match last
      case AppendRow(_) => |Run(history, schema).sealed| == before / ROW_GROUP_CAPACITY
      case AppendRows(rows) =>
        if rows == [] then Run(history, schema) == Run(front, schema)
        else if ValidPrefix(rows, schema) == |rows| then
          |Run(history, schema).sealed| == (after - 1) / ROW_GROUP_CAPACITY
        else |Run(history, schema).sealed| == after / ROW_GROUP_CAPACITY
      case AppendColumnBatch(batch) =>
        if !ValidBatch(batch, schema) || batch.rowCount == 0 then Run(history, schema) == Run(front, schema)
        else |Run(history, schema).sealed| == after / ROW_GROUP_CAPACITY
  {
    hide AllRows, AddRow, AddRows, AddSlices, ValidBatch, BatchRow;
    var front, last := history[..|history| - 1], history[|history| - 1];
    RunRows(front, schema);
    RunRows(history, schema);
    match last
    case AppendRow(values) => AddRowSeals(Run(front, schema), values, schema);
    case AppendRows(rows) => ListSeals(Run(front, schema), rows, schema);
    case AppendColumnBatch(batch) =>
      if ValidBatch(batch, schema) {
        BatchSeals(Run(front, schema), BatchRows(batch, schema));
      }
  }

  lemma ListSeals(layout: Layout, rows: seq<Row>, schema: TableSchema)
    requires WellFormed(layout)
    ensures rows == [] ==> AddRows(layout, rows, schema) == layout
    ensures rows != [] ==>
      var n := ValidPrefix(rows, schema);
      |AddRows(layout, rows, schema).sealed|
      == (|AllRows(layout)| + if n == |rows| then n - 1 else n) / ROW_GROUP_CAPACITY
  {
    if rows != [] {
      AddRowsSeals(layout, rows, schema);
    }
  }

  lemma BatchSeals(layout: Layout, rows: seq<Row>)
    requires WellFormed(layout)
    ensures rows == [] ==> AddSlices(layout, rows) == layout
    ensures rows != [] ==> |AddSlices(layout, rows).sealed| == |AllRows(layout) + rows| / ROW_GROUP_CAPACITY
  {
    AddSlicesRows(layout, rows);
    if rows != [] {
      EagerSealCount(AddSlices(layout, rows));
    }
  }

  /**
   * Path independence: however two histories mix single rows, lists and batches, if they add the
   * same rows then they scan alike and their groups differ at most in one full group being sealed.
   */
  lemma PathIndependence(h: seq<Operation>, k: seq<Operation>, schema: TableSchema)
    requires AddedBy(h, schema) == AddedBy(k, schema)
    ensures var l, m := Run(h, schema), Run(k, schema);
      && AllRows(l) == AllRows(m) && SealIfFull(l) == SealIfFull(m)
      && (|l.sealed| != |m.sealed| <==> IsFull(l) != IsFull(m))
      && (|l.sealed| != |m.sealed| ==>
        && (|l.sealed| == |m.sealed| + 1 || |m.sealed| == |l.sealed| + 1)
        && |AllRows(l)| > 0
        && |AllRows(l)| % ROW_GROUP_CAPACITY == 0)
  {
    RunRows(h, schema);
    RunRows(k, schema);
    LayoutsAgree(Run(h, schema), Run(k, schema));
  }
}
