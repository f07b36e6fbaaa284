/** A table: sealed row groups and one active group (src/storage/table_storage.hpp and .cpp). */
module TableStorages {
  import opened Prelude
  import opened Values
  import opened Schema
  import opened ColumnBatches
  import opened RowGroups
  import opened TableLayout

  predicate OrdinalsInRange(ordinals: seq<nat>, schema: TableSchema) {
    forall i | 0 <= i < |ordinals| :: ordinals[i] < |schema.columns|
  }

  function ProjectRows(rows: seq<Row>, schema: TableSchema, ordinals: seq<nat>): seq<Row>
    requires RowsValid(rows, schema) && OrdinalsInRange(ordinals, schema)
  {
    seq(|rows|, k requires 0 <= k < |rows| => assert ValidRow(rows[k], schema); ProjectRow(rows[k], ordinals))
  }

  function ProjectRow(row: Row, ordinals: seq<nat>): Row
    requires forall i | 0 <= i < |ordinals| :: ordinals[i] < |row|
  {
    seq(|ordinals|, i requires 0 <= i < |ordinals| => row[ordinals[i]])
  }

  /** Value `i` of each projected row is the value its row has at ordinal `i`, and there are no others. */
  predicate AreProjected(projected: seq<Row>, rows: seq<Row>, ordinals: seq<nat>) {
    && |projected| == |rows|
    && forall k | 0 <= k < |rows| ::
      && |projected[k]| == |ordinals|
      && forall i | 0 <= i < |ordinals| :: ordinals[i] < |rows[k]| && projected[k][i] == rows[k][ordinals[i]]
  }

  lemma ProjectedByOrdinal(rows: seq<Row>, schema: TableSchema, ordinals: seq<nat>)
    requires RowsValid(rows, schema) && OrdinalsInRange(ordinals, schema)
    ensures AreProjected(ProjectRows(rows, schema, ordinals), rows, ordinals)
  {
    forall k | 0 <= k < |rows| ensures forall i | 0 <= i < |ordinals| :: ordinals[i] < |rows[k]| {
      assert ValidRow(rows[k], schema);
    }
  }

  /** A valid group for a schema, with the given rows. */
  ghost predicate Holds(group: RowGroup, schema: TableSchema, rows: seq<Row>)
    reads group, group.Repr
  {
    group.Valid() && group.schema == schema && group.rows == rows
  }

  /** The sealed groups, all within `owned`, hold these rows. */
  ghost predicate AllHold(groups: seq<RowGroup>, schema: TableSchema, rows: seq<seq<Row>>, owned: set<object>)
    reads owned
  {
    && |groups| == |rows|
    && (forall g | 0 <= g < |groups| :: groups[g] in owned && groups[g].Repr <= owned)
    && (forall g | 0 <= g < |groups| :: Holds(groups[g], schema, rows[g]))
  }

  lemma AllHoldAppend(groups: seq<RowGroup>, schema: TableSchema, rows: seq<seq<Row>>, owned: set<object>,
                      group: RowGroup, more: seq<Row>)
    requires AllHold(groups, schema, rows, owned) && Holds(group, schema, more)
    ensures AllHold(groups + [group], schema, rows + [more], owned + group.Repr)
  {
    hide RowGroup.Valid;
  }

  class TableStorage {
    const schema: TableSchema
    var sealedGroups: seq<RowGroup>
    var active: RowGroup
    ghost var layout: Layout
    ghost var sealedRepr: set<object>
    ghost var Repr: set<object>

    ghost predicate Valid()
      reads this, Repr
      ensures Valid() ==> this in Repr
    {
      && Owned()
      && schema.columns != []
      && WellFormed(layout)
      && Holds(active, schema, layout.active)
      && AllHold(sealedGroups, schema, layout.sealed, sealedRepr)
    }

    /** The table, its sealed groups and its active group share no object. */
    ghost predicate Owned()
      reads this
    {
      && this in Repr && active in Repr && active.Repr <= Repr && sealedRepr <= Repr
      && this !in active.Repr && this !in sealedRepr && active.Repr !! sealedRepr
    }

    /** The abstract value of the table. */
    ghost function Rows(): (rows: seq<Row>)
      requires Valid()
      reads this, Repr
      ensures RowsValid(rows, schema)
    {
      RowsAreValid();
      AllRows(layout)
    }

    lemma RowsAreValid()
      requires Valid()
      ensures LayoutValid(layout, schema) && RowsValid(AllRows(layout), schema)
      ensures AllRows(ReadLayout(layout, schema)) == Scan(AllRows(layout), schema)
    {
      forall g | 0 <= g < |layout.sealed| ensures RowsValid(layout.sealed[g], schema) {
        assert Holds(sealedGroups[g], schema, layout.sealed[g]);
      }
      ReadLayoutScan(layout, schema);
    }

    constructor (schema: TableSchema)
      requires schema.columns != []
      ensures Valid() && fresh(Repr)
      ensures this.schema == schema && layout == EMPTY_LAYOUT && Rows() == []
    {
      var group := new RowGroup(schema);
      this.schema := schema;
      sealedGroups, active := [], group;
      layout := EMPTY_LAYOUT;
      sealedRepr := {};
      Repr := {this} + group.Repr;
    }

    method RowCount() returns (total: nat)
      requires Valid()
      ensures total == |Rows()|
    {
      total := active.RowCount();
      for g := 0 to |sealedGroups|
        invariant total == |active.rows| + |Flatten(layout.sealed[..g])|
      {
        assert layout.sealed[..g + 1][..g] == layout.sealed[..g];
        total := total + sealedGroups[g].RowCount();
      }
      assert layout.sealed[..|sealedGroups|] == layout.sealed;
    }

    method SealActiveIfFull()
      requires Valid()
      modifies this
      ensures Valid() && fresh(Repr - old(Repr))
      ensures layout == SealIfFull(old(layout))
      ensures active == old(active) || fresh(active.Repr)
    {
      if !active.IsFull() {
        return;
      }
      hide WellFormed, RowGroup.Valid;
      SealKeepsRows(layout);
      AllHoldAppend(sealedGroups, schema, layout.sealed, sealedRepr, active, layout.active);
      var group := new RowGroup(schema);
      ghost var sealed := layout.sealed + [layout.active];
      sealedRepr, sealedGroups, active := sealedRepr + active.Repr, sealedGroups + [active], group;
      layout, Repr := Layout(sealed, []), Repr + group.Repr;
      assert AllHold(sealedGroups, schema, sealed, sealedRepr);
      assert Owned() && Holds(active, schema, []);
      hide AllHold, Holds, Owned;
    }

    /** `active_.append_row` */
    method PushRow(values: Row) returns (status: Status)
      requires Valid() && |layout.active| < ROW_GROUP_CAPACITY
      modifies Repr
      ensures Valid() && Repr == old(Repr)
      ensures status.Success? <==> ValidRow(values, schema)
      ensures layout == Layout(old(layout).sealed,
        if status.Success? then old(layout).active + [values] else old(layout).active)
    {
      status := active.AppendRow(values);
      layout := Layout(layout.sealed, active.rows);
    }

    /** `active_.append_column_batch` on a slice that fits: it cannot be refused. */
    method PushSlice(slice: ColumnBatch) returns (status: Status)
      requires Valid() && ValidBatch(slice, schema) && Tight(slice)
      requires 0 < slice.rowCount <= ROW_GROUP_CAPACITY - |layout.active|
      modifies Repr
      ensures Valid() && Repr == old(Repr)
      ensures status == Success
      ensures layout == Layout(old(layout).sealed, old(layout).active + BatchRows(slice, schema))
    {
      AbsorbedRowsIffTight(slice, schema);
      status := active.AppendColumnBatch(slice);
      layout := Layout(layout.sealed, active.rows);
    }

    method AppendToActive(values: Row) returns (status: Status)
      requires Valid()
      modifies Repr
      ensures Valid() && fresh(Repr - old(Repr))
      ensures status.Success? <==> ValidRow(values, schema)
      ensures layout == AddRow(old(layout), values, schema)
    {
      SealKeepsRows(layout);
      if active.IsFull() {
        SealActiveIfFull();
      }
      status := PushRow(values);
    }

    method AppendBatchToActive(batch: ColumnBatch) returns (status: Status)
      requires Valid() && ValidBatch(batch, schema)
      modifies Repr
      ensures Valid() && fresh(Repr - old(Repr))
      ensures status == Success
      ensures layout == AddSlices(old(layout), BatchRows(batch, schema))
    {
      ghost var rows := BatchRows(batch, schema);
      var start := 0;
      while start < batch.rowCount
        invariant 0 <= start <= batch.rowCount
        invariant Valid() && fresh(Repr - old(Repr))
        invariant AddSlices(layout, rows[start..]) == AddSlices(old(layout), rows)
      {
        ghost var before := layout;
        var next := AppendSlice(batch, start);
        AddSlicesStep(before, rows, start, next);
        start := next;
      }
      status := Success;
    }

    /** One turn of the loop. */
    method AppendSlice(batch: ColumnBatch, start: nat) returns (next: nat)
      requires Valid() && ValidBatch(batch, schema) && start < batch.rowCount
      modifies Repr
      ensures Valid() && fresh(Repr - old(Repr))
      ensures next == start + SliceCount(SealIfFull(old(layout)), batch.rowCount - start)
      ensures next <= batch.rowCount
      ensures layout == AddSlice(old(layout), BatchRows(batch, schema)[start..next])
    {
      SealKeepsRows(layout);
      if active.IsFull() {
        SealActiveIfFull();
      }
      next := FillActive(batch, start);
      SealActiveIfFull();
    }

    /** Cuts the next slice and appends it: no slice can be refused, so no batch stops half-way. */
    method FillActive(batch: ColumnBatch, start: nat) returns (next: nat)
      requires Valid() && ValidBatch(batch, schema) && start < batch.rowCount
      requires |layout.active| < ROW_GROUP_CAPACITY
      modifies Repr
      ensures Valid() && Repr == old(Repr)
      ensures next == start + SliceCount(old(layout), batch.rowCount - start)
      ensures next <= batch.rowCount
      ensures layout == Layout(old(layout).sealed, old(layout).active + BatchRows(batch, schema)[start..next])
    {
      var available := ROW_GROUP_CAPACITY - active.RowCount();
      var count := if batch.rowCount - start < available then batch.rowCount - start else available;
      var slice := MakeBatchSlice(batch, schema, start, count);
      next := start + count;
      assert BatchRows(slice, schema) == BatchRows(batch, schema)[start..next];
      var status := PushSlice(slice);
      assert status == Success;
    }

    method AppendRow(row: Row) returns (status: Status)
      requires Valid()
      modifies Repr
      ensures Valid() && fresh(Repr - old(Repr))
      ensures status.Success? <==> ValidRow(row, schema)
      ensures layout == AddRow(old(layout), row, schema)
      ensures Rows() == old(Rows()) + if status.Success? then [row] else []
    {
      AddRowRows(layout, row, schema);
      status := AppendToActive(row);
    }

    method AppendRows(rows: seq<Row>) returns (status: Status)
      requires Valid()
      modifies Repr
      ensures Valid() && fresh(Repr - old(Repr))
      ensures layout == AddRows(old(layout), rows, schema)
      ensures status.Success? <==> ValidPrefix(rows, schema) == |rows|
      ensures Rows() == old(Rows()) + rows[..ValidPrefix(rows, schema)]
    {
      AddRowsRows(layout, rows, schema);
      for i := 0 to |rows|
        invariant Valid() && fresh(Repr - old(Repr))
        invariant forall j | 0 <= j < i :: ValidRow(rows[j], schema)
        invariant AddRows(layout, rows[i..], schema) == AddRows(old(layout), rows, schema)
      {
        assert rows[i..][1..] == rows[i + 1..];
        status := AppendRow(rows[i]);
        if status.Failure? {
          return;
        }
      }
      status := Success;
    }

    /** All or nothing: the decoded rows are added if the batch is valid, and nothing changes if not. */
    method AppendColumnBatch(batch: ColumnBatch) returns (status: Status)
      requires Valid()
      modifies Repr
      ensures Valid() && fresh(Repr - old(Repr))
      ensures status.Success? <==> ValidBatch(batch, schema)
      ensures status.Success? ==>
        layout == AddSlices(old(layout), BatchRows(batch, schema))
        && Rows() == old(Rows()) + BatchRows(batch, schema)
      ensures status.Failure? ==> unchanged(old(Repr))
    {
      status := ValidateColumnBatch(batch, schema);
      if status.Failure? {
        return;
      }
      AddSlicesRows(layout, BatchRows(batch, schema));
      status := AppendBatchToActive(batch);
    }

    /** The rows handed to the callback, in order. */
    method ForEachRow() returns (visited: seq<Row>)
      requires Valid()
      ensures visited == Scan(Rows(), schema)
    {
      RowsAreValid();
      ghost var read := ReadLayout(layout, schema);
      visited := [];
      for g := 0 to |sealedGroups|
        invariant visited == Flatten(read.sealed[..g])
      {
        assert read.sealed[..g + 1][..g] == read.sealed[..g];
        assert Holds(sealedGroups[g], schema, layout.sealed[g]);
        var part := VisitGroup(sealedGroups[g]);
        visited := visited + part;
      }
      assert read.sealed[..|sealedGroups|] == read.sealed;
      var part := VisitGroup(active);
      visited := visited + part;
    }

    /** The projected rows handed to the callback; none if some ordinal is out of range. */
    method ScanProjected(ordinals: seq<nat>) returns (status: Status, emitted: seq<Row>)
      requires Valid()
      ensures status.Success? <==> OrdinalsInRange(ordinals, schema)
      ensures emitted == if status.Success? then ProjectRows(Scan(Rows(), schema), schema, ordinals) else []
      ensures status.Success? ==> AreProjected(emitted, Scan(Rows(), schema), ordinals)
    {
      emitted := [];
      for i := 0 to |ordinals|
        invariant forall j | 0 <= j < i :: ordinals[j] < |schema.columns|
      {
        if ordinals[i] >= |schema.columns| {
          return Failure, [];
        }
      }
      RowsAreValid();
      ghost var read := ReadLayout(layout, schema);
      for g := 0 to |sealedGroups|
        invariant RowsValid(Flatten(read.sealed[..g]), schema)
        invariant emitted == ProjectRows(Flatten(read.sealed[..g]), schema, ordinals)
      {
        assert read.sealed[..g + 1][..g] == read.sealed[..g];
        assert Holds(sealedGroups[g], schema, layout.sealed[g]);
        var part := ScanGroup(sealedGroups[g], ordinals);
        ProjectAppend(Flatten(read.sealed[..g]), read.sealed[g], schema, ordinals);
        emitted := emitted + part;
      }
      assert read.sealed[..|sealedGroups|] == read.sealed;
      var part := ScanGroup(active, ordinals);
      ProjectAppend(Flatten(read.sealed), read.active, schema, ordinals);
      emitted := emitted + part;
      status := Success;
      ProjectedByOrdinal(Scan(Rows(), schema), schema, ordinals);
    }
  }

  /** A new table after any history of appends is what the layout functions say. */
  method Replay(schema: TableSchema, history: seq<Operation>) returns (table: TableStorage)
    requires schema.columns != []
    ensures table.Valid() && fresh(table.Repr) && table.schema == schema
    ensures table.layout == Run(history, schema)
    ensures table.Rows() == AddedBy(history, schema)
  {
    RunRows(history, schema);
    table := new TableStorage(schema);
    for i := 0 to |history|
      invariant table.Valid() && fresh(table.Repr) && table.schema == schema
      invariant table.layout == Run(history[..i], schema)
    {
      assert history[..i + 1][..i] == history[..i];
      Perform(table, history[i]);
    }
    assert history[..|history|] == history;
  }

  method Perform(table: TableStorage, op: Operation)
    requires table.Valid()
    modifies table.Repr
    ensures table.Valid() && fresh(table.Repr - old(table.Repr))
    ensures table.layout == Apply(op, old(table.layout), table.schema)
  {
    match op {
      case AppendRow(values) => var _ := table.AppendRow(values);
      case AppendRows(rows) => var _ := table.AppendRows(rows);
      case AppendColumnBatch(batch) => var _ := table.AppendColumnBatch(batch);
    }
  }

  lemma ProjectAppend(a: seq<Row>, b: seq<Row>, schema: TableSchema, ordinals: seq<nat>)
    requires RowsValid(a, schema) && RowsValid(b, schema) && OrdinalsInRange(ordinals, schema)
    ensures RowsValid(a + b, schema)
    ensures ProjectRows(a + b, schema, ordinals) == ProjectRows(a, schema, ordinals) + ProjectRows(b, schema, ordinals)
  {
  }

  method VisitGroup(group: RowGroup) returns (visited: seq<Row>)
    requires group.Valid()
    ensures visited == ReadRows(group.rows, group.schema)
  {
    visited := [];
    for rowIndex := 0 to group.RowCount()
      invariant visited == ReadRows(group.rows, group.schema)[..rowIndex]
    {
      var row := group.MaterializeRow(rowIndex);
      visited := visited + [row];
    }
  }

  method ScanGroup(group: RowGroup, ordinals: seq<nat>) returns (emitted: seq<Row>)
    requires group.Valid() && OrdinalsInRange(ordinals, group.schema)
    ensures emitted == ProjectRows(ReadRows(group.rows, group.schema), group.schema, ordinals)
  {
    emitted := [];
    for rowIndex := 0 to group.RowCount()
      invariant emitted == ProjectRows(ReadRows(group.rows, group.schema), group.schema, ordinals)[..rowIndex]
    {
      var projected := ProjectAt(group, rowIndex, ordinals);
      emitted := emitted + [projected];
    }
  }

  method ProjectAt(group: RowGroup, rowIndex: nat, ordinals: seq<nat>) returns (projected: Row)
    requires group.Valid() && OrdinalsInRange(ordinals, group.schema) && rowIndex < |group.rows|
    ensures projected == ProjectRow(ReadRow(group.rows, group.schema, rowIndex), ordinals)
  {
    ghost var row := ReadRow(group.rows, group.schema, rowIndex);
    hide RowGroup.Valid, ReadRow, RowsValid, ValidCell;
    projected := [];
    for i := 0 to |ordinals|
      invariant |projected| == i && forall k | 0 <= k < i :: projected[k] == row[ordinals[k]]
    {
      projected := projected + [group.ValueAt(rowIndex, ordinals[i])];
    }
  }
}
