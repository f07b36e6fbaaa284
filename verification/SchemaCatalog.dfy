/** One schema: its tables by name (src/catalog/schema_catalog.cpp). */
module SchemaCatalogs {
  import opened Prelude
  import opened Footprints
  import opened Values
  import opened Schema
  import opened ColumnBatches
  import opened TableLayout
  import opened TableStorages
  import opened CatalogModel

  lemma CreatedSound(schema: TableSchema, tables: SchemaTables)
    requires TablesSound(tables) && TableAccepted(schema, tables)
    ensures TablesSound(tables[schema.name := Table(schema, [])])
  {
  }

  lemma GrownSound(tables: SchemaTables, name: string, more: seq<Row>)
    requires TablesSound(tables) && name in tables && RowsValid(more, tables[name].schema)
    ensures TablesSound(Grown(tables, name, more))
    ensures more == [] ==> Grown(tables, name, more) == tables
  {
    assert more == [] ==> tables[name].rows + more == tables[name].rows;
  }

  /** The object holds the rows of the table, and owns exactly the objects of `part`. */
  ghost predicate Stores(storage: TableStorage, part: set<object>, table: Table)
    reads storage, storage.Repr
    ensures Stores(storage, part, table) ==> storage in part && part == storage.Repr
  {
    storage.Repr == part && storage.Valid() && storage.schema == table.schema && storage.Rows() == table.rows
  }

  method MakeStorage(schema: TableSchema) returns (storage: TableStorage)
    requires schema.columns != []
    ensures Stores(storage, storage.Repr, Table(schema, [])) && fresh(storage.Repr)
  {
    storage := new TableStorage(schema);
  }

  method StoreRow(storage: TableStorage, row: Row, ghost part: set<object>, ghost table: Table) returns (status: Status)
    requires Stores(storage, part, table)
    modifies part
    ensures status.Success? <==> ValidRow(row, table.schema)
    ensures Stores(storage, storage.Repr, Table(table.schema, table.rows + if status.Success? then [row] else []))
    ensures fresh(storage.Repr - part)
  {
    status := storage.AppendRow(row);
  }

  method StoreRows(storage: TableStorage, rows: seq<Row>, ghost part: set<object>, ghost table: Table)
    returns (status: Status)
    requires Stores(storage, part, table)
    modifies part
    ensures status.Success? <==> ValidPrefix(rows, table.schema) == |rows|
    ensures Stores(storage, storage.Repr, Table(table.schema, table.rows + rows[..ValidPrefix(rows, table.schema)]))
    ensures fresh(storage.Repr - part)
  {
    status := storage.AppendRows(rows);
  }

  method StoreBatch(storage: TableStorage, batch: ColumnBatch, ghost part: set<object>, ghost table: Table)
    returns (status: Status)
    requires Stores(storage, part, table)
    modifies part
    ensures status.Success? <==> ValidBatch(batch, table.schema)
    ensures Stores(storage, storage.Repr, Table(table.schema, table.rows + DecodedRows(batch, table.schema)))
    ensures fresh(storage.Repr - part)
  {
    status := storage.AppendColumnBatch(batch);
    assert status.Failure? ==> table.rows + [] == table.rows;
  }

  /** The rows a batch adds to a table: all of them or, if it is not valid, none. */
  ghost function DecodedRows(batch: ColumnBatch, schema: TableSchema): (rows: seq<Row>)
    ensures RowsValid(rows, schema)
  {
    if ValidBatch(batch, schema) then
      BatchRowsValid(batch, schema);
      BatchRows(batch, schema)
    else []
  }

  class SchemaCatalog {
    const name: string
    var tables: map<string, TableStorage>
    ghost var model: SchemaTables
    ghost var parts: map<string, set<object>>
    ghost var Repr: set<object>

    ghost predicate Valid()
      reads this, Repr
      ensures Valid() ==> this in Repr
    {
      && Owned()
      && tables.Keys == model.Keys
      && TablesSound(model)
      && forall n | n in tables :: Stores(tables[n], parts[n], model[n])
    }

    /** The tables belong to the schema, and no two of them share an object. */
    ghost predicate Owned()
      reads this, Repr
    {
      && this in Repr
      && tables.Keys == parts.Keys
      && Separate(parts, Repr - {this})
      && forall n | n in tables :: Owns(tables[n], parts[n])
    }

    ghost predicate Owns(storage: TableStorage, part: set<object>)
      reads this, Repr
    {
      part <= Repr && this !in part && storage in Repr && storage.Repr == part
    }

    constructor (name: string)
      ensures Valid() && fresh(Repr)
      ensures this.name == name && model == map[]
    {
      this.name := name;
      tables, model, parts := map[], map[], map[];
      Repr := {this};
    }

    method CreateTable(schema: TableSchema) returns (status: Status)
      requires Valid()
      modifies this
      ensures Valid() && fresh(Repr - old(Repr))
      ensures status.Success? <==> TableAccepted(schema, old(model))
      ensures model == if status.Success? then old(model)[schema.name := Table(schema, [])] else old(model)
    {
      hide TablesSound, Stores, HasDuplicates, Separate;
      if schema.name == "" || schema.columns == [] {
        return Failure;
      }
      var duplicates := HasDuplicateColumns(schema);
      if duplicates || schema.name in tables {
        return Failure;
      }
      CreatedSound(schema, model);
      var storage := MakeStorage(schema);
      tables := tables[schema.name := storage];
      Record(schema.name, Table(schema, []));
      status := Success;
    }

    /** Ghost fields of the catalog are no part of what its tables hold. */
    twostate lemma StoresKept(tableName: string)
      requires old(Others(tableName)) && tables == old(tables)
      requires forall o | o in old(Repr) && o != this :: unchanged(o)
      ensures forall n | n in tables && n != tableName ::
        n in old(parts) && n in old(model) && Stores(tables[n], old(parts)[n], old(model)[n])
      ensures forall n | n in tables && n != tableName :: tables[n].Repr == old(tables[n].Repr)
    {
      hide TableStorage.Valid, TableStorage.Rows, Separate;
      forall n | n in tables && n != tableName ensures Stores(tables[n], old(parts)[n], old(model)[n]) {
        assert old(Owns(tables[n], parts[n]) && Stores(tables[n], parts[n], model[n]));
      }
    }

    /** Takes note of a table that is new, or whose object has changed. */
    ghost method Record(tableName: string, table: Table)
      requires tableName in tables && Others(tableName)
      requires TablesSound(model[tableName := table])
      requires Stores(tables[tableName], tables[tableName].Repr, table)
      requires this !in tables[tableName].Repr
      requires var part := tables[tableName].Repr;
        if tableName in parts then (part - parts[tableName]) !! Repr else part !! Repr
      modifies `parts, `model, `Repr
      ensures Valid() && Repr == old(Repr) + tables[tableName].Repr
      ensures model == old(model)[tableName := table]
    {
      hide TablesSound, Stores, Separate;
      var part := tables[tableName].Repr;
      GrowPart(parts, Repr - {this}, tableName, part);
      assert Repr - {this} + part == Repr + part - {this};
      parts, model, Repr := parts[tableName := part], model[tableName := table], Repr + part;
      StoresKept(tableName);
      assert forall n | n in tables :: Stores(tables[n], parts[n], model[n]);
      forall n | n in tables ensures Owns(tables[n], parts[n]) {
        assert n != tableName ==> old(Owns(tables[n], parts[n]));
      }
      assert Owned();
      hide Owned, Owns;
    }

    /** The tables besides `tableName` are as they should be. */
    ghost predicate Others(tableName: string)
      reads this, Repr
    {
      && this in Repr
      && tables.Keys == parts.Keys + {tableName} == model.Keys + {tableName}
      && Separate(parts, Repr - {this})
      && (forall n | n in tables && n != tableName :: Owns(tables[n], parts[n]))
      && (forall n | n in tables && n != tableName :: Stores(tables[n], parts[n], model[n]))
    }

    function FindTable(tableName: string): (r: Option<TableSchema>)
      requires Valid()
      reads this, Repr
      ensures r == if tableName in model then Some(model[tableName].schema) else None
    {
      if tableName in tables then Some(tables[tableName].schema) else None
    }

    method ValidateInsert(tableName: string, values: Row) returns (status: Status)
      requires Valid()
      ensures status.Success? <==> tableName in model && ValidRow(values, model[tableName].schema)
    {
      if tableName !in tables {
        return Failure;
      }
      status := ValidateValues(values, tables[tableName].schema);
    }

    method Insert(tableName: string, row: Row) returns (status: Status)
      requires Valid()
      modifies Repr
      ensures Valid() && fresh(Repr - old(Repr))
      ensures status.Success? <==> tableName in old(model) && ValidRow(row, old(model)[tableName].schema)
      ensures model == if status.Success? then Grown(old(model), tableName, [row]) else old(model)
    {
      hide TablesSound, Stores, ValidRow, Separate;
      if tableName !in tables {
        return Failure;
      }
      OthersApart(parts, Repr - {this}, tableName);
      ghost var table := model[tableName];
      status := StoreRow(tables[tableName], row, parts[tableName], table);
      ghost var more := if status.Success? then [row] else [];
      GrownSound(model, tableName, more);
      Record(tableName, Table(table.schema, table.rows + more));
    }

    method InsertBatch(tableName: string, rows: seq<Row>) returns (status: Status)
      requires Valid()
      modifies Repr
      ensures Valid() && fresh(Repr - old(Repr))
      ensures status.Success? <==>
        tableName in old(model) && ValidPrefix(rows, old(model)[tableName].schema) == |rows|
      ensures model ==
        if tableName !in old(model) then old(model)
        else Grown(old(model), tableName, rows[..ValidPrefix(rows, old(model)[tableName].schema)])
    {
      hide TablesSound, Stores, ValidRow, Separate;
      if tableName !in tables {
        return Failure;
      }
      ghost var table := model[tableName];
      ghost var more := rows[..ValidPrefix(rows, table.schema)];
      GrownSound(model, tableName, more);
      if rows == [] {
        return Success;
      }
      OthersApart(parts, Repr - {this}, tableName);
      status := StoreRows(tables[tableName], rows, parts[tableName], table);
      Record(tableName, Table(table.schema, table.rows + more));
    }

    method InsertColumnarBatch(tableName: string, batch: ColumnBatch) returns (status: Status)
      requires Valid()
      modifies Repr
      ensures Valid() && fresh(Repr - old(Repr))
      ensures status.Success? <==> tableName in old(model) && ValidBatch(batch, old(model)[tableName].schema)
      ensures model == if status.Failure? then old(model)
        else Grown(old(model), tableName, BatchRows(batch, old(model)[tableName].schema))
    {
      hide TablesSound, Stores, ValidRow, Separate, ValidBatch;
      if tableName !in tables {
        return Failure;
      }
      OthersApart(parts, Repr - {this}, tableName);
      ghost var table := model[tableName];
      status := StoreBatch(tables[tableName], batch, parts[tableName], table);
      ghost var more := DecodedRows(batch, table.schema);
      GrownSound(model, tableName, more);
      Record(tableName, Table(table.schema, table.rows + more));
    }

    /** The rows handed to the callback. */
    method ForEachRow(tableName: string) returns (status: Status, visited: seq<Row>)
      requires Valid()
      ensures status.Success? <==> tableName in model
      ensures visited == if status.Success? then Scan(model[tableName].rows, model[tableName].schema) else []
    {
      if tableName !in tables {
        return Failure, [];
      }
      assert Stores(tables[tableName], parts[tableName], model[tableName]);
      visited := tables[tableName].ForEachRow();
      status := Success;
    }

    /** The projected rows handed to the callback. */
    method ScanProjected(tableName: string, ordinals: seq<nat>) returns (status: Status, emitted: seq<Row>)
      requires Valid()
      ensures status.Success? <==> tableName in model && OrdinalsInRange(ordinals, model[tableName].schema)
      ensures emitted ==
        if status.Failure? then []
        else ProjectRows(Scan(model[tableName].rows, model[tableName].schema), model[tableName].schema, ordinals)
      ensures status.Success? ==>
        AreProjected(emitted, Scan(model[tableName].rows, model[tableName].schema), ordinals)
    {
      if tableName !in tables {
        return Failure, [];
      }
      assert Stores(tables[tableName], parts[tableName], model[tableName]);
      status, emitted := tables[tableName].ScanProjected(ordinals);
    }
  }
}
