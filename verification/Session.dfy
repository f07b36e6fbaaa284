/**
 * A session and everything it reaches: the databases, their schemas, and the current database
 * (src/engine/session.cpp, src/engine/cluster.cpp, src/catalog/database_catalog.cpp).
 */
module Sessions {
  import opened Prelude
  import opened Footprints
  import opened Values
  import opened Schema
  import opened Ast
  import opened TableLayout
  import opened CatalogModel
  import opened SchemaCatalogs

  type Databases = map<string, map<string, SchemaCatalog>>

  /** The object holds the tables of a schema, and owns exactly the objects of `part`. */
  ghost predicate Catalogs(catalog: SchemaCatalog, part: set<object>, tables: SchemaTables)
    reads catalog, catalog.Repr
    ensures Catalogs(catalog, part, tables) ==> catalog in part && part == catalog.Repr && TablesOk(tables)
  {
    catalog.Repr == part && catalog.Valid() && catalog.model == tables && TablesOk(tables)
  }

  /** The world with the tables of one schema, perhaps a new one, replaced. */
  function Updated(w: World, database: string, schemaName: string, tables: SchemaTables): World {
    var schemas := if database in w.databases then w.databases[database] else map[];
    World(w.databases[database := schemas[schemaName := tables]], w.current)
  }

  /** The tables of a schema; none if it does not exist. */
  function TablesIn(w: World, k: (string, string)): SchemaTables {
    if k.0 in w.databases && k.1 in w.databases[k.0] then w.databases[k.0][k.1] else map[]
  }

  lemma UpdatedTables(w: World, d: string, s: string, tables: SchemaTables)
    ensures Updated(w, d, s, tables).current == w.current
    ensures TablesIn(Updated(w, d, s, tables), (d, s)) == tables
    ensures forall k | k != (d, s) :: TablesIn(Updated(w, d, s, tables), k) == TablesIn(w, k)
  {
  }

  ghost predicate SameNames(databases: Databases, w: World) {
    && databases.Keys == w.databases.Keys
    && forall d | d in databases :: databases[d].Keys == w.databases[d].Keys
  }

  /** `catalogs` lists the objects of the nested maps. */
  ghost predicate Lists(catalogs: map<(string, string), SchemaCatalog>, databases: Databases) {
    && (forall d, s | d in databases && s in databases[d] :: (d, s) in catalogs && catalogs[(d, s)] == databases[d][s])
    && (forall k | k in catalogs :: k.0 in databases && k.1 in databases[k.0])
  }

  function WithCatalog(databases: Databases, d: string, s: string, catalog: SchemaCatalog): Databases {
    var schemas: map<string, SchemaCatalog> := if d in databases then databases[d] else map[];
    databases[d := schemas[s := catalog]]
  }

  lemma NamesKept(databases: Databases, w: World, d: string, s: string, tables: SchemaTables)
    requires SameNames(databases, w) && d in databases && s in databases[d]
    ensures SameNames(databases, Updated(w, d, s, tables))
  {
  }

  lemma NamesUpdated(databases: Databases, w: World, d: string, s: string, catalog: SchemaCatalog, tables: SchemaTables)
    requires SameNames(databases, w)
    ensures SameNames(WithCatalog(databases, d, s, catalog), Updated(w, d, s, tables))
  {
  }

  lemma ListUpdated(catalogs: map<(string, string), SchemaCatalog>, databases: Databases, d: string, s: string,
                    catalog: SchemaCatalog)
    requires Lists(catalogs, databases)
    ensures Lists(catalogs[(d, s) := catalog], WithCatalog(databases, d, s, catalog))
  {
    var list, next := catalogs[(d, s) := catalog], WithCatalog(databases, d, s, catalog);
    forall e, t | e in next && t in next[e] ensures (e, t) in list && list[(e, t)] == next[e][t] {
      assert (e, t) != (d, s) ==> e in databases && t in databases[e] && next[e][t] == databases[e][t];
    }
    forall k | k in list ensures k.0 in next && k.1 in next[k.0] {
      assert k != (d, s) ==> k.0 in databases && k.1 in databases[k.0];
    }
  }

  // ----- what a change of one schema means for the world -----

  lemma UpdatedOk(w: World, s: string, tables: SchemaTables)
    requires WorldOk(w) && TablesOk(tables)
    ensures WorldOk(Updated(w, w.current, s, tables))
    ensures Updated(w, w.current, s, tables) == SetTables(w, s, tables)
    ensures s in CurrentDatabase(w) && tables == CurrentDatabase(w)[s] ==> SetTables(w, s, tables) == w
  {
    var db := CurrentDatabase(w);
    if s in db && tables == db[s] {
      assert db[s := tables] == db;
      assert w.databases[w.current := db] == w.databases;
    }
  }

  /** Connecting changes no table. */
  lemma ConnectedOk(w: World, database: string)
    requires WorldOk(w) && database in w.databases
    ensures WorldOk(World(w.databases, database))
    ensures forall k :: TablesIn(World(w.databases, database), k) == TablesIn(w, k)
    ensures forall m: Databases :: SameNames(m, w) ==> SameNames(m, World(w.databases, database))
  {
  }

  lemma InitialOk()
    ensures WorldOk(INITIAL_WORLD)
    ensures INITIAL_WORLD == World(map["main" := map["public" := map[]]], "main")
  {
  }

  lemma InitialIndex(catalog: SchemaCatalog)
    ensures var databases: Databases := map[DEFAULT_DATABASE := map[PUBLIC_SCHEMA := catalog]];
      && SameNames(databases, INITIAL_WORLD)
      && Lists(map[(DEFAULT_DATABASE, PUBLIC_SCHEMA) := catalog], databases)
    ensures TablesIn(INITIAL_WORLD, (DEFAULT_DATABASE, PUBLIC_SCHEMA)) == map[]
  {
  }

  lemma NewDatabaseOk(w: World, database: string)
    requires WorldOk(w) && database !in w.databases
    ensures Updated(w, database, PUBLIC_SCHEMA, map[]) == World(w.databases[database := EMPTY_DATABASE], w.current)
    ensures WorldOk(Updated(w, database, PUBLIC_SCHEMA, map[]))
  {
  }

  // ----- one schema of the session -----

  method MakeCatalog(name: string) returns (catalog: SchemaCatalog)
    ensures fresh(catalog.Repr) && Catalogs(catalog, catalog.Repr, map[])
  {
    catalog := new SchemaCatalog(name);
  }

  method AddTable(catalog: SchemaCatalog, schema: TableSchema, ghost part: set<object>, ghost tables: SchemaTables)
    returns (status: Status)
    requires Catalogs(catalog, part, tables) && OrdinalsArePositions(schema)
    modifies part
    ensures status.Success? <==> TableAccepted(schema, tables)
    ensures Catalogs(catalog, catalog.Repr,
      if status.Success? then tables[schema.name := Table(schema, [])] else tables)
    ensures fresh(catalog.Repr - part)
  {
    status := catalog.CreateTable(schema);
    if status.Success? {
      CreatedOk(schema, tables);
    }
  }

  method InsertInto(catalog: SchemaCatalog, tableName: string, row: Row, ghost part: set<object>,
                    ghost tables: SchemaTables)
    returns (status: Status)
    requires Catalogs(catalog, part, tables)
    modifies part
    ensures status.Success? <==> tableName in tables && ValidRow(row, tables[tableName].schema)
    ensures Catalogs(catalog, catalog.Repr, if status.Success? then Grown(tables, tableName, [row]) else tables)
    ensures fresh(catalog.Repr - part)
  {
    status := catalog.Insert(tableName, row);
    if status.Success? {
      GrownOk(tables, tableName, [row]);
    }
  }

  class Session {
    var databases: Databases
    var current: string
    ghost var world: World
    ghost var catalogs: map<(string, string), SchemaCatalog>
    ghost var parts: map<(string, string), set<object>>
    ghost var Repr: set<object>

    ghost predicate Valid()
      reads this, Repr
      ensures Valid() ==> this in Repr && WorldOk(world)
    {
      && Owned()
      && world.current == current
      && SameNames(databases, world)
      && Lists(catalogs, databases)
      && WorldOk(world)
      && forall k | k in catalogs :: Catalogs(catalogs[k], parts[k], TablesIn(world, k))
    }

    /** The schemas belong to the session, and no two of them share an object. */
    ghost predicate Owned()
      reads this, Repr
    {
      && this in Repr
      && catalogs.Keys == parts.Keys
      && Separate(parts, Repr - {this})
      && forall k | k in catalogs :: Owns(catalogs[k], parts[k])
    }

    ghost predicate Owns(catalog: SchemaCatalog, part: set<object>)
      reads this, Repr
    {
      part <= Repr && this !in part && catalog in Repr && catalog.Repr == part
    }

    /** The schemas besides one are as they should be. */
    ghost predicate Others(key: (string, string))
      reads this, Repr
    {
      && this in Repr
      && catalogs.Keys == parts.Keys + {key}
      && Separate(parts, Repr - {this})
      && (forall k | k in catalogs && k != key :: Owns(catalogs[k], parts[k]))
      && (forall k | k in catalogs && k != key :: Catalogs(catalogs[k], parts[k], TablesIn(world, k)))
    }

    /** Ghost fields of the session are no part of what its schemas hold. */
    twostate lemma CatalogsKept(key: (string, string))
      requires old(Others(key)) && catalogs == old(catalogs)
      requires forall o | o in old(Repr) && o != this :: unchanged(o)
      ensures forall k | k in catalogs && k != key ::
        k in old(parts) && Catalogs(catalogs[k], old(parts)[k], TablesIn(old(world), k))
      ensures forall k | k in catalogs && k != key :: catalogs[k].Repr == old(catalogs[k].Repr)
    {
      hide SchemaCatalog.Valid, Separate, TablesOk, TablesIn;
      forall k | k in catalogs && k != key ensures Catalogs(catalogs[k], old(parts)[k], TablesIn(old(world), k)) {
        assert old(Owns(catalogs[k], parts[k]) && Catalogs(catalogs[k], parts[k], TablesIn(world, k)));
      }
    }

    /** Takes note of a schema that is new, or whose object has changed. */
    ghost method Record(d: string, s: string, tables: SchemaTables)
      requires (d, s) in catalogs && Others((d, s))
      requires world.current == current && WorldOk(Updated(world, d, s, tables))
      requires SameNames(databases, Updated(world, d, s, tables)) && Lists(catalogs, databases)
      requires Catalogs(catalogs[(d, s)], catalogs[(d, s)].Repr, tables)
      requires this !in catalogs[(d, s)].Repr
      requires var part := catalogs[(d, s)].Repr;
        if (d, s) in parts then (part - parts[(d, s)]) !! Repr else part !! Repr
      modifies `parts, `world, `Repr
      ensures Valid() && Repr == old(Repr) + catalogs[(d, s)].Repr
      ensures world == Updated(old(world), d, s, tables)
    {
      hide WorldOk, Catalogs, Separate, Updated, TablesIn, SameNames, Lists;
      var key := (d, s);
      var part := catalogs[key].Repr;
      GrowPart(parts, Repr - {this}, key, part);
      UpdatedTables(world, d, s, tables);
      assert Repr - {this} + part == Repr + part - {this};
      parts, world, Repr := parts[key := part], Updated(world, d, s, tables), Repr + part;
      CatalogsKept(key);
      assert forall k | k in catalogs :: Catalogs(catalogs[k], parts[k], TablesIn(world, k));
      forall k | k in catalogs ensures Owns(catalogs[k], parts[k]) {
        assert k != key ==> old(Owns(catalogs[k], parts[k]));
      }
      assert Owned();
      hide Owned, Owns;
    }

    /** A schema of the current database, as the session and as the world know it. */
    lemma Found(s: string)
      requires Valid()
      ensures current in databases
      ensures s in databases[current] <==> s in CurrentDatabase(world)
      ensures (current, s) in catalogs ==> s in databases[current]
      ensures s in databases[current] ==>
        && (current, s) in catalogs && catalogs[(current, s)] == databases[current][s]
        && Owns(databases[current][s], parts[(current, s)])
        && Catalogs(databases[current][s], parts[(current, s)], CurrentDatabase(world)[s])
    {
    }

    lemma FoundDatabase(d: string)
      requires Valid()
      ensures d in databases <==> d in world.databases
      ensures forall s | (d, s) in catalogs :: d in databases
    {
    }

    /** Over a new cluster; a name of no database means the default one. */
    constructor (database: string)
      ensures Valid() && fresh(Repr)
      ensures world == World(map["main" := map["public" := map[]]], "main")
    {
      hide Catalogs, TablesOk, WorldOk, SchemaCatalog.Valid;
      var catalog := MakeCatalog(PUBLIC_SCHEMA);
      var key := (DEFAULT_DATABASE, PUBLIC_SCHEMA);
      var cluster: Databases := map[DEFAULT_DATABASE := map[PUBLIC_SCHEMA := catalog]];
      databases := cluster;
      current := if database in cluster then database else DEFAULT_DATABASE;
      world := INITIAL_WORLD;
      catalogs := map[key := catalog];
      parts := map[key := catalog.Repr];
      Repr := catalog.Repr + {this};
      new;
      InitialOk();
      InitialIndex(catalog);
      hide SameNames, Lists, TablesIn;
      assert Owned();
      hide Owned;
    }

    method Connect(database: string) returns (status: Status)
      requires Valid()
      modifies this
      ensures Valid() && Repr == old(Repr)
      ensures status.Success? <==> database in old(world).databases
      ensures world == World(old(world).databases, if status.Success? then database else old(world).current)
    {
      hide Catalogs, Separate, Lists, SameNames, TablesOk, WorldOk;
      FoundDatabase(database);
      if database !in databases {
        return Failure;
      }
      ConnectedOk(world, database);
      current, world := database, World(world.databases, database);
      status := Success;
    }

    method CreateTable(schemaName: string, schema: TableSchema) returns (status: Status)
      requires Valid() && OrdinalsArePositions(schema)
      modifies Repr
      ensures Valid() && fresh(Repr - old(Repr))
      ensures var db := CurrentDatabase(old(world));
        && (status.Success? <==> schemaName in db && TableAccepted(schema, db[schemaName]))
        && world == if status.Failure? then old(world)
          else SetTables(old(world), schemaName, db[schemaName][schema.name := Table(schema, [])])
    {
      hide WorldOk, Catalogs, Separate, SameNames, Lists, Updated, TablesOk;
      Found(schemaName);
      if schemaName !in databases[current] {
        return Failure;
      }
      var key := (current, schemaName);
      OthersApart(parts, Repr - {this}, key);
      ghost var tables := CurrentDatabase(world)[schemaName];
      status := AddTable(databases[current][schemaName], schema, parts[key], tables);
      tables := if status.Success? then tables[schema.name := Table(schema, [])] else tables;
      UpdatedOk(world, schemaName, tables);
      NamesKept(databases, world, current, schemaName, tables);
      Record(current, schemaName, tables);
    }

    method CreateSchema(name: string) returns (status: Status)
      requires Valid()
      modifies this
      ensures Valid() && fresh(Repr - old(Repr))
      ensures status.Success? <==> name != "" && name !in CurrentDatabase(old(world))
      ensures world == if status.Success? then SetTables(old(world), name, map[]) else old(world)
    {
      hide WorldOk, Catalogs, Separate, SameNames, Lists, Updated, WithCatalog;
      Found(name);
      if name == "" || name in databases[current] {
        return Failure;
      }
      UpdatedOk(world, name, map[]);
      AddSchema(current, name);
      status := Success;
    }

    method CreateDatabase(name: string) returns (status: Status)
      requires Valid()
      modifies this
      ensures Valid() && fresh(Repr - old(Repr))
      ensures status.Success? <==> name != "" && name !in old(world).databases
      ensures world == if status.Failure? then old(world)
        else World(old(world).databases[name := EMPTY_DATABASE], old(world).current)
    {
      hide WorldOk, Catalogs, Separate, SameNames, Lists, Updated, TablesOk, WithCatalog;
      FoundDatabase(name);
      if name == "" || name in databases {
        return Failure;
      }
      NewDatabaseOk(world, name);
      AddSchema(name, PUBLIC_SCHEMA);
      status := Success;
    }

    /** Puts a new schema into a database, perhaps a new one. */
    method AddSchema(d: string, s: string)
      requires Valid() && (d, s) !in catalogs && WorldOk(Updated(world, d, s, map[]))
      modifies this
      ensures Valid() && fresh(Repr - old(Repr))
      ensures world == Updated(old(world), d, s, map[])
    {
      hide WorldOk, Catalogs, Separate, SameNames, Lists, Updated, TablesOk, WithCatalog;
      var catalog := MakeCatalog(s);
      NamesUpdated(databases, world, d, s, catalog, map[]);
      ListUpdated(catalogs, databases, d, s, catalog);
      databases := WithCatalog(databases, d, s, catalog);
      catalogs := catalogs[(d, s) := catalog];
      Record(d, s, map[]);
    }

    method Insert(schemaName: string, tableName: string, row: Row) returns (status: Status)
      requires Valid()
      modifies Repr
      ensures Valid() && fresh(Repr - old(Repr))
      ensures var db := CurrentDatabase(old(world));
        && (status.Success? <==>
          schemaName in db && tableName in db[schemaName] && ValidRow(row, db[schemaName][tableName].schema))
        && world == if status.Failure? then old(world)
          else SetTables(old(world), schemaName, Grown(db[schemaName], tableName, [row]))
    {
      hide WorldOk, Catalogs, Separate, SameNames, Lists, Updated, TablesOk, ValidRow;
      Found(schemaName);
      if schemaName !in databases[current] {
        return Failure;
      }
      var key := (current, schemaName);
      OthersApart(parts, Repr - {this}, key);
      ghost var tables := CurrentDatabase(world)[schemaName];
      status := InsertInto(databases[current][schemaName], tableName, row, parts[key], tables);
      tables := if status.Success? then Grown(tables, tableName, [row]) else tables;
      UpdatedOk(world, schemaName, tables);
      NamesKept(databases, world, current, schemaName, tables);
      Record(current, schemaName, tables);
    }

    predicate DatabaseExists(database: string)
      requires Valid()
      reads this, Repr
      ensures DatabaseExists(database) <==> database in world.databases
    {
      FoundDatabase(database);
      database in databases
    }

    predicate SchemaExists(schemaName: string)
      requires Valid()
      reads this, Repr
      ensures SchemaExists(schemaName) <==> schemaName in CurrentDatabase(world)
    {
      Found(schemaName);
      schemaName in databases[current]
    }

    function FindTable(schemaName: string, tableName: string): (r: Option<TableSchema>)
      requires Valid()
      reads this, Repr
      ensures var table := CatalogModel.FindTable(CurrentDatabase(world), schemaName, tableName);
        r == if table.Some? then Some(table.value.schema) else None
    {
      Found(schemaName);
      if schemaName in databases[current] then databases[current][schemaName].FindTable(tableName) else None
    }

    method ValidateInsert(schemaName: string, tableName: string, values: Row) returns (status: Status)
      requires Valid()
      ensures var table := CatalogModel.FindTable(CurrentDatabase(world), schemaName, tableName);
        status.Success? <==> table.Some? && ValidRow(values, table.value.schema)
    {
      Found(schemaName);
      if schemaName !in databases[current] {
        return Failure;
      }
      status := databases[current][schemaName].ValidateInsert(tableName, values);
    }

    method ForEachRow(schemaName: string, tableName: string) returns (status: Status, visited: seq<Row>)
      requires Valid()
      ensures var table := CatalogModel.FindTable(CurrentDatabase(world), schemaName, tableName);
        && (status.Success? <==> table.Some?)
        && visited == if table.Some? then Scan(table.value.rows, table.value.schema) else []
    {
      Found(schemaName);
      if schemaName !in databases[current] {
        return Failure, [];
      }
      status, visited := databases[current][schemaName].ForEachRow(tableName);
    }
  }
}
