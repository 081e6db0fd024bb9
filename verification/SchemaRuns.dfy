/**
 Running generated migrations: forward they turn the previous schema's database into the
 current one, and backward they restore it.
 */
module SchemaRuns {
  import opened Schemas
  import opened SchemaEngine

  // ------------------------------------------------------------------ creating a table

  lemma PostgresName()
    ensures ParseDialect("postgres") == Some(PostgreSQL)
  {
    assert LowerAll("postgres") == "postgres";
  }

  lemma SQLiteAuto(name: string, typ: string)
    requires AutoType(name, typ) && ParseDialect(name) == Some(SQLite)
    ensures FoldName(typ) == "integer"
  {
    PostgresName();
    assert FoldName("INTEGER") == "integer";
  }

  /** An auto column is never NULL by its key, which is why its NOT NULL may be left out. */
  lemma AutoNeverNull(e: Engine, name: string, t: Table, c: Column)
    requires ParseDialect(name) == Some(e.dialect) && ValidAuto(name, t, c) && c.auto
    ensures NeverNull(e, Keyed(e, t.primaryKey), e.key(c.name), c.typ)
  {
    var keyed := Keyed(e, t.primaryKey);
    assert keyed == [e.key(c.name)] && keyed[0] == e.key(c.name);
    if e.dialect == SQLite {
      SQLiteAuto(name, c.typ);
    }
  }

  lemma {:induction false} DefinedAsMeant(e: Engine, name: string, t: Table, columns: seq<Column>)
    requires ParseDialect(name) == Some(e.dialect)
    requires forall i :: 0 <= i < |columns| ==> ValidAuto(name, t, columns[i])
    ensures ColumnsDefined(e, Keyed(e, t.primaryKey), Definitions(e.dialect, t.primaryKey, columns))
            == ColumnsMeant(e, Keyed(e, t.primaryKey), columns)
    decreases |columns|
  {
    if columns != [] {
      var init, c := columns[..|columns| - 1], columns[|columns| - 1];
      DefinedAsMeant(e, name, t, init);
      assert Definitions(e.dialect, t.primaryKey, columns)[..|init|] == Definitions(e.dialect, t.primaryKey, init);
      if c.auto {
        AutoNeverNull(e, name, t, c);
      }
    }
  }

  lemma InlineKeyStep(dialect: Dialect, primaryKey: seq<string>, columns: seq<Column>)
    requires columns != []
    ensures var init, name := columns[..|columns| - 1], columns[|columns| - 1].name;
            InlineKey(Definitions(dialect, primaryKey, columns))
            == InlineKey(Definitions(dialect, primaryKey, init)) + if primaryKey == [name] then [name] else []
  {
    var last := |columns| - 1;
    assert Definitions(dialect, primaryKey, columns)[..last] == Definitions(dialect, primaryKey, columns[..last]);
  }

  lemma LastName(columns: seq<Column>, name: string)
    requires columns != [] && Distinct(Names(columns))
    ensures var init, last := columns[..|columns| - 1], columns[|columns| - 1].name;
            Distinct(Names(init)) && last !in Names(init) && (name in Names(columns) <==> name in Names(init) || name == last)
  {
    var last := |columns| - 1;
    assert Names(columns) == Names(columns[..last]) + [columns[last].name];
  }

  /** The columns that are marked as primary: the sole key column, if it is one of them. */
  lemma {:induction false} InlineKeyOf(dialect: Dialect, primaryKey: seq<string>, columns: seq<Column>)
    requires Distinct(Names(columns))
    ensures InlineKey(Definitions(dialect, primaryKey, columns))
            == if |primaryKey| == 1 && primaryKey[0] in Names(columns) then primaryKey else []
    decreases |columns|
  {
    if columns != [] {
      var init, name := columns[..|columns| - 1], columns[|columns| - 1].name;
      LastName(columns, if |primaryKey| == 1 then primaryKey[0] else "");
      InlineKeyOf(dialect, primaryKey, init);
      InlineKeyStep(dialect, primaryKey, columns);
      SoleKey(primaryKey, name);
    }
  }

  lemma SoleKey(primaryKey: seq<string>, name: string)
    ensures primaryKey == [name] <==> |primaryKey| == 1 && primaryKey[0] == name
  {
  }

  lemma CreationKey(e: Engine, name: string, t: Table)
    requires ValidTable(name, t)
    ensures var definitions := Definitions(e.dialect, t.primaryKey, t.columns);
            var composite := if |t.primaryKey| > 1 then t.primaryKey else [];
            GoodKey(e, definitions, composite) && StatedKey(definitions, composite) == t.primaryKey
  {
    InlineKeyOf(e.dialect, t.primaryKey, t.columns);
    var names := DefinitionNames(Definitions(e.dialect, t.primaryKey, t.columns));
    assert names == Names(t.columns);
    forall i | 0 <= i < |t.primaryKey|
      ensures HasKey(e, names, e.key(t.primaryKey[i]))
    {
      var j :| 0 <= j < |names| && names[j] == t.primaryKey[i];
    }
  }

  lemma DefinitionsTaken(e: Engine, primaryKey: seq<string>, columns: seq<Column>)
    ensures TakesDefinitions(e, Definitions(e.dialect, primaryKey, columns)) <==> TakesColumns(e, columns)
  {
    var definitions := Definitions(e.dialect, primaryKey, columns);
    forall i | 0 <= i < |columns|
      ensures definitions[i].name == columns[i].name && definitions[i].typ == columns[i].typ
    {
    }
  }

  lemma CreationRuns(e: Engine, db: Db, name: string, t: Table)
    requires ParseDialect(name) == Some(e.dialect) && ValidTable(name, t) && t.columns != []
    ensures Execute(e, db, Creation(e.dialect, t))
            == if e.key(t.name) in db || !TakesTable(e, t) then None else Some(db[e.key(t.name) := TableMeant(e, t)])
  {
    CreationKey(e, name, t);
    DefinedAsMeant(e, name, t, t.columns);
    assert DefinitionNames(Definitions(e.dialect, t.primaryKey, t.columns)) == Names(t.columns);
    DefinitionsTaken(e, t.primaryKey, t.columns);
  }

  // ----------------------------------------------------------------- extending a table

  /** The columns of the database table when the first j columns of the new schema's table are dealt with. */
  function Grown(e: Engine, prior: Table, t: Table, j: int): map<string, DbColumn>
    requires 0 <= j <= |t.columns|
  {
    ColumnsMeant(e, Keyed(e, t.primaryKey), prior.columns) + ColumnsMeant(e, Keyed(e, t.primaryKey), t.columns[..j])
  }

  function GrownTable(e: Engine, prior: Table, t: Table, j: int): DbTable
    requires 0 <= j <= |t.columns|
  {
    DbTable(Grown(e, prior, t, j), Keyed(e, t.primaryKey))
  }

  ghost predicate Growing(e: Engine, prior: Table, t: Table, j: int)
  {
    && 0 <= j <= |t.columns|
    && prior.primaryKey == t.primaryKey
    && (forall i :: 0 <= i < |t.primaryKey| ==> t.primaryKey[i] in Names(prior.columns))
    && Distinct(Names(prior.columns)) && Distinct(Names(t.columns))
    && Apart(e, Names(prior.columns)) && TakesColumns(e, prior.columns)
    && (forall i {:trigger Usable(e, Names(prior.columns), Names(t.columns), i)} ::
          0 <= i < j ==> Usable(e, Names(prior.columns), Names(t.columns), i))
    && ForColumns(ColumnsByName(prior.columns), t, t.columns[j..]).Ok?
  }

  ghost predicate ColumnUsable(e: Engine, prior: Table, t: Table, j: int)
    requires 0 <= j < |t.columns|
  {
    Usable(e, Names(prior.columns), Names(t.columns), j) && !e.refusesColumn(t.columns[j].name, t.columns[j].typ)
  }

  ghost predicate AllColumnsUsable(e: Engine, prior: Table, t: Table, from: int)
    requires 0 <= from
  {
    forall j {:trigger ColumnUsable(e, prior, t, j)} :: from <= j < |t.columns| ==> ColumnUsable(e, prior, t, j)
  }

  lemma ColumnsUsableFrom(e: Engine, prior: Table, t: Table, j: int)
    requires 0 <= j < |t.columns|
    ensures AllColumnsUsable(e, prior, t, j) <==> ColumnUsable(e, prior, t, j) && AllColumnsUsable(e, prior, t, j + 1)
  {
  }

  /** Dropping the j-th column leaves the table a column, where it needs one. */
  predicate Droppable(e: Engine, prior: Table, j: int)
  {
    e.dialect == PostgreSQL || prior.columns != [] || j > 0
  }

  lemma GrownNext(e: Engine, prior: Table, t: Table, j: int)
    requires 0 <= j < |t.columns|
    ensures Grown(e, prior, t, j + 1)
            == Grown(e, prior, t, j)[e.key(t.columns[j].name) := ColumnMeant(e, Keyed(e, t.primaryKey), t.columns[j])]
    ensures e.key(t.columns[j].name) in Grown(e, prior, t, j)
            <==> HasKey(e, Names(prior.columns), e.key(t.columns[j].name))
                 || HasKey(e, Names(t.columns)[..j], e.key(t.columns[j].name))
  {
    assert t.columns[..j + 1][..j] == t.columns[..j];
    assert Names(t.columns[..j]) == Names(t.columns)[..j];
    ColumnsMeantKeys(e, Keyed(e, t.primaryKey), prior.columns, e.key(t.columns[j].name));
    ColumnsMeantKeys(e, Keyed(e, t.primaryKey), t.columns[..j], e.key(t.columns[j].name));
  }

  /** A column that was there already is left as it is. */
  lemma OldColumnStays(e: Engine, prior: Table, t: Table, j: int)
    requires Growing(e, prior, t, j) && j < |t.columns| && t.columns[j] in prior.columns
    ensures ColumnUsable(e, prior, t, j) && Grown(e, prior, t, j + 1) == Grown(e, prior, t, j)
  {
    var c, pk := t.columns[j], Keyed(e, t.primaryKey);
    var i :| 0 <= i < |prior.columns| && prior.columns[i] == c;
    assert Names(prior.columns)[i] == c.name;
    UsableIsFresh(e, Names(prior.columns), Names(t.columns), j);
    ColumnMeantAt(e, pk, prior.columns, c);
    GrownNext(e, prior, t, j);
    ColumnsMeantKeys(e, pk, t.columns[..j], e.key(c.name));
    assert Names(t.columns[..j]) == Names(t.columns)[..j];
  }

  lemma NotInKey(e: Engine, prior: Table, primaryKey: seq<string>, k: string)
    requires forall i :: 0 <= i < |primaryKey| ==> primaryKey[i] in Names(prior.columns)
    requires !HasKey(e, Names(prior.columns), k)
    ensures k !in Keyed(e, primaryKey)
  {
    forall i | 0 <= i < |primaryKey|
      ensures e.key(primaryKey[i]) != k
    {
      var j :| 0 <= j < |prior.columns| && Names(prior.columns)[j] == primaryKey[i];
    }
  }

  lemma NewColumnRuns(e: Engine, db: Db, prior: Table, t: Table, j: int)
    requires Growing(e, prior, t, j) && j < |t.columns|
    requires t.columns[j].name !in Names(prior.columns) && Unconstrained(t, t.columns[j])
    requires e.key(t.name) in db && db[e.key(t.name)] == GrownTable(e, prior, t, j)
    ensures Execute(e, db, AddColumn(t.name, t.columns[j].name, t.columns[j].typ))
            == if ColumnUsable(e, prior, t, j) then Some(db[e.key(t.name) := GrownTable(e, prior, t, j + 1)]) else None
  {
    GrownNext(e, prior, t, j);
    if ColumnUsable(e, prior, t, j) {
      NotInKey(e, prior, t.primaryKey, e.key(t.columns[j].name));
    }
  }

  lemma GrownIsEmpty(e: Engine, prior: Table, t: Table, j: int)
    requires 0 <= j <= |t.columns|
    ensures Grown(e, prior, t, j) == map[] <==> prior.columns == [] && j == 0
  {
    var pk := Keyed(e, t.primaryKey);
    if prior.columns != [] {
      assert Names(prior.columns)[0] == prior.columns[0].name;
      ColumnsMeantKeys(e, pk, prior.columns, e.key(prior.columns[0].name));
      assert e.key(prior.columns[0].name) in Grown(e, prior, t, j);
    } else if j > 0 {
      assert Names(t.columns[..j])[0] == t.columns[0].name;
      ColumnsMeantKeys(e, pk, t.columns[..j], e.key(t.columns[0].name));
      assert e.key(t.columns[0].name) in Grown(e, prior, t, j);
    }
  }

  lemma NewColumnUndone(e: Engine, db: Db, prior: Table, t: Table, j: int)
    requires Growing(e, prior, t, j) && j < |t.columns|
    requires t.columns[j].name !in Names(prior.columns) && Unconstrained(t, t.columns[j]) && ColumnUsable(e, prior, t, j)
    requires e.key(t.name) in db && db[e.key(t.name)] == GrownTable(e, prior, t, j)
    ensures Execute(e, db[e.key(t.name) := GrownTable(e, prior, t, j + 1)], DropColumn(t.name, t.columns[j].name))
            == if Droppable(e, prior, j) then Some(db) else None
  {
    var k := e.key(t.columns[j].name);
    GrownNext(e, prior, t, j);
    NotInKey(e, prior, t.primaryKey, k);
    assert Grown(e, prior, t, j + 1) - {k} == Grown(e, prior, t, j);
    GrownIsEmpty(e, prior, t, j);
    var grown := db[e.key(t.name) := GrownTable(e, prior, t, j + 1)];
    assert grown[e.key(t.name) := GrownTable(e, prior, t, j)] == db;
    assert !grown[e.key(t.name)].columns[k].unique;
  }

  /** What one column of the new schema does to the table, forward and backward. */
  lemma ColumnRuns(e: Engine, db: Db, prior: Table, t: Table, j: int)
    requires Growing(e, prior, t, j) && j < |t.columns|
    requires e.key(t.name) in db && db[e.key(t.name)] == GrownTable(e, prior, t, j)
    ensures var g := ForColumn(ColumnsByName(prior.columns), t, t.columns[j]);
            && g.Ok?
            && Run(e, db, g.migration.up)
               == (if ColumnUsable(e, prior, t, j) then Some(db[e.key(t.name) := GrownTable(e, prior, t, j + 1)]) else None)
            && (ColumnUsable(e, prior, t, j) ==>
                  Run(e, db[e.key(t.name) := GrownTable(e, prior, t, j + 1)], g.migration.down)
                  == if Droppable(e, prior, j) then Some(db) else None)
  {
    var c := t.columns[j];
    assert c == t.columns[j..][0];
    ColumnsFound(prior.columns, c.name);
    if c.name in Names(prior.columns) {
      OldColumnStays(e, prior, t, j);
      assert db[e.key(t.name) := GrownTable(e, prior, t, j + 1)] == db;
    } else {
      NewColumnRuns(e, db, prior, t, j);
      RunOne(e, db, AddColumn(t.name, c.name, c.typ));
      if ColumnUsable(e, prior, t, j) {
        NewColumnUndone(e, db, prior, t, j);
        RunOne(e, db[e.key(t.name) := GrownTable(e, prior, t, j + 1)], DropColumn(t.name, c.name));
      }
    }
  }

  lemma GrowingNext(e: Engine, prior: Table, t: Table, j: int)
    requires Growing(e, prior, t, j) && j < |t.columns|
    ensures var m := ColumnsByName(prior.columns);
            ForColumns(m, t, t.columns[j..]) == Then(ForColumn(m, t, t.columns[j]), ForColumns(m, t, t.columns[j + 1..]))
    ensures ColumnUsable(e, prior, t, j) ==> Growing(e, prior, t, j + 1)
  {
    assert t.columns[j..][0] == t.columns[j] && t.columns[j..][1..] == t.columns[j + 1..];
  }

  lemma Overwritten(db: Db, k: string, first: DbTable, second: DbTable)
    ensures db[k := first][k := second] == db[k := second]
    ensures k in db && db[k] == second ==> db[k := second] == db
  {
  }

  lemma {:induction false} ColumnsRun(e: Engine, db: Db, prior: Table, t: Table, j: int)
    requires Growing(e, prior, t, j)
    requires e.key(t.name) in db && db[e.key(t.name)] == GrownTable(e, prior, t, j)
    ensures Run(e, db, ForColumns(ColumnsByName(prior.columns), t, t.columns[j..]).migration.up)
            == if AllColumnsUsable(e, prior, t, j)
               then Some(db[e.key(t.name) := GrownTable(e, prior, t, |t.columns|)]) else None
    decreases |t.columns| - j
  {
    var k, m := e.key(t.name), ColumnsByName(prior.columns);
    if j == |t.columns| {
      assert t.columns[j..] == [];
      Overwritten(db, k, GrownTable(e, prior, t, j), GrownTable(e, prior, t, j));
    } else {
      GrowingNext(e, prior, t, j);
      ColumnRuns(e, db, prior, t, j);
      RunAppend(e, db, ForColumn(m, t, t.columns[j]).migration.up, ForColumns(m, t, t.columns[j + 1..]).migration.up);
      ColumnsUsableFrom(e, prior, t, j);
      if ColumnUsable(e, prior, t, j) {
        var next := db[k := GrownTable(e, prior, t, j + 1)];
        ColumnsRun(e, next, prior, t, j + 1);
        Overwritten(db, k, GrownTable(e, prior, t, j + 1), GrownTable(e, prior, t, |t.columns|));
      }
    }
  }

  /** The columns from the j-th on are dropped again, unless the database refuses to drop the last one. */
  lemma {:induction false} ColumnsUndone(e: Engine, db: Db, prior: Table, t: Table, j: int)
    requires Growing(e, prior, t, j) && AllColumnsUsable(e, prior, t, j)
    requires e.key(t.name) in db && db[e.key(t.name)] == GrownTable(e, prior, t, j)
    ensures Run(e, db[e.key(t.name) := GrownTable(e, prior, t, |t.columns|)],
                ForColumns(ColumnsByName(prior.columns), t, t.columns[j..]).migration.down)
            == if j == |t.columns| || Droppable(e, prior, j) then Some(db) else None
    decreases |t.columns| - j
  {
    var k, m := e.key(t.name), ColumnsByName(prior.columns);
    if j == |t.columns| {
      assert t.columns[j..] == [];
      Overwritten(db, k, GrownTable(e, prior, t, j), GrownTable(e, prior, t, j));
    } else {
      ColumnsUsableFrom(e, prior, t, j);
      GrowingNext(e, prior, t, j);
      ColumnRuns(e, db, prior, t, j);
      var next := db[k := GrownTable(e, prior, t, j + 1)];
      ColumnsUndone(e, next, prior, t, j + 1);
      var last := db[k := GrownTable(e, prior, t, |t.columns|)];
      Overwritten(db, k, GrownTable(e, prior, t, j + 1), GrownTable(e, prior, t, |t.columns|));
      RunAppend(e, last, ForColumns(m, t, t.columns[j + 1..]).migration.down, ForColumn(m, t, t.columns[j]).migration.down);
    }
  }

  // ---------------------------------------------------------------- the whole schema

  function Migrated(e: Engine, previous: seq<Table>, current: seq<Table>, j: int): Db
    requires 0 <= j <= |current|
  {
    Meant(e, previous) + Meant(e, current[..j])
  }

  ghost predicate TableUsable(e: Engine, previous: seq<Table>, current: seq<Table>, j: int)
    requires 0 <= j < |current|
  {
    Usable(e, TableNames(previous), TableNames(current), j) && TakesTable(e, current[j])
  }

  /** No column was added to this table when it had none, where a table keeps a column. */
  predicate TableUndoable(e: Engine, previous: seq<Table>, current: seq<Table>, j: int)
    requires 0 <= j < |current|
  {
    var m := TablesByName(previous);
    e.dialect == PostgreSQL || current[j].name !in m || m[current[j].name].columns != [] || current[j].columns == []
  }

  ghost predicate Migrating(e: Engine, name: string, previous: seq<Table>, current: seq<Table>, j: int)
  {
    && 0 <= j <= |current|
    && ParseDialect(name) == Some(e.dialect)
    && ValidTables(name, previous) && ValidTables(name, current) && TakesTables(e, previous)
    && (forall i {:trigger TableUsable(e, previous, current, i)} :: 0 <= i < j ==> TableUsable(e, previous, current, i))
    && ForTables(e.dialect, TablesByName(previous), current[j..]).Ok?
  }

  /** Growing a table to the end makes it the table of the current schema. */
  lemma GrownIsMeant(e: Engine, prior: Table, t: Table)
    requires prior.primaryKey == t.primaryKey && forall c :: c in prior.columns ==> c in t.columns
    ensures GrownTable(e, prior, t, |t.columns|) == TableMeant(e, t)
    ensures GrownTable(e, prior, t, 0) == TableMeant(e, prior)
  {
    var pk := Keyed(e, t.primaryKey);
    assert t.columns[..|t.columns|] == t.columns && t.columns[..0] == [];
    forall k | k in ColumnsMeant(e, pk, prior.columns)
      ensures k in ColumnsMeant(e, pk, t.columns)
    {
      ColumnsMeantKeys(e, pk, prior.columns, k);
      ColumnsMeantKeys(e, pk, t.columns, k);
      var i :| 0 <= i < |prior.columns| && e.key(Names(prior.columns)[i]) == k;
      assert prior.columns[i] in prior.columns;
      var j :| 0 <= j < |t.columns| && t.columns[j] == prior.columns[i];
      assert Names(t.columns)[j] == Names(prior.columns)[i];
    }
  }

  lemma MigratedNext(e: Engine, previous: seq<Table>, current: seq<Table>, j: int)
    requires 0 <= j < |current|
    ensures Migrated(e, previous, current, j + 1)
            == Migrated(e, previous, current, j)[e.key(current[j].name) := TableMeant(e, current[j])]
    ensures e.key(current[j].name) in Migrated(e, previous, current, j)
            <==> HasKey(e, TableNames(previous), e.key(current[j].name))
                 || HasKey(e, TableNames(current)[..j], e.key(current[j].name))
  {
    assert current[..j + 1][..j] == current[..j];
    assert TableNames(current[..j]) == TableNames(current)[..j];
    MeantKeys(e, previous, e.key(current[j].name));
    MeantKeys(e, current[..j], e.key(current[j].name));
  }

  lemma NewTableRuns(e: Engine, name: string, previous: seq<Table>, current: seq<Table>, j: int)
    requires Migrating(e, name, previous, current, j) && j < |current|
    requires current[j].name !in TableNames(previous) && current[j].columns != []
    ensures var db, g := Migrated(e, previous, current, j), ForTable(e.dialect, TablesByName(previous), current[j]);
            && g.Ok?
            && Run(e, db, g.migration.up)
               == (if TableUsable(e, previous, current, j) then Some(Migrated(e, previous, current, j + 1)) else None)
            && (TableUsable(e, previous, current, j) ==>
                  Run(e, Migrated(e, previous, current, j + 1), g.migration.down) == Some(db))
            && TableUndoable(e, previous, current, j)
  {
    var db, t := Migrated(e, previous, current, j), current[j];
    TablesFound(previous, t.name);
    MigratedNext(e, previous, current, j);
    CreationRuns(e, db, name, t);
    RunOne(e, db, Creation(e.dialect, t));
    if TableUsable(e, previous, current, j) {
      NewTableUndone(e, db, t);
    }
  }

  lemma NewTableUndone(e: Engine, db: Db, t: Table)
    requires e.key(t.name) !in db
    ensures Run(e, db[e.key(t.name) := TableMeant(e, t)], [DropTable(t.name)]) == Some(db)
  {
    var k := e.key(t.name);
    RunOne(e, db[k := TableMeant(e, t)], DropTable(t.name));
    assert db[k := TableMeant(e, t)] - {k} == db;
  }

  /** The table that was there before, and the database's picture of it. */
  lemma OldTable(e: Engine, name: string, previous: seq<Table>, current: seq<Table>, j: int) returns (prior: Table)
    requires Migrating(e, name, previous, current, j) && j < |current| && current[j].name in TableNames(previous)
    requires ForTable(e.dialect, TablesByName(previous), current[j]).Ok?
    ensures current[j].name in TablesByName(previous) && TablesByName(previous)[current[j].name] == prior
    ensures prior in previous
    ensures Usable(e, TableNames(previous), TableNames(current), j)
    ensures var k := e.key(current[j].name);
            && k in Migrated(e, previous, current, j) && Migrated(e, previous, current, j)[k] == TableMeant(e, prior)
            && k !in Bookkeeping(e) && !e.refusesTable(current[j].name)
    ensures TakesTable(e, prior)
  {
    TablesFound(previous, current[j].name);
    prior := TablesByName(previous)[current[j].name];
    MeantAt(e, previous, prior);
    forall i | 0 <= i <= j
      ensures Usable(e, TableNames(previous), TableNames(current), i)
    {
      assert i < j ==> TableUsable(e, previous, current, i);
    }
    UsableIsFresh(e, TableNames(previous), TableNames(current), j);
    MeantKeys(e, current[..j], e.key(prior.name));
    assert TableNames(current[..j]) == TableNames(current)[..j];
  }

  lemma OldTableGrows(e: Engine, name: string, previous: seq<Table>, current: seq<Table>, j: int, prior: Table)
    requires Migrating(e, name, previous, current, j) && j < |current| && prior in previous
    requires current[j].name in TablesByName(previous) && TablesByName(previous)[current[j].name] == prior
    requires ForTable(e.dialect, TablesByName(previous), current[j]).Ok? && TakesTable(e, prior)
    ensures Growing(e, prior, current[j], 0)
    ensures AllColumnsUsable(e, prior, current[j], 0)
            <==> Apart(e, Names(current[j].columns)) && TakesColumns(e, current[j].columns)
    ensures GrownTable(e, prior, current[j], 0) == TableMeant(e, prior)
    ensures GrownTable(e, prior, current[j], |current[j].columns|) == TableMeant(e, current[j])
  {
    var t := current[j];
    assert t.columns[0..] == t.columns;
    ForColumnsAccepts(ColumnsByName(prior.columns), t, t.columns);
    FitsExtends(prior, t);
    GrownIsMeant(e, prior, t);
    UsableColumnsApart(e, prior, t);
  }

  lemma UsableColumnsApart(e: Engine, prior: Table, t: Table)
    requires forall c :: c in prior.columns ==> c in t.columns
    requires Apart(e, Names(prior.columns)) && Distinct(Names(t.columns))
    ensures AllColumnsUsable(e, prior, t, 0) <==> Apart(e, Names(t.columns)) && TakesColumns(e, t.columns)
  {
    forall i | 0 <= i < |prior.columns|
      ensures Names(prior.columns)[i] in Names(t.columns)
    {
      assert prior.columns[i] in prior.columns;
      var m :| 0 <= m < |t.columns| && t.columns[m] == prior.columns[i];
      assert Names(t.columns)[m] == Names(prior.columns)[i];
    }
    if Apart(e, Names(t.columns)) {
      ApartIsUsable(e, Names(prior.columns), Names(t.columns));
      assert forall j :: 0 <= j < |t.columns| ==> Usable(e, Names(prior.columns), Names(t.columns), j);
    }
    if AllColumnsUsable(e, prior, t, 0) {
      forall j | 0 <= j < |t.columns|
        ensures Usable(e, Names(prior.columns), Names(t.columns), j) && !e.refusesColumn(t.columns[j].name, t.columns[j].typ)
      {
        assert ColumnUsable(e, prior, t, j);
      }
      UsableIsApart(e, Names(prior.columns), Names(t.columns));
    }
  }

  lemma OldTableRuns(e: Engine, name: string, previous: seq<Table>, current: seq<Table>, j: int)
    requires Migrating(e, name, previous, current, j) && j < |current|
    requires current[j].name in TableNames(previous) && ForTable(e.dialect, TablesByName(previous), current[j]).Ok?
    ensures var db, g := Migrated(e, previous, current, j), ForTable(e.dialect, TablesByName(previous), current[j]);
            && Run(e, db, g.migration.up)
               == (if TableUsable(e, previous, current, j) then Some(Migrated(e, previous, current, j + 1)) else None)
            && (TableUsable(e, previous, current, j) ==>
                  Run(e, Migrated(e, previous, current, j + 1), g.migration.down)
                  == if TableUndoable(e, previous, current, j) then Some(db) else None)
  {
    var db, t := Migrated(e, previous, current, j), current[j];
    var prior := OldTable(e, name, previous, current, j);
    OldTableGrows(e, name, previous, current, j, prior);
    MigratedNext(e, previous, current, j);
    assert t.columns[0..] == t.columns;
    ColumnsRun(e, db, prior, t, 0);
    if TableUsable(e, previous, current, j) {
      ColumnsUndone(e, db, prior, t, 0);
    }
  }

  lemma TableRuns(e: Engine, name: string, previous: seq<Table>, current: seq<Table>, j: int)
    requires Migrating(e, name, previous, current, j) && j < |current|
    ensures var db, g := Migrated(e, previous, current, j), ForTable(e.dialect, TablesByName(previous), current[j]);
            && g.Ok?
            && Run(e, db, g.migration.up)
               == (if TableUsable(e, previous, current, j) then Some(Migrated(e, previous, current, j + 1)) else None)
            && (TableUsable(e, previous, current, j) ==>
                  Run(e, Migrated(e, previous, current, j + 1), g.migration.down)
                  == if TableUndoable(e, previous, current, j) then Some(db) else None)
  {
    MigratingNext(e, name, previous, current, j);
    TablesFound(previous, current[j].name);
    if current[j].name in TableNames(previous) {
      OldTableRuns(e, name, previous, current, j);
    } else {
      NewTableRuns(e, name, previous, current, j);
    }
  }

  lemma MigratingNext(e: Engine, name: string, previous: seq<Table>, current: seq<Table>, j: int)
    requires Migrating(e, name, previous, current, j) && j < |current|
    ensures var m := TablesByName(previous);
            ForTables(e.dialect, m, current[j..]) == Then(ForTable(e.dialect, m, current[j]), ForTables(e.dialect, m, current[j + 1..]))
    ensures TableUsable(e, previous, current, j) ==> Migrating(e, name, previous, current, j + 1)
  {
    assert current[j..][0] == current[j] && current[j..][1..] == current[j + 1..];
  }

  ghost predicate AllTablesUsable(e: Engine, previous: seq<Table>, current: seq<Table>, from: int)
    requires 0 <= from
  {
    forall j {:trigger TableUsable(e, previous, current, j)} :: from <= j < |current| ==> TableUsable(e, previous, current, j)
  }

  lemma TablesUsableFrom(e: Engine, previous: seq<Table>, current: seq<Table>, j: int)
    requires 0 <= j < |current|
    ensures AllTablesUsable(e, previous, current, j)
            <==> TableUsable(e, previous, current, j) && AllTablesUsable(e, previous, current, j + 1)
  {
  }

  lemma {:induction false} TablesRun(e: Engine, name: string, previous: seq<Table>, current: seq<Table>, j: int)
    requires Migrating(e, name, previous, current, j)
    ensures Run(e, Migrated(e, previous, current, j), ForTables(e.dialect, TablesByName(previous), current[j..]).migration.up)
            == if AllTablesUsable(e, previous, current, j) then Some(Migrated(e, previous, current, |current|)) else None
    decreases |current| - j
  {
    var db, m := Migrated(e, previous, current, j), TablesByName(previous);
    if j == |current| {
      assert current[j..] == [];
    } else {
      MigratingNext(e, name, previous, current, j);
      TableRuns(e, name, previous, current, j);
      TablesUsableFrom(e, previous, current, j);
      RunAppend(e, db, ForTable(e.dialect, m, current[j]).migration.up, ForTables(e.dialect, m, current[j + 1..]).migration.up);
      if TableUsable(e, previous, current, j) {
        TablesRun(e, name, previous, current, j + 1);
      }
    }
  }

  ghost predicate AllTablesUndoable(e: Engine, previous: seq<Table>, current: seq<Table>, from: int)
    requires 0 <= from
  {
    forall j {:trigger TableUndoable(e, previous, current, j)} :: from <= j < |current| ==> TableUndoable(e, previous, current, j)
  }

  lemma TablesUndoableFrom(e: Engine, previous: seq<Table>, current: seq<Table>, j: int)
    requires 0 <= j < |current|
    ensures AllTablesUndoable(e, previous, current, j)
            <==> TableUndoable(e, previous, current, j) && AllTablesUndoable(e, previous, current, j + 1)
  {
  }

  lemma {:induction false} TablesUndone(e: Engine, name: string, previous: seq<Table>, current: seq<Table>, j: int)
    requires Migrating(e, name, previous, current, j) && AllTablesUsable(e, previous, current, j)
    ensures Run(e, Migrated(e, previous, current, |current|),
                ForTables(e.dialect, TablesByName(previous), current[j..]).migration.down)
            == if AllTablesUndoable(e, previous, current, j) then Some(Migrated(e, previous, current, j)) else None
    decreases |current| - j
  {
    var last, m := Migrated(e, previous, current, |current|), TablesByName(previous);
    if j == |current| {
      assert current[j..] == [];
    } else {
      TablesUsableFrom(e, previous, current, j);
      TablesUndoableFrom(e, previous, current, j);
      MigratingNext(e, name, previous, current, j);
      TableRuns(e, name, previous, current, j);
      TablesUndone(e, name, previous, current, j + 1);
      RunAppend(e, last, ForTables(e.dialect, m, current[j + 1..]).migration.down, ForTable(e.dialect, m, current[j]).migration.down);
    }
  }

  lemma TakenIsUsable(e: Engine, previous: seq<Table>, current: seq<Table>)
    requires TakesTables(e, previous) && Distinct(TableNames(current))
    requires forall prior :: prior in previous ==> prior.name in TableNames(current)
    ensures AllTablesUsable(e, previous, current, 0) <==> TakesTables(e, current)
  {
    forall i | 0 <= i < |previous|
      ensures TableNames(previous)[i] in TableNames(current)
    {
      assert previous[i] in previous;
    }
    if TakesTables(e, current) {
      ApartIsUsable(e, TableNames(previous), TableNames(current));
      forall j | 0 <= j < |current|
        ensures TableUsable(e, previous, current, j)
      {
        assert Usable(e, TableNames(previous), TableNames(current), j) && current[j] in current;
      }
    }
    if AllTablesUsable(e, previous, current, 0) {
      UsableTablesTaken(e, previous, current);
    }
  }

  lemma UsableTablesTaken(e: Engine, previous: seq<Table>, current: seq<Table>)
    requires TakesTables(e, previous) && Distinct(TableNames(current)) && AllTablesUsable(e, previous, current, 0)
    ensures TakesTables(e, current)
  {
    forall j | 0 <= j < |current|
      ensures Usable(e, TableNames(previous), TableNames(current), j)
    {
      assert TableUsable(e, previous, current, j);
    }
    UsableIsApart(e, TableNames(previous), TableNames(current));
    forall t | t in current
      ensures TakesTable(e, t)
    {
      var j :| 0 <= j < |current| && current[j] == t;
      assert TableUsable(e, previous, current, j);
    }
  }

  lemma WholeMigration(e: Engine, previous: seq<Table>, current: seq<Table>)
    requires forall prior :: prior in previous ==> prior.name in TableNames(current)
    ensures Migrated(e, previous, current, 0) == Meant(e, previous)
    ensures Migrated(e, previous, current, |current|) == Meant(e, current)
  {
    assert current[..0] == [] && current[..|current|] == current;
    forall k | k in Meant(e, previous)
      ensures k in Meant(e, current)
    {
      MeantKeys(e, previous, k);
      MeantKeys(e, current, k);
      var i :| 0 <= i < |previous| && e.key(TableNames(previous)[i]) == k;
      assert previous[i] in previous;
      var j :| 0 <= j < |current| && TableNames(current)[j] == TableNames(previous)[i];
    }
  }

  lemma FromTheStart(e: Engine, previous: Schema, current: Schema)
    requires Generate(previous, current).Ok? && ParseDialect(current.dialect) == Some(e.dialect)
    requires TakesTables(e, Start(previous, current).tables)
    ensures var start := Start(previous, current);
            && Migrating(e, current.dialect, start.tables, current.tables, 0)
            && Generate(previous, current) == ForTables(e.dialect, TablesByName(start.tables), current.tables[0..])
            && (forall prior :: prior in start.tables ==> prior.name in TableNames(current.tables))
  {
    var start := Start(previous, current);
    assert current.tables[0..] == current.tables;
    NamesKept(start.tables, current.tables);
  }

  /**
   Applied to a database of the previous schema, the forward migration gives the database
   of the current schema, exactly when the database can hold that schema: when it refuses
   none of its names and columns and tells its names apart. Where it cannot, the migration
   fails as a whole.
   */
  lemma UpMigrates(e: Engine, previous: Schema, current: Schema)
    requires Generate(previous, current).Ok? && ParseDialect(current.dialect) == Some(e.dialect)
    requires CanHold(e, Start(previous, current).tables)
    ensures Run(e, Meant(e, Start(previous, current).tables), Generate(previous, current).migration.up)
            == if CanHold(e, current.tables) then Some(Meant(e, current.tables)) else None
  {
    var start := Start(previous, current);
    FromTheStart(e, previous, current);
    TablesRun(e, current.dialect, start.tables, current.tables, 0);
    TakenIsUsable(e, start.tables, current.tables);
    WholeMigration(e, start.tables, current.tables);
    StaysFilled(e, previous, current);
  }

  lemma FollowerHasColumns(previous: seq<Table>, t: Table)
    requires Follows(previous, t) && forall p :: p in previous ==> p.columns != []
    ensures t.columns != []
  {
    if t.name in TableNames(previous) {
      var prior :| prior in previous && prior.name == t.name && ExtendsTable(prior, t);
      assert prior.columns[0] in prior.columns;
    }
  }

  lemma StaysFilled(e: Engine, previous: Schema, current: Schema)
    requires Generate(previous, current).Ok?
    ensures Filled(e, Start(previous, current).tables) ==> Filled(e, current.tables)
  {
    GenerateAccepts(previous, current);
    if e.dialect == SQLite && Filled(e, Start(previous, current).tables) {
      forall t | t in current.tables
        ensures t.columns != []
      {
        FollowerHasColumns(Start(previous, current).tables, t);
      }
    }
  }

  /** The table of the current schema that a previous one has become. */
  lemma Successor(previous: Schema, current: Schema, p: Table) returns (t: Table)
    requires Generate(previous, current).Ok? && p in Start(previous, current).tables
    ensures t in current.tables && t.name == p.name && ExtendsTable(p, t)
  {
    GenerateAccepts(previous, current);
    var start := Start(previous, current).tables;
    var j :| 0 <= j < |current.tables| && TableNames(current.tables)[j] == p.name;
    t := current.tables[j];
    assert t in current.tables && Follows(start, t);
    var prior :| prior in start && prior.name == t.name && ExtendsTable(prior, t);
    TableKnown(start, prior);
    TableKnown(start, p);
  }

  /** A part of names that are apart is apart. */
  lemma ApartPart(e: Engine, part: seq<string>, names: seq<string>)
    requires Apart(e, names) && Distinct(part) && forall i :: 0 <= i < |part| ==> part[i] in names
    ensures Apart(e, part)
  {
    forall i, j | 0 <= i < j < |part|
      ensures e.key(part[i]) != e.key(part[j])
    {
      var m :| 0 <= m < |names| && names[m] == part[i];
      var n :| 0 <= n < |names| && names[n] == part[j];
      DifferentKeys(e, names, m, n);
    }
  }

  lemma TakenTableWas(e: Engine, dialect: string, p: Table, t: Table)
    requires TakesTable(e, t) && t.name == p.name && ExtendsTable(p, t) && ValidTable(dialect, p)
    ensures TakesTable(e, p)
  {
    forall i | 0 <= i < |p.columns|
      ensures Names(p.columns)[i] in Names(t.columns) && !e.refusesColumn(p.columns[i].name, p.columns[i].typ)
    {
      assert p.columns[i] in p.columns;
      var m :| 0 <= m < |t.columns| && t.columns[m] == p.columns[i];
      assert Names(t.columns)[m] == Names(p.columns)[i];
    }
    ApartPart(e, Names(p.columns), Names(t.columns));
  }

  /** What a database takes of the current schema it took of the previous one. */
  lemma TakenWas(e: Engine, previous: Schema, current: Schema)
    requires Generate(previous, current).Ok? && TakesTables(e, current.tables)
    ensures TakesTables(e, Start(previous, current).tables)
  {
    GenerateAccepts(previous, current);
    var start := Start(previous, current).tables;
    forall i | 0 <= i < |start|
      ensures TableNames(start)[i] in TableNames(current.tables) && TakesTable(e, start[i])
    {
      var t := Successor(previous, current, start[i]);
      var j :| 0 <= j < |current.tables| && current.tables[j] == t;
      assert TableNames(current.tables)[j] == start[i].name;
      TakenTableWas(e, current.dialect, start[i], t);
    }
    ApartPart(e, TableNames(start), TableNames(current.tables));
  }

  /** No table that had no column got one. */
  predicate NoneFilled(previous: seq<Table>, current: seq<Table>)
  {
    forall p, t :: p in previous && t in current && p.name == t.name ==> p.columns != [] || t.columns == []
  }

  lemma UndoableIsUnfilled(e: Engine, previous: seq<Table>, current: seq<Table>)
    requires Distinct(TableNames(previous))
    ensures AllTablesUndoable(e, previous, current, 0) <==> e.dialect == PostgreSQL || NoneFilled(previous, current)
  {
    forall j | 0 <= j < |current|
      ensures current[j].name in TablesByName(previous) ==>
                TablesByName(previous)[current[j].name] in previous && TablesByName(previous)[current[j].name].name == current[j].name
    {
      TablesFound(previous, current[j].name);
    }
    if AllTablesUndoable(e, previous, current, 0) && e.dialect != PostgreSQL {
      forall p, t | p in previous && t in current && p.name == t.name
        ensures p.columns != [] || t.columns == []
      {
        var j :| 0 <= j < |current| && current[j] == t;
        assert TableUndoable(e, previous, current, j);
        TableKnown(previous, p);
      }
    }
    if e.dialect == PostgreSQL || NoneFilled(previous, current) {
      forall j | 0 <= j < |current|
        ensures TableUndoable(e, previous, current, j)
      {
        assert current[j] in current;
      }
    }
  }

  lemma UnfilledIsFilled(e: Engine, previous: Schema, current: Schema)
    requires Generate(previous, current).Ok? && Filled(e, current.tables)
    ensures Filled(e, Start(previous, current).tables)
            <==> e.dialect == PostgreSQL || NoneFilled(Start(previous, current).tables, current.tables)
  {
    var start := Start(previous, current).tables;
    if e.dialect == SQLite && NoneFilled(start, current.tables) {
      forall p | p in start
        ensures p.columns != []
      {
        var t := Successor(previous, current, p);
      }
    }
  }

  /**
   The backward migration gives the previous schema's database back, exactly when the
   database can hold that schema; otherwise it fails as a whole. As it holds the current one,
   only a table that had no column can stand in the way.
   */
  lemma DownRestores(e: Engine, previous: Schema, current: Schema)
    requires Generate(previous, current).Ok? && ParseDialect(current.dialect) == Some(e.dialect)
    requires CanHold(e, current.tables)
    ensures Run(e, Meant(e, current.tables), Generate(previous, current).migration.down)
            == if CanHold(e, Start(previous, current).tables) then Some(Meant(e, Start(previous, current).tables)) else None
    ensures CanHold(e, Start(previous, current).tables)
            <==> e.dialect == PostgreSQL || NoneFilled(Start(previous, current).tables, current.tables)
  {
    var start := Start(previous, current);
    TakenWas(e, previous, current);
    FromTheStart(e, previous, current);
    TakenIsUsable(e, start.tables, current.tables);
    TablesUndone(e, current.dialect, start.tables, current.tables, 0);
    UndoableIsUnfilled(e, start.tables, current.tables);
    UnfilledIsFilled(e, previous, current);
    WholeMigration(e, start.tables, current.tables);
  }

  // ---------------------------------------------------------------- nothing is altered

  predicate Adds(s: Statement)
  {
    s.CreateTable? || s.AddColumn?
  }

  ghost predicate AllAdd(statements: seq<Statement>)
  {
    forall i :: 0 <= i < |statements| ==> Adds(statements[i])
  }

  /** Every table and column of `before` is in `after`, as it was. */
  ghost predicate Keeps(before: Db, after: Db)
  {
    forall k {:trigger before[k]} {:trigger after[k]} :: k in before ==>
      && k in after && after[k].primaryKey == before[k].primaryKey
      && forall c :: c in before[k].columns ==> c in after[k].columns && after[k].columns[c] == before[k].columns[c]
  }

  lemma {:induction false} ColumnsOnlyAdd(prior: map<string, Column>, t: Table, columns: seq<Column>)
    requires ForColumns(prior, t, columns).Ok?
    ensures AllAdd(ForColumns(prior, t, columns).migration.up)
    decreases |columns|
  {
    if columns != [] {
      ColumnsOnlyAdd(prior, t, columns[1..]);
    }
  }

  lemma {:induction false} TablesOnlyAdd(dialect: Dialect, prior: map<string, Table>, tables: seq<Table>)
    requires ForTables(dialect, prior, tables).Ok?
    ensures AllAdd(ForTables(dialect, prior, tables).migration.up)
    decreases |tables|
  {
    if tables != [] {
      TablesOnlyAdd(dialect, prior, tables[1..]);
      if tables[0].name in prior {
        ColumnsOnlyAdd(ColumnsByName(prior[tables[0].name].columns), tables[0], tables[0].columns);
      }
    }
  }

  lemma {:induction false} AddingKeeps(e: Engine, db: Db, statements: seq<Statement>)
    requires AllAdd(statements) && Run(e, db, statements).Some?
    ensures Keeps(db, Run(e, db, statements).value)
    decreases |statements|
  {
    if statements != [] {
      assert Adds(statements[0]);
      var next := Execute(e, db, statements[0]).value;
      assert Keeps(db, next);
      AddingKeeps(e, next, statements[1..]);
    }
  }

  /** Whatever database it is applied to, and however far it gets, a forward migration alters no existing column. */
  lemma UpAltersNothing(e: Engine, previous: Schema, current: Schema, db: Db, n: nat)
    requires Generate(previous, current).Ok? && n <= |Generate(previous, current).migration.up|
    requires Run(e, db, Generate(previous, current).migration.up[..n]).Some?
    ensures Keeps(db, Run(e, db, Generate(previous, current).migration.up[..n]).value)
  {
    var up := Generate(previous, current).migration.up;
    TablesOnlyAdd(ParseDialect(current.dialect).value, TablesByName(Start(previous, current).tables), current.tables);
    AddingKeeps(e, db, up[..n]);
  }
}
