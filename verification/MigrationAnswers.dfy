/**
 What one command does to a project, decided by the change itself, and a whole round:
 generate, migrate and roll back.
 */
module MigrationAnswers {
  import opened Schemas
  import SchemaEngine
  import MigrationFiles
  import M = Migrations
  import R = MigrationRuns

  /** The models changed in a way that a migration can be generated for. */
  ghost predicate Additive(p: R.Project, current: Schema)
    requires p.schemas != []
  {
    Valid(current) && current.dialect == R.Lock(p).dialect && Extends(R.Lock(p).tables, current.tables)
  }

  /** The project with one more migration on disk, generated for a schema. */
  ghost predicate Grew(p: R.Project, c: R.Command, lock: Schema, blank: bool, after: R.Project)
    requires c.Generate? && p.schemas != []
  {
    && |after.disk| == |p.disk| + 1 && after.disk[..|p.disk|] == p.disk
    && after.schemas == p.schemas + [lock] && after.content == p.content && after.applied == p.applied
    && var m := after.disk[|p.disk|];
       && m.version == MigrationFiles.Next(c.files) && m.name == c.name && m.checksum == c.digest
       && if blank then m.up == [] && m.down == []
          else m.up != [] && Schemas.Generate(R.Lock(p), lock) == Ok(Schemas.Migration(m.up, m.down))
  }

  /**
   Generating: a change that is not additive is refused. An additive one is appended with its
   statements and moves the lock, and keeps an empty migration from being generated; without
   a change only an empty migration is appended, if asked for.
   */
  lemma GenerateAnswers(e: SchemaEngine.Engine, dialect: string, p: R.Project, c: R.Command)
    requires R.Good(e, dialect, p) && c.Generate? && R.Enabled(p, c)
    ensures p.schemas != []
    ensures var after, changed := R.Generated(p, c), !Agree(R.Lock(p).tables, c.current.tables);
            if !Additive(p, c.current) || changed == c.empty then after == p
            else if changed then Grew(p, c, c.current, false, after)
            else Grew(p, c, R.Lock(p), true, after)
  {
    var lock := R.Lock(p);
    assert R.IsLock(dialect, p.schemas[|p.disk|]);
    GenerateAccepts(lock, c.current);
    if Schemas.Generate(lock, c.current).Ok? {
      NothingToDo(lock, c.current);
    }
  }

  /** All of its migrations are applied. */
  predicate UpToDate(p: R.Project)
  {
    |p.applied| == |p.disk|
  }

  lemma AppendedCanApply(e: SchemaEngine.Engine, p: R.Project, c: R.Command, after: R.Project)
    requires c.Generate? && p.schemas != [] && |p.schemas| == |p.disk| + 1 && UpToDate(p)
    requires Grew(p, c, c.current, false, after)
    ensures R.CanApplyFrom(e, after.disk, after.schemas, |p.applied|) <==> SchemaEngine.CanHold(e, c.current.tables)
  {
    R.CanApplyNext(e, after.disk, after.schemas, |p.disk|);
    assert R.CanApply(e, after.disk, after.schemas, |p.disk|) <==> SchemaEngine.CanHold(e, c.current.tables);
  }

  /**
   A round: in a project that is up to date, generating an additive change and migrating
   gives the database of the new schema, if the database can hold it, and otherwise changes
   nothing; rolling back gives the old database back.
   */
  lemma RoundTrip(e: SchemaEngine.Engine, dialect: string, p: R.Project, c: R.Command)
    requires R.Good(e, dialect, p) && c.Generate? && R.Enabled(p, c) && UpToDate(p) && !c.empty
    requires Additive(p, c.current) && !Agree(R.Lock(p).tables, c.current.tables)
    ensures var generated := R.Generated(p, c);
            var migrated := R.Migrated(e, generated, true);
            && (SchemaEngine.CanHold(e, c.current.tables) ==>
                  && migrated.content == SchemaEngine.Meant(e, c.current.tables) && UpToDate(migrated)
                  && var back := R.RolledBack(e, migrated, true);
                     back.content == p.content && back.applied == p.applied && back.disk == generated.disk)
            && (!SchemaEngine.CanHold(e, c.current.tables) ==> migrated == generated && generated.content == p.content)
  {
    GenerateAnswers(e, dialect, p, c);
    var generated := R.Generated(p, c);
    R.GenerateKeeps(e, dialect, p, c);
    AppendedCanApply(e, p, c, generated);
    R.MigrateReaches(e, dialect, generated, true);
    if SchemaEngine.CanHold(e, c.current.tables) {
      R.MigrateKeeps(e, dialect, generated, true);
      M.RecordsSize(generated.disk);
      assert generated.disk[..|generated.disk|] == generated.disk;
      var migrated := R.Migrated(e, generated, true);
      BackAgain(e, dialect, p, generated, migrated);
    }
  }

  lemma BackAgain(e: SchemaEngine.Engine, dialect: string, p: R.Project, generated: R.Project, migrated: R.Project)
    requires R.Good(e, dialect, p) && UpToDate(p) && R.Good(e, dialect, migrated) && UpToDate(migrated)
    requires migrated.disk == generated.disk && migrated.schemas == generated.schemas
    requires |generated.disk| == |p.disk| + 1 && generated.disk[..|p.disk|] == p.disk && generated.disk[|p.disk|].up != []
    requires generated.schemas[..|p.schemas|] == p.schemas && |generated.schemas| == |p.schemas| + 1
    requires Schemas.Generate(generated.schemas[|p.disk|], generated.schemas[|p.disk| + 1])
             == Ok(Schemas.Migration(generated.disk[|p.disk|].up, generated.disk[|p.disk|].down))
    ensures var back := R.RolledBack(e, migrated, true);
            back.content == p.content && back.applied == p.applied && back.disk == generated.disk
  {
    var k := |p.disk|;
    R.RollbackReturns(e, dialect, migrated, true);
    DownIsThere(dialect, generated.schemas[k], generated.schemas[k + 1]);
    assert generated.schemas[k] == p.schemas[k];
    assert p.disk[..k] == p.disk;
  }

  /** A migration that has forward statements has backward ones. */
  lemma DownIsThere(dialect: string, previous: Schema, current: Schema)
    requires Schemas.Generate(previous, current).Ok? && Schemas.Generate(previous, current).migration.up != []
    ensures Schemas.Generate(previous, current).migration.down != []
  {
    TablesHaveDown(ParseDialect(current.dialect).value, TablesByName(Start(previous, current).tables), current.tables);
  }

  lemma {:induction false} TablesHaveDown(dialect: Dialect, m: map<string, Table>, tables: seq<Table>)
    requires ForTables(dialect, m, tables).Ok?
    ensures |ForTables(dialect, m, tables).migration.up| == |ForTables(dialect, m, tables).migration.down|
    decreases |tables|
  {
    if tables != [] {
      TablesHaveDown(dialect, m, tables[1..]);
      if tables[0].name in m {
        ColumnsHaveDown(ColumnsByName(m[tables[0].name].columns), tables[0], tables[0].columns);
      }
    }
  }

  lemma {:induction false} ColumnsHaveDown(m: map<string, Column>, t: Table, columns: seq<Column>)
    requires ForColumns(m, t, columns).Ok?
    ensures |ForColumns(m, t, columns).migration.up| == |ForColumns(m, t, columns).migration.down|
    decreases |columns|
  {
    if columns != [] {
      ColumnsHaveDown(m, t, columns[1..]);
    }
  }
}
