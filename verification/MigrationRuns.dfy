/**
 A project that generates, applies and rolls back migrations (cli/godo/database.go with
 core/orm/dbtool/migrations.go): whatever the order of commands, and whatever fails, the
 database has exactly the schema that the applied migrations lead to.
 */
module MigrationRuns {
  import opened Schemas
  import SchemaEngine
  import SchemaRuns
  import SchemaDatabases
  import MigrationFiles
  import M = Migrations

  type Script = seq<Statement>

  type Disk = seq<M.Migration<Script>>

  /** `schemas[i]` is what the schema lock held before the i-th migration was generated; the last one is the lock. */
  datatype Project = Project(disk: Disk, schemas: seq<Schema>, content: SchemaEngine.Db, applied: M.Applied)

  /** `files` are the names in the migrations directory, `digest` the checksum of the generated files. */
  datatype Command =
    | Generate(current: Schema, name: string, files: seq<string>, digest: string, empty: bool)
    | Migrate(commits: bool)
    | Rollback(commits: bool)

  ghost function RunnerOf(e: SchemaEngine.Engine): M.Runner<SchemaEngine.Db, Script>
  {
    M.Runner((s: Script) => s == [], (db, s) => RunScript(e, db, s))
  }

  ghost function RunScript(e: SchemaEngine.Engine, db: SchemaEngine.Db, s: Script): M.Option<SchemaEngine.Db>
  {
    match SchemaEngine.Run(e, db, s)
    case None => M.None
    case Some(next) => M.Some(next)
  }

  function Lock(p: Project): Schema
    requires p.schemas != []
  {
    p.schemas[|p.schemas| - 1]
  }

  /** generateDB: nothing is written when the change is refused or there is nothing to do. */
  function Generated(p: Project, c: Command): Project
    requires c.Generate? && p.schemas != []
  {
    var g := Schemas.Generate(Lock(p), c.current);
    if g.Refused? then p
    else if c.empty then
      if g.migration.up != [] then p else Appended(p, c, [], [], Lock(p))
    else if g.migration.up == [] then p
    else Appended(p, c, g.migration.up, g.migration.down, c.current)
  }

  function Appended(p: Project, c: Command, up: Script, down: Script, lock: Schema): Project
    requires c.Generate?
  {
    p.(disk := p.disk + [M.Migration(MigrationFiles.Next(c.files), c.name, up, down, c.digest)], schemas := p.schemas + [lock])
  }

  ghost function Migrated(e: SchemaEngine.Engine, p: Project, commits: bool): Project
  {
    var (content, applied) := M.Migrated(RunnerOf(e), p.content, p.applied, p.disk, commits);
    p.(content := content, applied := applied)
  }

  ghost function RolledBack(e: SchemaEngine.Engine, p: Project, commits: bool): Project
  {
    var (content, applied) := M.RolledBack(RunnerOf(e), p.content, p.applied, p.disk, commits);
    p.(content := content, applied := applied)
  }

  /** The directory lists the migrations on disk, among other files, and leaves the next one a number. */
  ghost predicate Enabled(p: Project, c: Command)
  {
    c.Generate? ==> MigrationFiles.AllListed(p.disk, c.files) && MigrationFiles.Next(c.files) > 0
  }

  ghost function Step(e: SchemaEngine.Engine, p: Project, c: Command): Project
    requires p.schemas != []
  {
    match c
    case Generate(_, _, _, _, _) => Generated(p, c)
    case Migrate(commits) => Migrated(e, p, commits)
    case Rollback(commits) => RolledBack(e, p, commits)
  }

  function Initial(dialect: string): Project
  {
    Project([], [Schema(SCHEMA_VERSION, dialect, [])], map[], map[])
  }

  // ------------------------------------------------------------------------- invariant

  predicate IsLock(dialect: string, s: Schema)
  {
    s.version == SCHEMA_VERSION && s.dialect == dialect && Valid(s) && forall t :: t in s.tables ==> t.columns != []
  }

  /** The i-th migration is empty, or what was generated between the schemas around it. */
  predicate Linked(disk: Disk, schemas: seq<Schema>, i: int)
    requires 0 <= i < |disk| && |schemas| == |disk| + 1
  {
    if disk[i].up == [] then disk[i].down == [] && schemas[i + 1] == schemas[i]
    else Schemas.Generate(schemas[i], schemas[i + 1]) == Ok(Schemas.Migration(disk[i].up, disk[i].down))
  }

  ghost predicate Chained(dialect: string, disk: Disk, schemas: seq<Schema>)
  {
    && |schemas| == |disk| + 1
    && (forall i {:trigger IsLock(dialect, schemas[i])} :: 0 <= i < |schemas| ==> IsLock(dialect, schemas[i]))
    && (forall i {:trigger Linked(disk, schemas, i)} :: 0 <= i < |disk| ==> Linked(disk, schemas, i))
  }

  /** The database can hold all schemas up to the k-th. */
  ghost predicate Held(e: SchemaEngine.Engine, schemas: seq<Schema>, k: int)
  {
    forall i {:trigger SchemaEngine.CanHold(e, schemas[i].tables)} ::
      0 <= i <= k && i < |schemas| ==> SchemaEngine.CanHold(e, schemas[i].tables)
  }

  /** The applied migrations are a prefix of those on disk, and the database has the schema that prefix leads to. */
  ghost predicate Tracks(e: SchemaEngine.Engine, p: Project)
    requires |p.schemas| == |p.disk| + 1
  {
    && M.IsPrefix(p.disk, p.applied)
    && p.content == SchemaEngine.Meant(e, p.schemas[|p.applied|].tables)
    && Held(e, p.schemas, |p.applied|)
  }

  ghost predicate Good(e: SchemaEngine.Engine, dialect: string, p: Project)
  {
    && ParseDialect(dialect) == Some(e.dialect)
    && M.Ordered(p.disk) && Chained(dialect, p.disk, p.schemas) && Tracks(e, p)
  }

  // ------------------------------------------------------------------------- generating

  lemma NextLock(dialect: string, previous: Schema, current: Schema)
    requires IsLock(dialect, previous) && Schemas.Generate(previous, current).Ok?
    ensures IsLock(dialect, current)
  {
    GenerateAccepts(previous, current);
    forall t | t in current.tables
      ensures t.columns != []
    {
      SchemaRuns.FollowerHasColumns(previous.tables, t);
    }
  }

  lemma ChainAppend(dialect: string, disk: Disk, schemas: seq<Schema>, m: M.Migration<Script>, lock: Schema)
    requires Chained(dialect, disk, schemas) && IsLock(dialect, lock)
    requires if m.up == [] then m.down == [] && lock == schemas[|disk|]
             else Schemas.Generate(schemas[|disk|], lock) == Ok(Schemas.Migration(m.up, m.down))
    ensures Chained(dialect, disk + [m], schemas + [lock])
  {
    var disk', schemas' := disk + [m], schemas + [lock];
    forall i | 0 <= i < |disk'|
      ensures Linked(disk', schemas', i)
    {
      if i < |disk| {
        assert Linked(disk, schemas, i);
      }
    }
    forall i | 0 <= i < |schemas'|
      ensures IsLock(dialect, schemas'[i])
    {
      if i < |schemas| {
        assert IsLock(dialect, schemas[i]);
      }
    }
  }

  lemma AppendKeeps(e: SchemaEngine.Engine, dialect: string, p: Project, c: Command, up: Script, down: Script, lock: Schema)
    requires Good(e, dialect, p) && c.Generate? && Enabled(p, c) && IsLock(dialect, lock)
    requires if up == [] then down == [] && lock == Lock(p)
             else Schemas.Generate(Lock(p), lock) == Ok(Schemas.Migration(up, down))
    ensures Good(e, dialect, Appended(p, c, up, down, lock))
  {
    var q, k := Appended(p, c, up, down, lock), |p.applied|;
    forall i | 0 <= i < |p.disk|
      ensures p.disk[i].version < MigrationFiles.Next(c.files)
    {
      MigrationFiles.NextFollows(p.disk, c.files, i);
    }
    ChainAppend(dialect, p.disk, p.schemas, M.Migration(MigrationFiles.Next(c.files), c.name, up, down, c.digest), lock);
    assert q.disk[..k] == p.disk[..k] && q.schemas[k] == p.schemas[k];
    forall i | 0 <= i <= k
      ensures SchemaEngine.CanHold(e, q.schemas[i].tables)
    {
      assert SchemaEngine.CanHold(e, p.schemas[i].tables);
    }
  }

  lemma GenerateKeeps(e: SchemaEngine.Engine, dialect: string, p: Project, c: Command)
    requires Good(e, dialect, p) && c.Generate? && Enabled(p, c)
    ensures Good(e, dialect, Generated(p, c))
  {
    var g := Schemas.Generate(Lock(p), c.current);
    assert IsLock(dialect, p.schemas[|p.disk|]);
    if g.Ok? && c.empty && g.migration.up == [] {
      AppendKeeps(e, dialect, p, c, [], [], Lock(p));
    } else if g.Ok? && !c.empty && g.migration.up != [] {
      NextLock(dialect, Lock(p), c.current);
      AppendKeeps(e, dialect, p, c, g.migration.up, g.migration.down, c.current);
    }
  }

  // -------------------------------------------------------------------------- migrating

  lemma UpScript(e: SchemaEngine.Engine, dialect: string, disk: Disk, schemas: seq<Schema>, i: int)
    requires Chained(dialect, disk, schemas) && ParseDialect(dialect) == Some(e.dialect) && 0 <= i < |disk| && disk[i].up != []
    requires SchemaEngine.CanHold(e, schemas[i].tables)
    ensures RunScript(e, SchemaEngine.Meant(e, schemas[i].tables), disk[i].up)
            == if SchemaEngine.CanHold(e, schemas[i + 1].tables) then M.Some(SchemaEngine.Meant(e, schemas[i + 1].tables))
               else M.None
  {
    assert Linked(disk, schemas, i) && IsLock(dialect, schemas[i]) && IsLock(dialect, schemas[i + 1]);
    SchemaRuns.UpMigrates(e, schemas[i], schemas[i + 1]);
  }

  lemma DownScript(e: SchemaEngine.Engine, dialect: string, disk: Disk, schemas: seq<Schema>, i: int)
    requires Chained(dialect, disk, schemas) && ParseDialect(dialect) == Some(e.dialect) && 0 <= i < |disk| && disk[i].up != []
    requires SchemaEngine.CanHold(e, schemas[i].tables) && SchemaEngine.CanHold(e, schemas[i + 1].tables)
    ensures RunScript(e, SchemaEngine.Meant(e, schemas[i + 1].tables), disk[i].down)
            == M.Some(SchemaEngine.Meant(e, schemas[i].tables))
  {
    assert Linked(disk, schemas, i) && IsLock(dialect, schemas[i]) && IsLock(dialect, schemas[i + 1]);
    SchemaRuns.DownRestores(e, schemas[i], schemas[i + 1]);
  }

  /** The i-th migration holds statements, and the database can hold the schema they lead to. */
  ghost predicate CanApply(e: SchemaEngine.Engine, disk: Disk, schemas: seq<Schema>, i: int)
    requires 0 <= i < |disk| && |schemas| == |disk| + 1
  {
    disk[i].up != [] && SchemaEngine.CanHold(e, schemas[i + 1].tables)
  }

  ghost predicate CanApplyFrom(e: SchemaEngine.Engine, disk: Disk, schemas: seq<Schema>, k: int)
    requires |schemas| == |disk| + 1 && 0 <= k
  {
    forall i {:trigger CanApply(e, disk, schemas, i)} :: k <= i < |disk| ==> CanApply(e, disk, schemas, i)
  }

  lemma CanApplyNext(e: SchemaEngine.Engine, disk: Disk, schemas: seq<Schema>, k: int)
    requires |schemas| == |disk| + 1 && 0 <= k < |disk|
    ensures CanApplyFrom(e, disk, schemas, k) <==> CanApply(e, disk, schemas, k) && CanApplyFrom(e, disk, schemas, k + 1)
  {
  }

  /** Going forward from the schema of one prefix leads to that of the whole, or fails. */
  lemma {:induction false} ForwardLeads(e: SchemaEngine.Engine, dialect: string, disk: Disk, schemas: seq<Schema>, k: int)
    requires Chained(dialect, disk, schemas) && ParseDialect(dialect) == Some(e.dialect) && 0 <= k <= |disk|
    requires SchemaEngine.CanHold(e, schemas[k].tables)
    ensures M.Forward(RunnerOf(e), SchemaEngine.Meant(e, schemas[k].tables), disk[k..])
            == if CanApplyFrom(e, disk, schemas, k) then M.Some(SchemaEngine.Meant(e, schemas[|disk|].tables)) else M.None
    decreases |disk| - k
  {
    if k < |disk| {
      M.ForwardNext(RunnerOf(e), SchemaEngine.Meant(e, schemas[k].tables), disk, k);
      CanApplyNext(e, disk, schemas, k);
      if disk[k].up != [] {
        UpScript(e, dialect, disk, schemas, k);
        if SchemaEngine.CanHold(e, schemas[k + 1].tables) {
          ForwardLeads(e, dialect, disk, schemas, k + 1);
        }
      }
    } else {
      assert disk[k..] == [];
    }
  }

  /** The project whose database is at the k-th schema. */
  ghost function At(e: SchemaEngine.Engine, p: Project, k: int): Project
    requires 0 <= k <= |p.disk| && |p.schemas| == |p.disk| + 1
  {
    p.(content := SchemaEngine.Meant(e, p.schemas[k].tables), applied := M.RecordsOf(p.disk[..k]))
  }

  lemma AtIsGood(e: SchemaEngine.Engine, dialect: string, p: Project, k: int)
    requires ParseDialect(dialect) == Some(e.dialect) && M.Ordered(p.disk) && Chained(dialect, p.disk, p.schemas)
    requires 0 <= k <= |p.disk| && Held(e, p.schemas, k)
    ensures Good(e, dialect, At(e, p, k)) && |At(e, p, k).applied| == k
  {
    M.RecordsSize(p.disk[..k]);
  }

  lemma HeldToTheEnd(e: SchemaEngine.Engine, disk: Disk, schemas: seq<Schema>, k: int)
    requires |schemas| == |disk| + 1 && 0 <= k <= |disk| && Held(e, schemas, k) && CanApplyFrom(e, disk, schemas, k)
    ensures Held(e, schemas, |disk|)
  {
    forall i | 0 <= i <= |disk|
      ensures SchemaEngine.CanHold(e, schemas[i].tables)
    {
      if i > k {
        assert CanApply(e, disk, schemas, i - 1);
      }
    }
  }

  /** Migrating applies everything that is pending, exactly when all of it can be applied; otherwise nothing changes. */
  lemma MigrateReaches(e: SchemaEngine.Engine, dialect: string, p: Project, commits: bool)
    requires Good(e, dialect, p)
    ensures Migrated(e, p, commits)
            == if commits && CanApplyFrom(e, p.disk, p.schemas, |p.applied|) then At(e, p, |p.disk|) else p
  {
    var k := |p.applied|;
    assert SchemaEngine.CanHold(e, p.schemas[k].tables);
    ForwardLeads(e, dialect, p.disk, p.schemas, k);
    assert p.disk[..|p.disk|] == p.disk;
  }

  lemma MigrateKeeps(e: SchemaEngine.Engine, dialect: string, p: Project, commits: bool)
    requires Good(e, dialect, p)
    ensures Good(e, dialect, Migrated(e, p, commits))
  {
    MigrateReaches(e, dialect, p, commits);
    if CanApplyFrom(e, p.disk, p.schemas, |p.applied|) {
      HeldToTheEnd(e, p.disk, p.schemas, |p.applied|);
      AtIsGood(e, dialect, p, |p.disk|);
    }
  }

  // ------------------------------------------------------------------------ rolling back

  /** Rolling back undoes exactly the latest applied migration. */
  lemma RollbackReturns(e: SchemaEngine.Engine, dialect: string, p: Project, commits: bool)
    requires Good(e, dialect, p)
    ensures RolledBack(e, p, commits)
            == if commits && |p.applied| > 0 && p.disk[|p.applied| - 1].down != [] then At(e, p, |p.applied| - 1) else p
  {
    var k := |p.applied|;
    if k > 0 && commits && p.disk[k - 1].down != [] {
      assert Linked(p.disk, p.schemas, k - 1);
      assert SchemaEngine.CanHold(e, p.schemas[k - 1].tables) && SchemaEngine.CanHold(e, p.schemas[k].tables);
      DownScript(e, dialect, p.disk, p.schemas, k - 1);
    }
  }

  lemma RollbackKeeps(e: SchemaEngine.Engine, dialect: string, p: Project, commits: bool)
    requires Good(e, dialect, p)
    ensures Good(e, dialect, RolledBack(e, p, commits))
  {
    RollbackReturns(e, dialect, p, commits);
    if |p.applied| > 0 {
      AtIsGood(e, dialect, p, |p.applied| - 1);
    }
  }

  // -------------------------------------------------------------------------------- runs

  lemma StepKeepsGood(e: SchemaEngine.Engine, dialect: string, p: Project, c: Command)
    requires Good(e, dialect, p) && Enabled(p, c)
    ensures Good(e, dialect, Step(e, p, c))
  {
    match c
    case Generate(_, _, _, _, _) => GenerateKeeps(e, dialect, p, c);
    case Migrate(commits) => MigrateKeeps(e, dialect, p, commits);
    case Rollback(commits) => RollbackKeeps(e, dialect, p, commits);
  }

  ghost predicate Run(e: SchemaEngine.Engine, states: seq<Project>, commands: seq<Command>)
  {
    && |states| == |commands| + 1
    && forall i {:trigger commands[i]} :: 0 <= i < |commands| ==>
         states[i].schemas != [] && Enabled(states[i], commands[i]) && states[i + 1] == Step(e, states[i], commands[i])
  }

  lemma InitialIsGood(e: SchemaEngine.Engine, dialect: string)
    requires ParseDialect(dialect) == Some(e.dialect)
    ensures Good(e, dialect, Initial(dialect))
  {
    var p := Initial(dialect);
    assert IsLock(dialect, p.schemas[0]);
    assert SchemaEngine.CanHold(e, p.schemas[0].tables);
  }

  /**
   Over every run of generate, migrate and rollback, with failures anywhere, the applied
   migrations are a matching prefix of those on disk, and the database has the schema that
   prefix leads to.
   */
  lemma {:induction false} DatabaseTracksSchema(e: SchemaEngine.Engine, dialect: string, states: seq<Project>, commands: seq<Command>, i: int)
    requires ParseDialect(dialect) == Some(e.dialect)
    requires Run(e, states, commands) && states[0] == Initial(dialect) && 0 <= i < |states|
    ensures Good(e, dialect, states[i])
    decreases i
  {
    if i == 0 {
      InitialIsGood(e, dialect);
    } else {
      DatabaseTracksSchema(e, dialect, states, commands, i - 1);
      assert states[i] == Step(e, states[i - 1], commands[i - 1]);
      StepKeepsGood(e, dialect, states[i - 1], commands[i - 1]);
    }
  }

  /**
   On PostgreSQL, migrating reaches the locked schema, if no pending migration is an empty
   one and PostgreSQL takes the schema's names and types.
   */
  lemma PostgresReachesLock(dialect: string, p: Project, catalog: SchemaDatabases.Catalog)
    requires var e := SchemaDatabases.EngineOf(PostgreSQL, catalog); Good(e, dialect, p)
    requires forall i :: |p.applied| <= i < |p.disk| ==> p.disk[i].up != []
    requires SchemaDatabases.PostgresTakes(Lock(p).tables, catalog)
    ensures var e := SchemaDatabases.EngineOf(PostgreSQL, catalog);
            Migrated(e, p, true).content == SchemaEngine.Meant(e, Lock(p).tables) && Migrated(e, p, true).applied == M.RecordsOf(p.disk)
  {
    var e := SchemaDatabases.EngineOf(PostgreSQL, catalog);
    forall i | |p.applied| <= i < |p.disk|
      ensures CanApply(e, p.disk, p.schemas, i)
    {
      EarlierTaken(dialect, p.disk, p.schemas, i + 1, catalog);
      assert IsLock(dialect, p.schemas[i + 1]);
      SchemaDatabases.PostgresHolds(dialect, p.schemas[i + 1].tables, catalog);
    }
    MigrateReaches(e, dialect, p, true);
    assert p.disk[..|p.disk|] == p.disk;
  }

  /** Schemas only grow, so what is taken at the end was taken before. */
  lemma {:induction false} EarlierTaken(dialect: string, disk: Disk, schemas: seq<Schema>, i: int, catalog: SchemaDatabases.Catalog)
    requires Chained(dialect, disk, schemas) && 0 <= i <= |disk| && SchemaDatabases.PostgresTakes(schemas[|disk|].tables, catalog)
    ensures SchemaDatabases.PostgresTakes(schemas[i].tables, catalog)
    decreases |disk| - i
  {
    if i < |disk| {
      EarlierTaken(dialect, disk, schemas, i + 1, catalog);
      assert Linked(disk, schemas, i) && IsLock(dialect, schemas[i]);
      if disk[i].up != [] {
        SchemaDatabases.StartTaken(schemas[i], schemas[i + 1], catalog);
      }
    }
  }

  // ------------------------------------------------------------------ an empty migration

  const EMPTY_NAME := "later"

  /** An empty migration, generated before there are any models. */
  function FirstCommand(dialect: string): Command
  {
    Generate(Schema(SCHEMA_VERSION, dialect, []), EMPTY_NAME, [], "", true)
  }

  /** The models' migration, generated after it. */
  function SecondCommand(current: Schema, name: string): Command
  {
    Generate(current, name, [MigrationFiles.FileName(1, EMPTY_NAME, true)], "", false)
  }

  function WithEmpty(dialect: string): Project
  {
    var lock := Schema(SCHEMA_VERSION, dialect, []);
    Project([M.Migration(1, EMPTY_NAME, [], [], "")], [lock, lock], map[], map[])
  }

  lemma FirstStep(dialect: string)
    requires ParseDialect(dialect).Some?
    ensures Generated(Initial(dialect), FirstCommand(dialect)) == WithEmpty(dialect)
    ensures Enabled(Initial(dialect), FirstCommand(dialect))
  {
    var lock := Schema(SCHEMA_VERSION, dialect, []);
    assert Valid(lock) && Extends(lock.tables, lock.tables);
    GenerateAccepts(lock, lock);
    NothingToDo(lock, lock);
    MigrationFiles.NextIsPositive([]);
  }

  lemma FromEmpty(dialect: string, current: Schema)
    requires Valid(current) && current.dialect == dialect && current.tables != []
    requires forall t :: t in current.tables ==> t.columns != []
    ensures var g := Schemas.Generate(Schema(SCHEMA_VERSION, dialect, []), current); g.Ok? && g.migration.up != []
  {
    var lock := Schema(SCHEMA_VERSION, dialect, []);
    assert TableNames(lock.tables) == [];
    assert Valid(lock);
    GenerateAccepts(lock, current);
    NothingToDo(lock, current);
    assert current.tables[0] in current.tables;
  }

  lemma SecondStep(dialect: string, current: Schema, name: string)
    requires Valid(current) && current.dialect == dialect && current.tables != []
    requires forall t :: t in current.tables ==> t.columns != []
    ensures var p := Generated(WithEmpty(dialect), SecondCommand(current, name));
            p.schemas != [] && Lock(p) == current && |p.disk| == 2 && p.disk[0].up == [] && p.content == map[] && p.applied == map[]
    ensures Enabled(WithEmpty(dialect), SecondCommand(current, name))
  {
    FromEmpty(dialect, current);
    MigrationFiles.OneFile(1, EMPTY_NAME);
    MigrationFiles.NextIsPositive(SecondCommand(current, name).files);
  }

  /**
   An empty migration can be generated and then left empty. Whatever models are added
   afterwards, and whatever the database, migrating then changes nothing, although the
   locked schema has tables and the database has none.
   */
  lemma EmptyMigrationBlocks(e: SchemaEngine.Engine, dialect: string, current: Schema, name: string, commits: bool)
    requires ParseDialect(dialect) == Some(e.dialect) && Valid(current) && current.dialect == dialect && current.tables != []
    requires forall t :: t in current.tables ==> t.columns != []
    ensures var p := Generated(WithEmpty(dialect), SecondCommand(current, name));
            && Run(e, [Initial(dialect), WithEmpty(dialect), p], [FirstCommand(dialect), SecondCommand(current, name)])
            && Migrated(e, p, commits) == p && p.content == map[] && p.schemas != [] && Lock(p) == current
  {
    FirstStep(dialect);
    SecondStep(dialect, current, name);
    var p := Generated(WithEmpty(dialect), SecondCommand(current, name));
    var states, commands := [Initial(dialect), WithEmpty(dialect), p], [FirstCommand(dialect), SecondCommand(current, name)];
    forall i | 0 <= i < |commands|
      ensures states[i].schemas != [] && Enabled(states[i], commands[i]) && states[i + 1] == Step(e, states[i], commands[i])
    {
    }
    DatabaseTracksSchema(e, dialect, states, commands, 2);
    MigrateReaches(e, dialect, p, commits);
    assert !CanApply(e, p.disk, p.schemas, 0);
  }
}
