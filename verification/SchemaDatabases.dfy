/**
 Generated migrations on the two supported databases: what PostgreSQL and SQLite compare and
 refuse, which schemas they can hold, and valid schemas that they cannot hold or return to.
 */
module SchemaDatabases {
  import opened Schemas
  import opened SchemaEngine
  import opened SchemaRuns

  /** PostgreSQL compares quoted names exactly, but only their first 63 bytes. */
  const NAME_BYTES := 63

  function CutName(name: string): string
  {
    if |name| <= NAME_BYTES then name else name[..NAME_BYTES]
  }

  const SYSTEM_COLUMNS: set<string> := {"tableoid", "xmin", "cmin", "xmax", "cmax", "ctid"}

  /** SQLite keeps names with this prefix, in any case, for itself. */
  predicate SQLiteOwn(name: string)
  {
    |name| >= 7 && FoldName(name[..7]) == "sqlite_"
  }

  /**
   What else a database holds: the column types it knows, and the names taken by something
   other than the schema's tables, such as the indexes and sequences that are made for keys.
   */
  datatype Catalog = Catalog(knows: string -> bool, taken: string -> bool)

  function EngineOf(dialect: Dialect, catalog: Catalog): Engine
  {
    match dialect
    case SQLite =>
      Engine(SQLite, FoldName, name => SQLiteOwn(name) || catalog.taken(name), (_, typ) => !catalog.knows(typ))
    case PostgreSQL =>
      Engine(PostgreSQL, CutName, name => catalog.taken(name), (name, typ) => name in SYSTEM_COLUMNS || !catalog.knows(typ))
  }

  // ----------------------------------------------------------------------- PostgreSQL

  /** The names are short enough for PostgreSQL, not taken and none of its own, and it knows the types. */
  predicate PostgresTakes(tables: seq<Table>, catalog: Catalog)
  {
    forall t :: t in tables ==> |t.name| <= NAME_BYTES && !catalog.taken(t.name) && PostgresTakesColumns(t.columns, catalog)
  }

  predicate PostgresTakesColumns(columns: seq<Column>, catalog: Catalog)
  {
    forall c :: c in columns ==> |c.name| <= NAME_BYTES && c.name !in SYSTEM_COLUMNS && catalog.knows(c.typ)
  }

  lemma PostgresHolds(dialect: string, tables: seq<Table>, catalog: Catalog)
    requires ValidTables(dialect, tables) && PostgresTakes(tables, catalog)
    ensures CanHold(EngineOf(PostgreSQL, catalog), tables)
  {
    var e := EngineOf(PostgreSQL, catalog);
    forall i | 0 <= i < |tables|
      ensures e.key(TableNames(tables)[i]) == TableNames(tables)[i]
    {
      assert tables[i] in tables;
    }
    forall t | t in tables
      ensures TakesTable(e, t)
    {
      assert ValidTable(dialect, t);
      PostgresHoldsTable(e, catalog, dialect, t);
    }
  }

  lemma PostgresHoldsTable(e: Engine, catalog: Catalog, dialect: string, t: Table)
    requires e == EngineOf(PostgreSQL, catalog) && ValidTable(dialect, t)
    requires |t.name| <= NAME_BYTES && !catalog.taken(t.name) && PostgresTakesColumns(t.columns, catalog)
    ensures TakesTable(e, t)
  {
    forall i | 0 <= i < |t.columns|
      ensures e.key(Names(t.columns)[i]) == Names(t.columns)[i] && !e.refusesColumn(t.columns[i].name, t.columns[i].typ)
    {
      assert t.columns[i] in t.columns;
    }
  }

  lemma StartTaken(previous: Schema, current: Schema, catalog: Catalog)
    requires Generate(previous, current).Ok? && PostgresTakes(current.tables, catalog)
    ensures PostgresTakes(Start(previous, current).tables, catalog)
  {
    forall p | p in Start(previous, current).tables
      ensures |p.name| <= NAME_BYTES && !catalog.taken(p.name) && PostgresTakesColumns(p.columns, catalog)
    {
      var t := Successor(previous, current, p);
    }
  }

  /**
   On PostgreSQL every generated migration applies and is undone, if the names of the new
   schema have at most 63 bytes, no table's name is taken, no column is named like a system
   column, and all types are known.
   */
  lemma PostgresMigrates(previous: Schema, current: Schema, catalog: Catalog)
    requires Generate(previous, current).Ok? && ParseDialect(current.dialect) == Some(PostgreSQL)
    requires PostgresTakes(current.tables, catalog)
    ensures var e, g, start := EngineOf(PostgreSQL, catalog), Generate(previous, current).migration, Start(previous, current).tables;
            && Run(e, Meant(e, start), g.up) == Some(Meant(e, current.tables))
            && Run(e, Meant(e, current.tables), g.down) == Some(Meant(e, start))
  {
    var e, start := EngineOf(PostgreSQL, catalog), Start(previous, current).tables;
    StartTaken(previous, current, catalog);
    PostgresHolds(current.dialect, start, catalog);
    PostgresHolds(current.dialect, current.tables, catalog);
    UpMigrates(e, previous, current);
    DownRestores(e, previous, current);
  }

  // ------------------------------------------------------ valid schemas that cannot be reached

  function OneColumn(column: string): seq<Column>
  {
    [Column(column, "TEXT", false, false, false)]
  }

  function With(dialect: string, tables: seq<Table>): Schema
  {
    Schema(SCHEMA_VERSION, dialect, tables)
  }

  const NOTHING := Schema(0, "", [])

  lemma SmallValid(dialect: string, table: string, column: string)
    requires ValidName(table) && !Reserved(table) && ValidName(column)
    ensures ValidTable(dialect, Table(table, OneColumn(column), [])) && ValidTable(dialect, Table(table, [], []))
  {
    assert Names(OneColumn(column)) == [column];
  }

  lemma DialectNames()
    ensures ParseDialect("sqlite") == Some(SQLite) && ParseDialect("postgres") == Some(PostgreSQL)
  {
    PostgresName();
    assert LowerAll("sqlite") == "sqlite";
  }

  /** From nothing, a valid schema is reached if and only if the database can hold it. */
  lemma FromNothing(e: Engine, current: Schema)
    requires Valid(current) && ParseDialect(current.dialect) == Some(e.dialect)
    requires forall t :: t in current.tables ==> t.columns != []
    ensures Generate(NOTHING, current).Ok?
    ensures Run(e, map[], Generate(NOTHING, current).migration.up)
            == if CanHold(e, current.tables) then Some(Meant(e, current.tables)) else None
  {
    var start := Start(NOTHING, current);
    assert start.tables == [] && Valid(start);
    forall t | t in current.tables
      ensures Follows(start.tables, t)
    {
      assert TableNames(start.tables) == [];
    }
    GenerateAccepts(NOTHING, current);
    assert CanHold(e, start.tables);
    UpMigrates(e, NOTHING, current);
    assert Meant(e, start.tables) == map[];
  }

  /** A valid schema that the database cannot hold is never reached. */
  lemma NotReached(e: Engine, dialect: string, tables: seq<Table>)
    requires ParseDialect(dialect) == Some(e.dialect) && ValidTables(dialect, tables) && !CanHold(e, tables)
    requires forall t :: t in tables ==> t.columns != []
    ensures Generate(NOTHING, With(dialect, tables)).Ok?
    ensures Run(e, map[], Generate(NOTHING, With(dialect, tables)).migration.up) == None
  {
    FromNothing(e, With(dialect, tables));
  }

  function Small(table: string, column: string): Table
  {
    Table(table, OneColumn(column), [])
  }

  lemma PairCollides(e: Engine, dialect: string, a: string, b: string)
    requires ParseDialect(dialect) == Some(e.dialect) && a != b && e.key(a) == e.key(b)
    requires ValidName(a) && !Reserved(a) && ValidName(b) && !Reserved(b)
    ensures var two := With(dialect, [Small(a, "x"), Small(b, "x")]);
            Generate(NOTHING, two).Ok? && Run(e, map[], Generate(NOTHING, two).migration.up) == None
  {
    var tables := [Small(a, "x"), Small(b, "x")];
    SmallValid(dialect, a, "x");
    SmallValid(dialect, b, "x");
    assert TableNames(tables) == [a, b];
    assert e.key(TableNames(tables)[0]) == e.key(TableNames(tables)[1]);
    NotReached(e, dialect, tables);
  }

  lemma NameRefused(e: Engine, dialect: string, table: string, column: string)
    requires ParseDialect(dialect) == Some(e.dialect) && ValidName(table) && !Reserved(table) && ValidName(column)
    requires e.refusesTable(table) || e.refusesColumn(column, "TEXT")
    ensures var one := With(dialect, [Small(table, column)]);
            Generate(NOTHING, one).Ok? && Run(e, map[], Generate(NOTHING, one).migration.up) == None
  {
    var tables := [Small(table, column)];
    SmallValid(dialect, table, column);
    assert tables[0] in tables && OneColumn(column)[0].name == column;
    NotReached(e, dialect, tables);
  }

  /** Two names that differ only in case pass the checks, but SQLite cannot hold both: the migration does not apply. */
  lemma CaseCollides(catalog: Catalog)
    ensures var two := With("sqlite", [Small("A", "x"), Small("a", "x")]);
            && Generate(NOTHING, two).Ok?
            && Run(EngineOf(SQLite, catalog), map[], Generate(NOTHING, two).migration.up) == None
  {
    DialectNames();
    assert FoldName("A") == FoldName("a");
    PairCollides(EngineOf(SQLite, catalog), "sqlite", "A", "a");
  }

  /** Two names that agree in their first 63 bytes pass the checks, but are one to PostgreSQL. */
  lemma LongNamesCollide(catalog: Catalog, name: string)
    requires ValidName(name) && |name| == NAME_BYTES
    ensures var two := With("postgres", [Small(name + "a", "x"), Small(name + "b", "x")]);
            && Generate(NOTHING, two).Ok?
            && Run(EngineOf(PostgreSQL, catalog), map[], Generate(NOTHING, two).migration.up) == None
  {
    DialectNames();
    var a, b := name + "a", name + "b";
    assert CutName(a) == name && CutName(b) == name && a[NAME_BYTES] != b[NAME_BYTES];
    PairCollides(EngineOf(PostgreSQL, catalog), "postgres", a, b);
  }

  /** Names that a database keeps for itself pass the checks too. */
  lemma OwnTableRefused(catalog: Catalog)
    ensures var own := With("sqlite", [Small("sqlite_x", "x")]);
            Generate(NOTHING, own).Ok? && Run(EngineOf(SQLite, catalog), map[], Generate(NOTHING, own).migration.up) == None
  {
    DialectNames();
    var e, name := EngineOf(SQLite, catalog), "sqlite_x";
    assert name[..7] == "sqlite_" && FoldName("sqlite_") == "sqlite_";
    assert SQLiteOwn(name) && e.refusesTable(name);
    NameRefused(e, "sqlite", name, "x");
  }

  lemma OwnColumnRefused(catalog: Catalog)
    ensures var own := With("postgres", [Small("t", "ctid")]);
            Generate(NOTHING, own).Ok? && Run(EngineOf(PostgreSQL, catalog), map[], Generate(NOTHING, own).migration.up) == None
  {
    DialectNames();
    NameRefused(EngineOf(PostgreSQL, catalog), "postgres", "t", "ctid");
  }

  lemma OnlyColumn(e: Engine, dialect: string, name: string)
    requires ParseDialect(dialect) == Some(e.dialect) && ValidName(name) && !Reserved(name)
    ensures var empty, filled := With(dialect, [Table(name, [], [])]), With(dialect, [Small(name, "x")]);
            && Start(empty, filled) == empty && Generate(empty, filled).Ok? && !NoneFilled(empty.tables, filled.tables)
  {
    var plain, more := Table(name, [], []), Small(name, "x");
    var empty, filled := With(dialect, [plain]), With(dialect, [more]);
    SmallValid(dialect, name, "x");
    assert ExtendsTable(plain, more) && plain in empty.tables && more in filled.tables;
    assert TableNames(empty.tables) == [name] && TableNames(filled.tables) == [name];
    GenerateAccepts(empty, filled);
  }

  lemma FilledStays(e: Engine, dialect: string, name: string)
    requires ParseDialect(dialect) == Some(e.dialect) && e.dialect == SQLite && ValidName(name) && !Reserved(name)
    requires e.key(name) !in Bookkeeping(e) && !e.refusesTable(name) && !e.refusesColumn("x", "TEXT")
    ensures var empty, filled := With(dialect, [Table(name, [], [])]), With(dialect, [Small(name, "x")]);
            && Generate(empty, filled).Ok? && Generate(NOTHING, filled).Ok? && CanHold(e, filled.tables)
            && Run(e, map[], Generate(NOTHING, filled).migration.up) == Some(Meant(e, filled.tables))
            && Run(e, Meant(e, filled.tables), Generate(empty, filled).migration.down) == None
  {
    var empty, filled := With(dialect, [Table(name, [], [])]), With(dialect, [Small(name, "x")]);
    OnlyColumn(e, dialect, name);
    assert CanHold(e, filled.tables);
    FromNothing(e, filled);
    DownRestores(e, empty, filled);
  }

  /**
   A valid schema may have a table without columns, which SQLite cannot hold. When the table
   gets its first column, the backward migration fails on every database of the new schema.
   */
  lemma OnlyColumnStays(catalog: Catalog)
    requires catalog.knows("TEXT") && !catalog.taken("t")
    ensures var e, empty, filled := EngineOf(SQLite, catalog), With("sqlite", [Table("t", [], [])]), With("sqlite", [Small("t", "x")]);
            && Generate(empty, filled).Ok? && Generate(NOTHING, filled).Ok? && CanHold(e, filled.tables)
            && Run(e, map[], Generate(NOTHING, filled).migration.up) == Some(Meant(e, filled.tables))
            && Run(e, Meant(e, filled.tables), Generate(empty, filled).migration.down) == None
  {
    DialectNames();
    assert |FoldName("t")| == 1;
    FilledStays(EngineOf(SQLite, catalog), "sqlite", "t");
  }
}
