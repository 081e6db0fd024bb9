/**
 What generated migrations do to a database. A database compares identifiers through
 `key`, refuses some names of tables, and refuses some columns for their name or their
 type. The results hold whatever it compares and refuses.
 */
module SchemaEngine {
  import opened Schemas

  datatype Engine = Engine(
    dialect: Dialect,
    key: string -> string,
    refusesTable: string -> bool,
    refusesColumn: (string, string) -> bool)

  datatype DbColumn = DbColumn(typ: string, notNull: bool, unique: bool, autoincrement: bool)

  datatype DbTable = DbTable(columns: map<string, DbColumn>, primaryKey: seq<string>)

  type Db = map<string, DbTable>

  function FoldName(name: string): string
  {
    seq(|name|, i requires 0 <= i < |name| => AsciiLower(name[i]))
  }

  function Keyed(e: Engine, names: seq<string>): (keys: seq<string>)
    ensures |keys| == |names| && forall i :: 0 <= i < |names| ==> keys[i] == e.key(names[i])
  {
    seq(|names|, i requires 0 <= i < |names| => e.key(names[i]))
  }

  /** The migration tool's own tables are in every database it works on. */
  function Bookkeeping(e: Engine): set<string>
  {
    {e.key("_godo_migrations"), e.key("_godo_migration_lock")}
  }

  predicate HasKey(e: Engine, names: seq<string>, k: string)
  {
    exists i :: 0 <= i < |names| && e.key(names[i]) == k
  }

  /** No two of the names are one to the database. */
  ghost predicate Apart(e: Engine, names: seq<string>)
  {
    forall i, j {:trigger names[i], names[j]} :: 0 <= i < j < |names| ==> e.key(names[i]) != e.key(names[j])
  }

  ghost predicate TakesDefinitions(e: Engine, definitions: seq<Definition>)
  {
    forall i :: 0 <= i < |definitions| ==> !e.refusesColumn(definitions[i].name, definitions[i].typ)
  }

  ghost predicate TakesColumns(e: Engine, columns: seq<Column>)
  {
    forall i :: 0 <= i < |columns| ==> !e.refusesColumn(columns[i].name, columns[i].typ)
  }

  // ----------------------------------------------------------------- executing statements

  /** Whether being in the primary key already excludes NULL; in SQLite only a row id does. */
  predicate NeverNull(e: Engine, primaryKey: seq<string>, k: string, typ: string)
  {
    match e.dialect
    case PostgreSQL => k in primaryKey
    case SQLite => primaryKey == [k] && FoldName(typ) == "integer"
  }

  function InlineKey(definitions: seq<Definition>): seq<string>
    decreases |definitions|
  {
    if definitions == [] then []
    else
      var last := definitions[|definitions| - 1];
      InlineKey(definitions[..|definitions| - 1]) + if last.primary then [last.name] else []
  }

  function DefinitionNames(definitions: seq<Definition>): (names: seq<string>)
    ensures |names| == |definitions| && forall i :: 0 <= i < |names| ==> names[i] == definitions[i].name
  {
    seq(|definitions|, i requires 0 <= i < |definitions| => definitions[i].name)
  }

  function StatedKey(definitions: seq<Definition>, compositeKey: seq<string>): seq<string>
  {
    if compositeKey == [] then InlineKey(definitions) else compositeKey
  }

  predicate GoodKey(e: Engine, definitions: seq<Definition>, compositeKey: seq<string>)
  {
    if compositeKey == [] then |InlineKey(definitions)| <= 1
    else
      && InlineKey(definitions) == []
      && forall i :: 0 <= i < |compositeKey| ==> HasKey(e, DefinitionNames(definitions), e.key(compositeKey[i]))
  }

  function ColumnDefined(e: Engine, primaryKey: seq<string>, d: Definition): DbColumn
  {
    DbColumn(d.typ, d.notNull || NeverNull(e, primaryKey, e.key(d.name), d.typ), d.unique, d.autoincrement)
  }

  function ColumnsDefined(e: Engine, primaryKey: seq<string>, definitions: seq<Definition>): map<string, DbColumn>
    decreases |definitions|
  {
    if definitions == [] then map[]
    else
      var last := definitions[|definitions| - 1];
      ColumnsDefined(e, primaryKey, definitions[..|definitions| - 1])[e.key(last.name) := ColumnDefined(e, primaryKey, last)]
  }

  ghost function Execute(e: Engine, db: Db, s: Statement): Option<Db>
  {
    var k := e.key(s.table);
    match s
    case CreateTable(_, definitions, compositeKey) =>
      if k in db || k in Bookkeeping(e) || e.refusesTable(s.table) || (e.dialect == SQLite && definitions == [])
         || !Apart(e, DefinitionNames(definitions)) || !TakesDefinitions(e, definitions)
         || !GoodKey(e, definitions, compositeKey) then None
      else
        var primaryKey := Keyed(e, StatedKey(definitions, compositeKey));
        Some(db[k := DbTable(ColumnsDefined(e, primaryKey, definitions), primaryKey)])
    case DropTable(_) =>
      if k in db then Some(db - {k}) else None
    case AddColumn(_, column, typ) =>
      if k !in db || e.key(column) in db[k].columns || e.refusesColumn(column, typ) then None
      else
        var added := DbColumn(typ, NeverNull(e, db[k].primaryKey, e.key(column), typ), false, false);
        Some(db[k := db[k].(columns := db[k].columns[e.key(column) := added])])
    case DropColumn(_, column) =>
      if k !in db || e.key(column) !in db[k].columns || e.key(column) in db[k].primaryKey
         || db[k].columns[e.key(column)].unique
         || (e.dialect == SQLite && db[k].columns - {e.key(column)} == map[]) then None   // a table keeps a column there
      else Some(db[k := db[k].(columns := db[k].columns - {e.key(column)})])
  }

  /** A migration runs in a transaction: it applies as a whole or not at all. */
  ghost function Run(e: Engine, db: Db, statements: seq<Statement>): Option<Db>
    decreases |statements|
  {
    if statements == [] then Some(db)
    else
      match Execute(e, db, statements[0])
      case None => None
      case Some(next) => Run(e, next, statements[1..])
  }

  lemma {:induction false} RunAppend(e: Engine, db: Db, a: seq<Statement>, b: seq<Statement>)
    ensures Run(e, db, a + b) == match Run(e, db, a) case None => None case Some(next) => Run(e, next, b)
    decreases |a|
  {
    if a == [] {
      assert a + b == b;
    } else {
      assert (a + b)[0] == a[0] && (a + b)[1..] == a[1..] + b;
      match Execute(e, db, a[0])
      case None =>
      case Some(next) => RunAppend(e, next, a[1..], b);
    }
  }

  lemma RunOne(e: Engine, db: Db, s: Statement)
    ensures Run(e, db, [s]) == Execute(e, db, s)
  {
    assert [s][1..] == [];
    match Execute(e, db, s)
    case None =>
    case Some(next) => assert Run(e, next, []) == Some(next);
  }

  // -------------------------------------------------------------- the schema a database has

  function ColumnMeant(e: Engine, primaryKey: seq<string>, c: Column): DbColumn
  {
    DbColumn(c.typ, c.notNull || NeverNull(e, primaryKey, e.key(c.name), c.typ), c.unique, e.dialect == SQLite && c.auto)
  }

  function ColumnsMeant(e: Engine, primaryKey: seq<string>, columns: seq<Column>): map<string, DbColumn>
    decreases |columns|
  {
    if columns == [] then map[]
    else
      var last := columns[|columns| - 1];
      ColumnsMeant(e, primaryKey, columns[..|columns| - 1])[e.key(last.name) := ColumnMeant(e, primaryKey, last)]
  }

  function TableMeant(e: Engine, t: Table): DbTable
  {
    DbTable(ColumnsMeant(e, Keyed(e, t.primaryKey), t.columns), Keyed(e, t.primaryKey))
  }

  /** The database a schema describes. */
  function Meant(e: Engine, tables: seq<Table>): Db
    decreases |tables|
  {
    if tables == [] then map[]
    else
      var last := tables[|tables| - 1];
      Meant(e, tables[..|tables| - 1])[e.key(last.name) := TableMeant(e, last)]
  }

  /** The database takes the table's name and its columns, and tells all their names apart. */
  ghost predicate TakesTable(e: Engine, t: Table)
  {
    && e.key(t.name) !in Bookkeeping(e) && !e.refusesTable(t.name)
    && Apart(e, Names(t.columns)) && TakesColumns(e, t.columns)
  }

  ghost predicate TakesTables(e: Engine, tables: seq<Table>)
  {
    Apart(e, TableNames(tables)) && forall t :: t in tables ==> TakesTable(e, t)
  }

  /** In SQLite a table has a column. */
  predicate Filled(e: Engine, tables: seq<Table>)
  {
    e.dialect == SQLite ==> forall t :: t in tables ==> t.columns != []
  }

  /** The database can hold all tables, and tells their names apart. */
  ghost predicate CanHold(e: Engine, tables: seq<Table>)
  {
    TakesTables(e, tables) && Filled(e, tables)
  }

  lemma {:induction false} ColumnsMeantKeys(e: Engine, primaryKey: seq<string>, columns: seq<Column>, k: string)
    ensures k in ColumnsMeant(e, primaryKey, columns) <==> HasKey(e, Names(columns), k)
    decreases |columns|
  {
    if columns != [] {
      var last := |columns| - 1;
      ColumnsMeantKeys(e, primaryKey, columns[..last], k);
      HasKeyLast(e, Names(columns), k);
      assert Names(columns)[..last] == Names(columns[..last]);
    }
  }

  lemma {:induction false} MeantKeys(e: Engine, tables: seq<Table>, k: string)
    ensures k in Meant(e, tables) <==> HasKey(e, TableNames(tables), k)
    decreases |tables|
  {
    if tables != [] {
      var last := |tables| - 1;
      MeantKeys(e, tables[..last], k);
      HasKeyLast(e, TableNames(tables), k);
      assert TableNames(tables)[..last] == TableNames(tables[..last]);
    }
  }

  lemma HasKeyLast(e: Engine, names: seq<string>, k: string)
    requires names != []
    ensures HasKey(e, names, k) <==> HasKey(e, names[..|names| - 1], k) || e.key(names[|names| - 1]) == k
  {
    var init := names[..|names| - 1];
    if HasKey(e, init, k) {
      var i :| 0 <= i < |init| && e.key(init[i]) == k;
      assert names[i] == init[i];
    }
    if HasKey(e, names, k) {
      var i :| 0 <= i < |names| && e.key(names[i]) == k;
      assert i < |init| ==> init[i] == names[i];
    }
  }

  lemma {:induction false} ColumnMeantAt(e: Engine, primaryKey: seq<string>, columns: seq<Column>, c: Column)
    requires Apart(e, Names(columns)) && c in columns
    ensures e.key(c.name) in ColumnsMeant(e, primaryKey, columns)
    ensures ColumnsMeant(e, primaryKey, columns)[e.key(c.name)] == ColumnMeant(e, primaryKey, c)
    decreases |columns|
  {
    var last := |columns| - 1;
    if c != columns[last] {
      var i :| 0 <= i < |columns| && columns[i] == c;
      assert Names(columns)[i] == c.name && Names(columns)[last] == columns[last].name;
      ApartPrefix(e, Names(columns), last);
      assert Names(columns)[..last] == Names(columns[..last]);
      assert columns[..last][i] == c;
      ColumnMeantAt(e, primaryKey, columns[..last], c);
    }
  }

  lemma {:induction false} MeantAt(e: Engine, tables: seq<Table>, t: Table)
    requires Apart(e, TableNames(tables)) && t in tables
    ensures e.key(t.name) in Meant(e, tables)
    ensures Meant(e, tables)[e.key(t.name)] == TableMeant(e, t)
    decreases |tables|
  {
    var last := |tables| - 1;
    if t != tables[last] {
      var i :| 0 <= i < |tables| && tables[i] == t;
      assert TableNames(tables)[i] == t.name && TableNames(tables)[last] == tables[last].name;
      ApartPrefix(e, TableNames(tables), last);
      assert TableNames(tables)[..last] == TableNames(tables[..last]);
      assert tables[..last][i] == t;
      MeantAt(e, tables[..last], t);
    }
  }

  lemma ApartPrefix(e: Engine, names: seq<string>, n: int)
    requires Apart(e, names) && 0 <= n <= |names|
    ensures Apart(e, names[..n])
  {
  }

  // --------------------------------------------------------------------- telling names apart

  /** The j-th name is an old one, or one the database can still take. */
  ghost predicate Usable(e: Engine, prior: seq<string>, names: seq<string>, j: int)
    requires 0 <= j < |names|
  {
    names[j] in prior || (!HasKey(e, prior, e.key(names[j])) && !HasKey(e, names[..j], e.key(names[j])))
  }

  ghost predicate AllUsable(e: Engine, prior: seq<string>, names: seq<string>, from: int)
    requires 0 <= from
  {
    forall j {:trigger Usable(e, prior, names, j)} :: from <= j < |names| ==> Usable(e, prior, names, j)
  }

  lemma ApartIsUsable(e: Engine, prior: seq<string>, names: seq<string>)
    requires Apart(e, names)
    requires forall i :: 0 <= i < |prior| ==> prior[i] in names
    ensures AllUsable(e, prior, names, 0)
  {
    forall j | 0 <= j < |names|
      ensures Usable(e, prior, names, j)
    {
      var k := e.key(names[j]);
      if HasKey(e, prior, k) {
        var i :| 0 <= i < |prior| && e.key(prior[i]) == k;
        var m :| 0 <= m < |names| && names[m] == prior[i];
        SameKeySameIndex(e, names, m, j);
      }
      forall i | 0 <= i < j
        ensures e.key(names[..j][i]) != k
      {
        DifferentKeys(e, names, i, j);
      }
    }
  }

  lemma SameKeySameIndex(e: Engine, names: seq<string>, i: int, j: int)
    requires Apart(e, names) && 0 <= i < |names| && 0 <= j < |names| && e.key(names[i]) == e.key(names[j])
    ensures i == j
  {
  }

  lemma UsablePair(e: Engine, prior: seq<string>, names: seq<string>, i: int, j: int)
    requires 0 <= i < j < |names| && names[i] != names[j] && Apart(e, prior)
    requires Usable(e, prior, names, i) && Usable(e, prior, names, j)
    ensures e.key(names[i]) != e.key(names[j])
  {
    if names[j] !in prior {
      assert names[..j][i] == names[i];
    } else {
      var b :| 0 <= b < |prior| && prior[b] == names[j];
      if names[i] in prior {
        var a :| 0 <= a < |prior| && prior[a] == names[i];
        DifferentKeys(e, prior, a, b);
      }
    }
  }

  lemma DifferentKeys(e: Engine, names: seq<string>, i: int, j: int)
    requires Apart(e, names) && 0 <= i < |names| && 0 <= j < |names| && i != j
    ensures e.key(names[i]) != e.key(names[j])
  {
  }

  lemma UsableIsApart(e: Engine, prior: seq<string>, names: seq<string>)
    requires AllUsable(e, prior, names, 0) && Apart(e, prior) && Distinct(names)
    ensures Apart(e, names)
  {
    forall i, j | 0 <= i < j < |names|
      ensures e.key(names[i]) != e.key(names[j])
    {
      assert Usable(e, prior, names, i) && Usable(e, prior, names, j);
      UsablePair(e, prior, names, i, j);
    }
  }

  /** A usable name is new among the names up to it. */
  lemma UsableIsFresh(e: Engine, prior: seq<string>, names: seq<string>, j: int)
    requires 0 <= j < |names| && Distinct(names) && Apart(e, prior)
    requires forall i :: 0 <= i <= j ==> Usable(e, prior, names, i)
    ensures !HasKey(e, names[..j], e.key(names[j]))
  {
    forall i | 0 <= i < j
      ensures e.key(names[..j][i]) != e.key(names[j])
    {
      UsablePair(e, prior, names, i, j);
    }
  }
}
