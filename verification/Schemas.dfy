/**
 Schemas and the migrations generated from them (core/orm/schema.go): what a valid schema
 is, which changes are refused, and the statements that are generated for the others.
 */
module Schemas {
  datatype Option<T> = None | Some(value: T)

  datatype Column = Column(name: string, typ: string, notNull: bool, unique: bool, auto: bool)

  datatype Table = Table(name: string, columns: seq<Column>, primaryKey: seq<string>)

  datatype Schema = Schema(version: int, dialect: string, tables: seq<Table>)

  datatype Dialect = SQLite | PostgreSQL

  const SCHEMA_VERSION := 1

  // -------------------------------------------------------------------- validity

  function AsciiLower(c: char): char
  {
    if 'A' <= c <= 'Z' then (c as int + 32) as char else c
  }

  /** Besides the ASCII letters, U+0130 is the one character whose lower case occurs in a dialect name. */
  function Lower(c: char): char
  {
    if c == '\U{0130}' then 'i' else AsciiLower(c)
  }

  function LowerAll(s: string): (r: string)
    ensures |r| == |s|
  {
    seq(|s|, i requires 0 <= i < |s| => Lower(s[i]))
  }

  function ParseDialect(name: string): Option<Dialect>
  {
    var lower := LowerAll(name);
    if lower == "sqlite" || lower == "sqlite3" then Some(SQLite)
    else if lower == "postgres" || lower == "postgresql" then Some(PostgreSQL)
    else None
  }

  predicate ValidName(name: string)
  {
    && name != ""
    && forall i :: 0 <= i < |name| ==>
         name[i] == '_' || 'a' <= name[i] <= 'z' || 'A' <= name[i] <= 'Z' || (i > 0 && '0' <= name[i] <= '9')
  }

  predicate ValidType(typ: string)
  {
    typ != "" && ';' !in typ && '\0' !in typ
  }

  predicate Reserved(name: string)
  {
    name == "_godo_migrations" || name == "_godo_migration_lock"
  }

  /** Only these exact dialect names allow an auto column. */
  predicate AutoType(dialect: string, typ: string)
  {
    (dialect == "sqlite" && typ == "INTEGER") || (dialect == "postgres" && typ == "BIGSERIAL")
  }

  predicate ValidColumn(c: Column)
  {
    ValidName(c.name) && ValidType(c.typ)
  }

  predicate ValidAuto(dialect: string, t: Table, c: Column)
  {
    c.auto ==> t.primaryKey == [c.name] && AutoType(dialect, c.typ)
  }

  function Names(columns: seq<Column>): (names: seq<string>)
    ensures |names| == |columns| && forall i :: 0 <= i < |columns| ==> names[i] == columns[i].name
  {
    seq(|columns|, i requires 0 <= i < |columns| => columns[i].name)
  }

  function TableNames(tables: seq<Table>): (names: seq<string>)
    ensures |names| == |tables| && forall i :: 0 <= i < |tables| ==> names[i] == tables[i].name
  {
    seq(|tables|, i requires 0 <= i < |tables| => tables[i].name)
  }

  predicate Distinct(names: seq<string>)
  {
    forall i, j :: 0 <= i < j < |names| ==> names[i] != names[j]
  }

  predicate ValidTable(dialect: string, t: Table)
  {
    && ValidName(t.name) && !Reserved(t.name)
    && (forall i :: 0 <= i < |t.columns| ==> ValidColumn(t.columns[i]))
    && Distinct(Names(t.columns))
    && (forall i :: 0 <= i < |t.primaryKey| ==> t.primaryKey[i] in Names(t.columns))
    && Distinct(t.primaryKey)
    && (forall i :: 0 <= i < |t.columns| ==> ValidAuto(dialect, t, t.columns[i]))
  }

  predicate ValidTables(dialect: string, tables: seq<Table>)
  {
    && (forall i :: 0 <= i < |tables| ==> ValidTable(dialect, tables[i]))
    && Distinct(TableNames(tables))
  }

  predicate Valid(schema: Schema)
  {
    && schema.version == SCHEMA_VERSION
    && ParseDialect(schema.dialect).Some?
    && ValidTables(schema.dialect, schema.tables)
  }

  // ------------------------------------------------------------------ statements

  datatype Definition = Definition(name: string, typ: string, primary: bool, autoincrement: bool, notNull: bool, unique: bool)

  datatype Statement =
    | CreateTable(table: string, definitions: seq<Definition>, compositeKey: seq<string>)
    | DropTable(table: string)
    | AddColumn(table: string, column: string, typ: string)
    | DropColumn(table: string, column: string)

  datatype Migration = Migration(up: seq<Statement>, down: seq<Statement>)

  datatype Refusal =
    | InvalidCurrent | InvalidPrevious | DialectChanged | DropsTable | EmptyTable
    | ChangesPrimaryKey | DropsColumn | ChangesColumn | ConstrainedColumn

  datatype Generated = Ok(migration: Migration) | Refused(refusal: Refusal)

  function DefinitionOf(dialect: Dialect, primaryKey: seq<string>, c: Column): Definition
  {
    var sole := primaryKey == [c.name];
    Definition(c.name, c.typ, sole, sole && dialect == SQLite && c.auto, c.notNull && !(sole && c.auto), c.unique)
  }

  function Definitions(dialect: Dialect, primaryKey: seq<string>, columns: seq<Column>): (definitions: seq<Definition>)
    ensures |definitions| == |columns|
    ensures forall i :: 0 <= i < |columns| ==> definitions[i] == DefinitionOf(dialect, primaryKey, columns[i])
  {
    seq(|columns|, i requires 0 <= i < |columns| => DefinitionOf(dialect, primaryKey, columns[i]))
  }

  function Creation(dialect: Dialect, t: Table): Statement
  {
    CreateTable(t.name, Definitions(dialect, t.primaryKey, t.columns), if |t.primaryKey| > 1 then t.primaryKey else [])
  }

  // ------------------------------------------------------------------ generation

  function TablesByName(tables: seq<Table>): map<string, Table>
    decreases |tables|
  {
    if tables == [] then map[]
    else TablesByName(tables[..|tables| - 1])[tables[|tables| - 1].name := tables[|tables| - 1]]
  }

  function ColumnsByName(columns: seq<Column>): map<string, Column>
    decreases |columns|
  {
    if columns == [] then map[]
    else ColumnsByName(columns[..|columns| - 1])[columns[|columns| - 1].name := columns[|columns| - 1]]
  }

  /** Two steps one after the other: statements are undone in reverse order. */
  function Then(first: Generated, second: Generated): Generated
  {
    if first.Refused? then first
    else if second.Refused? then second
    else Ok(Migration(first.migration.up + second.migration.up, second.migration.down + first.migration.down))
  }

  const NOTHING := Ok(Migration([], []))

  predicate Unconstrained(t: Table, c: Column)
  {
    !c.notNull && !c.unique && !c.auto && c.name !in t.primaryKey
  }

  function ForColumn(prior: map<string, Column>, t: Table, c: Column): Generated
  {
    if c.name in prior then
      if prior[c.name] != c then Refused(ChangesColumn) else NOTHING
    else if !Unconstrained(t, c) then Refused(ConstrainedColumn)
    else Ok(Migration([AddColumn(t.name, c.name, c.typ)], [DropColumn(t.name, c.name)]))
  }

  function ForColumns(prior: map<string, Column>, t: Table, columns: seq<Column>): Generated
    decreases |columns|
  {
    if columns == [] then NOTHING
    else Then(ForColumn(prior, t, columns[0]), ForColumns(prior, t, columns[1..]))
  }

  function ForTable(dialect: Dialect, prior: map<string, Table>, t: Table): Generated
  {
    if t.name !in prior then
      if t.columns == [] then Refused(EmptyTable)
      else Ok(Migration([Creation(dialect, t)], [DropTable(t.name)]))
    else if prior[t.name].primaryKey != t.primaryKey then Refused(ChangesPrimaryKey)
    else
      var oldColumns := ColumnsByName(prior[t.name].columns);
      if oldColumns.Keys <= ColumnsByName(t.columns).Keys then ForColumns(oldColumns, t, t.columns)
      else Refused(DropsColumn)
  }

  function ForTables(dialect: Dialect, prior: map<string, Table>, tables: seq<Table>): Generated
    decreases |tables|
  {
    if tables == [] then NOTHING
    else Then(ForTable(dialect, prior, tables[0]), ForTables(dialect, prior, tables[1..]))
  }

  /** An empty schema stands for the absence of one. */
  function Start(previous: Schema, current: Schema): Schema
  {
    if previous == Schema(0, "", []) then Schema(SCHEMA_VERSION, current.dialect, []) else previous
  }

  function Generate(previous: Schema, current: Schema): Generated
  {
    var start := Start(previous, current);
    if !Valid(current) then Refused(InvalidCurrent)
    else if !Valid(start) then Refused(InvalidPrevious)
    else if start.dialect != current.dialect then Refused(DialectChanged)
    else
      var prior := TablesByName(start.tables);
      if prior.Keys <= TablesByName(current.tables).Keys then
        ForTables(ParseDialect(current.dialect).value, prior, current.tables)
      else Refused(DropsTable)
  }

  // ----------------------------------------------------------- looking up by name

  lemma {:induction false} TablesFound(tables: seq<Table>, name: string)
    ensures name in TablesByName(tables) <==> name in TableNames(tables)
    ensures name in TablesByName(tables) ==> TablesByName(tables)[name] in tables && TablesByName(tables)[name].name == name
    decreases |tables|
  {
    if tables != [] {
      var last := |tables| - 1;
      TablesFound(tables[..last], name);
      assert TableNames(tables)[last] == tables[last].name;
      assert name in TableNames(tables[..last]) ==> name in TableNames(tables) by {
        assert TableNames(tables[..last]) == TableNames(tables)[..last];
      }
    }
  }

  lemma {:induction false} ColumnsFound(columns: seq<Column>, name: string)
    ensures name in ColumnsByName(columns) <==> name in Names(columns)
    ensures name in ColumnsByName(columns) ==> ColumnsByName(columns)[name] in columns && ColumnsByName(columns)[name].name == name
    decreases |columns|
  {
    if columns != [] {
      var last := |columns| - 1;
      ColumnsFound(columns[..last], name);
      assert Names(columns)[last] == columns[last].name;
      assert name in Names(columns[..last]) ==> name in Names(columns) by {
        assert Names(columns[..last]) == Names(columns)[..last];
      }
    }
  }

  lemma AppearsOnce(names: seq<string>, i: int, j: int)
    requires Distinct(names) && 0 <= i < |names| && 0 <= j < |names| && names[i] == names[j]
    ensures i == j
  {
  }

  lemma TableAt(tables: seq<Table>, i: int)
    requires 0 <= i < |tables| && Distinct(TableNames(tables))
    ensures tables[i].name in TablesByName(tables) && TablesByName(tables)[tables[i].name] == tables[i]
  {
    assert TableNames(tables)[i] == tables[i].name;
    TablesFound(tables, tables[i].name);
    var found := TablesByName(tables)[tables[i].name];
    var j :| 0 <= j < |tables| && tables[j] == found;
    AppearsOnce(TableNames(tables), i, j);
  }

  lemma ColumnAt(columns: seq<Column>, i: int)
    requires 0 <= i < |columns| && Distinct(Names(columns))
    ensures columns[i].name in ColumnsByName(columns) && ColumnsByName(columns)[columns[i].name] == columns[i]
  {
    assert Names(columns)[i] == columns[i].name;
    ColumnsFound(columns, columns[i].name);
    var found := ColumnsByName(columns)[columns[i].name];
    var j :| 0 <= j < |columns| && columns[j] == found;
    AppearsOnce(Names(columns), i, j);
  }

  // --------------------------------------------------------- exactly what is accepted

  /** The new columns of a table that exists already are nullable and unconstrained; the old ones are all there, unchanged. */
  ghost predicate ExtendsTable(prior: Table, t: Table)
  {
    && prior.primaryKey == t.primaryKey
    && (forall c :: c in prior.columns ==> c in t.columns)
    && (forall c :: c in t.columns ==> c in prior.columns || (c.name !in Names(prior.columns) && Unconstrained(t, c)))
  }

  lemma {:induction false} ForColumnsAccepts(prior: map<string, Column>, t: Table, columns: seq<Column>)
    ensures ForColumns(prior, t, columns).Ok?
            <==> forall c :: c in columns ==> if c.name in prior then prior[c.name] == c else Unconstrained(t, c)
    decreases |columns|
  {
    if columns != [] {
      ForColumnsAccepts(prior, t, columns[1..]);
      assert forall c :: c in columns <==> c == columns[0] || c in columns[1..];
    }
  }

  lemma {:induction false} ForTablesAccepts(dialect: Dialect, prior: map<string, Table>, tables: seq<Table>)
    ensures ForTables(dialect, prior, tables).Ok? <==> forall t :: t in tables ==> ForTable(dialect, prior, t).Ok?
    decreases |tables|
  {
    if tables != [] {
      ForTablesAccepts(dialect, prior, tables[1..]);
      assert forall t :: t in tables <==> t == tables[0] || t in tables[1..];
    }
  }

  lemma ColumnKnown(columns: seq<Column>, c: Column)
    requires c in columns && Distinct(Names(columns))
    ensures c.name in ColumnsByName(columns) && ColumnsByName(columns)[c.name] == c
  {
    var i :| 0 <= i < |columns| && columns[i] == c;
    ColumnAt(columns, i);
  }

  lemma TableKnown(tables: seq<Table>, t: Table)
    requires t in tables && Distinct(TableNames(tables))
    ensures t.name in TablesByName(tables) && TablesByName(tables)[t.name] == t
  {
    var i :| 0 <= i < |tables| && tables[i] == t;
    TableAt(tables, i);
  }

  ghost predicate ColumnsFit(prior: map<string, Column>, t: Table)
  {
    forall c :: c in t.columns ==> if c.name in prior then prior[c.name] == c else Unconstrained(t, c)
  }

  lemma FitsExtends(prior: Table, t: Table)
    requires Distinct(Names(prior.columns)) && Distinct(Names(t.columns)) && prior.primaryKey == t.primaryKey
    requires ColumnsByName(prior.columns).Keys <= ColumnsByName(t.columns).Keys && ColumnsFit(ColumnsByName(prior.columns), t)
    ensures ExtendsTable(prior, t)
  {
    forall c | c in prior.columns
      ensures c in t.columns
    {
      ColumnKnown(prior.columns, c);
      ColumnsFound(t.columns, c.name);
    }
    forall c | c in t.columns
      ensures c in prior.columns || (c.name !in Names(prior.columns) && Unconstrained(t, c))
    {
      ColumnsFound(prior.columns, c.name);
    }
  }

  lemma ExtendsFits(prior: Table, t: Table)
    requires Distinct(Names(prior.columns)) && Distinct(Names(t.columns)) && ExtendsTable(prior, t)
    ensures ColumnsByName(prior.columns).Keys <= ColumnsByName(t.columns).Keys && ColumnsFit(ColumnsByName(prior.columns), t)
  {
    forall name | name in ColumnsByName(prior.columns)
      ensures name in ColumnsByName(t.columns)
    {
      ColumnsFound(prior.columns, name);
      ColumnKnown(t.columns, ColumnsByName(prior.columns)[name]);
    }
    forall c | c in t.columns
      ensures if c.name in ColumnsByName(prior.columns) then ColumnsByName(prior.columns)[c.name] == c else Unconstrained(t, c)
    {
      ColumnsFound(prior.columns, c.name);
      if c in prior.columns {
        ColumnKnown(prior.columns, c);
      }
    }
  }

  predicate DistinctColumns(tables: seq<Table>)
  {
    forall t :: t in tables ==> Distinct(Names(t.columns))
  }

  /** Whether this table of the new schema is an acceptable successor of what was there. */
  ghost predicate Follows(previous: seq<Table>, t: Table)
  {
    if t.name in TableNames(previous) then exists prior :: prior in previous && prior.name == t.name && ExtendsTable(prior, t)
    else t.columns != []
  }

  lemma ForTableAccepts(dialect: Dialect, previous: seq<Table>, t: Table)
    requires Distinct(TableNames(previous)) && DistinctColumns(previous) && Distinct(Names(t.columns))
    ensures ForTable(dialect, TablesByName(previous), t).Ok? <==> Follows(previous, t)
  {
    TablesFound(previous, t.name);
    if t.name in TableNames(previous) {
      var prior := TablesByName(previous)[t.name];
      ForColumnsAccepts(ColumnsByName(prior.columns), t, t.columns);
      if ForTable(dialect, TablesByName(previous), t).Ok? {
        FitsExtends(prior, t);
      }
      if Follows(previous, t) {
        var p :| p in previous && p.name == t.name && ExtendsTable(p, t);
        TableKnown(previous, p);
        ExtendsFits(prior, t);
      }
    }
  }

  /** No table of the previous schema is missing, and every table is an acceptable successor. */
  ghost predicate Extends(previous: seq<Table>, current: seq<Table>)
  {
    && (forall prior :: prior in previous ==> prior.name in TableNames(current))
    && (forall t :: t in current ==> Follows(previous, t))
  }

  /** A migration is generated exactly for the purely additive changes between two valid schemas of one dialect. */
  lemma GenerateAccepts(previous: Schema, current: Schema)
    ensures var start := Start(previous, current);
            Generate(previous, current).Ok?
            <==> Valid(current) && Valid(start) && start.dialect == current.dialect && Extends(start.tables, current.tables)
  {
    var start := Start(previous, current);
    if Valid(current) && Valid(start) && start.dialect == current.dialect {
      TablesAccepted(ParseDialect(current.dialect).value, current.dialect, start.tables, current.tables);
    }
  }

  lemma TablesAccepted(dialect: Dialect, name: string, previous: seq<Table>, current: seq<Table>)
    requires ValidTables(name, previous) && ValidTables(name, current)
    ensures (TablesByName(previous).Keys <= TablesByName(current).Keys
             && ForTables(dialect, TablesByName(previous), current).Ok?)
            <==> Extends(previous, current)
  {
    ForTablesAccepts(dialect, TablesByName(previous), current);
    NamesKept(previous, current);
    forall t | t in current
      ensures ForTable(dialect, TablesByName(previous), t).Ok? <==> Follows(previous, t)
    {
      ForTableAccepts(dialect, previous, t);
    }
  }

  lemma NamesKept(previous: seq<Table>, current: seq<Table>)
    requires Distinct(TableNames(previous))
    ensures TablesByName(previous).Keys <= TablesByName(current).Keys
            <==> forall prior :: prior in previous ==> prior.name in TableNames(current)
  {
    forall prior | prior in previous
      ensures prior.name in TablesByName(previous) && (prior.name in TablesByName(current) <==> prior.name in TableNames(current))
    {
      TableKnown(previous, prior);
      TablesFound(current, prior.name);
    }
    forall name | name in TablesByName(previous)
      ensures exists prior :: prior in previous && prior.name == name
    {
      TablesFound(previous, name);
    }
  }

  // ------------------------------------------------------ exactly when there is nothing to do

  /** The two lists describe the same tables: the order of tables and of columns aside. */
  ghost predicate Agree(previous: seq<Table>, current: seq<Table>)
  {
    && (forall prior :: prior in previous ==> prior.name in TableNames(current))
    && (forall t :: t in current ==> exists prior :: prior in previous && prior.name == t.name && AgreeTable(prior, t))
  }

  ghost predicate AgreeTable(prior: Table, t: Table)
  {
    prior.primaryKey == t.primaryKey && forall c :: c in prior.columns <==> c in t.columns
  }

  lemma {:induction false} NoColumnsAdded(prior: map<string, Column>, t: Table, columns: seq<Column>)
    requires ForColumns(prior, t, columns).Ok?
    ensures ForColumns(prior, t, columns).migration.up == [] <==> forall c :: c in columns ==> c.name in prior
    decreases |columns|
  {
    if columns != [] {
      NoColumnsAdded(prior, t, columns[1..]);
      assert forall c :: c in columns <==> c == columns[0] || c in columns[1..];
    }
  }

  lemma {:induction false} NoTablesChanged(dialect: Dialect, prior: map<string, Table>, tables: seq<Table>)
    requires ForTables(dialect, prior, tables).Ok?
    ensures ForTables(dialect, prior, tables).migration.up == []
            <==> forall t :: t in tables ==> ForTable(dialect, prior, t).Ok? && ForTable(dialect, prior, t).migration.up == []
    decreases |tables|
  {
    if tables != [] {
      NoTablesChanged(dialect, prior, tables[1..]);
      assert forall t :: t in tables <==> t == tables[0] || t in tables[1..];
    }
  }

  lemma UnchangedColumnsAgree(prior: Table, t: Table)
    requires Distinct(Names(prior.columns)) && Distinct(Names(t.columns)) && prior.primaryKey == t.primaryKey
    requires ColumnsByName(prior.columns).Keys <= ColumnsByName(t.columns).Keys
    requires ForColumns(ColumnsByName(prior.columns), t, t.columns).Ok?
    ensures ForColumns(ColumnsByName(prior.columns), t, t.columns).migration.up == [] <==> AgreeTable(prior, t)
  {
    NoColumnsAdded(ColumnsByName(prior.columns), t, t.columns);
    ForColumnsAccepts(ColumnsByName(prior.columns), t, t.columns);
    FitsExtends(prior, t);
    forall c | c in t.columns
      ensures c.name in ColumnsByName(prior.columns) <==> c in prior.columns
    {
      ColumnsFound(prior.columns, c.name);
      if c in prior.columns {
        ColumnKnown(prior.columns, c);
      }
    }
  }

  lemma UnchangedTableAgrees(dialect: Dialect, previous: seq<Table>, t: Table)
    requires Distinct(TableNames(previous)) && DistinctColumns(previous) && Distinct(Names(t.columns))
    requires ForTable(dialect, TablesByName(previous), t).Ok?
    ensures ForTable(dialect, TablesByName(previous), t).migration.up == []
            <==> exists prior :: prior in previous && prior.name == t.name && AgreeTable(prior, t)
  {
    TablesFound(previous, t.name);
    if t.name in TableNames(previous) {
      UnchangedColumnsAgree(TablesByName(previous)[t.name], t);
    }
    forall p | p in previous && p.name == t.name
      ensures t.name in TableNames(previous) && p == TablesByName(previous)[t.name]
    {
      TableKnown(previous, p);
    }
  }

  /** The generated migration is empty exactly when the two schemas describe the same tables. */
  lemma NothingToDo(previous: Schema, current: Schema)
    requires Generate(previous, current).Ok?
    ensures Generate(previous, current).migration.up == [] <==> Agree(Start(previous, current).tables, current.tables)
  {
    var start := Start(previous, current);
    TablesAgree(ParseDialect(current.dialect).value, current.dialect, start.tables, current.tables);
  }

  lemma TablesAgree(dialect: Dialect, name: string, previous: seq<Table>, current: seq<Table>)
    requires ValidTables(name, previous) && ValidTables(name, current)
    requires TablesByName(previous).Keys <= TablesByName(current).Keys
    requires ForTables(dialect, TablesByName(previous), current).Ok?
    ensures ForTables(dialect, TablesByName(previous), current).migration.up == [] <==> Agree(previous, current)
  {
    NoTablesChanged(dialect, TablesByName(previous), current);
    ForTablesAccepts(dialect, TablesByName(previous), current);
    NamesKept(previous, current);
    forall t | t in current
      ensures ForTable(dialect, TablesByName(previous), t).migration.up == []
              <==> exists prior :: prior in previous && prior.name == t.name && AgreeTable(prior, t)
    {
      UnchangedTableAgrees(dialect, previous, t);
    }
  }
}
