/**
 validateSchema and GenerateMigration (core/orm/schema.go) as the loops they are, proved
 against the functions of Schemas.
 */
module SchemaGenerator {
  import opened Schemas

  method ValidateColumns(columns: seq<Column>) returns (ok: bool, seen: set<string>)
    ensures ok <==> (forall i :: 0 <= i < |columns| ==> ValidColumn(columns[i])) && Distinct(Names(columns))
    ensures ok ==> forall name :: name in seen <==> name in Names(columns)
  {
    seen := {};
    for i := 0 to |columns|
      invariant forall j :: 0 <= j < i ==> ValidColumn(columns[j])
      invariant Distinct(Names(columns)[..i])
      invariant forall name :: name in seen <==> name in Names(columns)[..i]
    {
      var column := columns[i];
      assert Names(columns)[i] == column.name;
      if !ValidColumn(column) {
        return false, seen;
      }
      if column.name in seen {
        var j :| 0 <= j < i && Names(columns)[j] == column.name;
        return false, seen;
      }
      seen := seen + {column.name};
      assert Names(columns)[..i + 1] == Names(columns)[..i] + [column.name];
    }
    assert Names(columns)[..|columns|] == Names(columns);
    ok := true;
  }

  method ValidatePrimaryKey(primaryKey: seq<string>, columns: set<string>) returns (ok: bool)
    ensures ok <==> (forall i :: 0 <= i < |primaryKey| ==> primaryKey[i] in columns) && Distinct(primaryKey)
  {
    var seen: set<string> := {};
    for i := 0 to |primaryKey|
      invariant forall j :: 0 <= j < i ==> primaryKey[j] in columns
      invariant Distinct(primaryKey[..i])
      invariant forall name :: name in seen <==> name in primaryKey[..i]
    {
      var name := primaryKey[i];
      if name !in columns {
        return false;
      }
      if name in seen {
        var j :| 0 <= j < i && primaryKey[j] == name;
        return false;
      }
      seen := seen + {name};
      assert primaryKey[..i + 1] == primaryKey[..i] + [name];
    }
    assert primaryKey[..|primaryKey|] == primaryKey;
    ok := true;
  }

  method ValidateTable(dialect: string, t: Table) returns (ok: bool)
    ensures ok <==> ValidTable(dialect, t)
  {
    if !ValidName(t.name) || Reserved(t.name) {
      return false;
    }
    var fine, seen := ValidateColumns(t.columns);
    if !fine {
      return false;
    }
    fine := ValidatePrimaryKey(t.primaryKey, seen);
    if !fine {
      return false;
    }
    for i := 0 to |t.columns|
      invariant forall j :: 0 <= j < i ==> ValidAuto(dialect, t, t.columns[j])
    {
      var column := t.columns[i];
      if column.auto {
        if |t.primaryKey| != 1 || t.primaryKey[0] != column.name {
          return false;
        }
        if !AutoType(dialect, column.typ) {
          return false;
        }
      }
    }
    ok := true;
  }

  method ValidateSchema(schema: Schema) returns (ok: bool)
    ensures ok <==> Valid(schema)
  {
    if schema.version != SCHEMA_VERSION || ParseDialect(schema.dialect).None? {
      return false;
    }
    var seen: set<string> := {};
    for i := 0 to |schema.tables|
      invariant forall j :: 0 <= j < i ==> ValidTable(schema.dialect, schema.tables[j])
      invariant Distinct(TableNames(schema.tables)[..i])
      invariant forall name :: name in seen <==> name in TableNames(schema.tables)[..i]
    {
      var table := schema.tables[i];
      assert TableNames(schema.tables)[i] == table.name;
      if table.name in seen {
        var j :| 0 <= j < i && TableNames(schema.tables)[j] == table.name;
        return false;
      }
      seen := seen + {table.name};
      var fine := ValidateTable(schema.dialect, table);
      if !fine {
        return false;
      }
      assert TableNames(schema.tables)[..i + 1] == TableNames(schema.tables)[..i] + [table.name];
    }
    assert TableNames(schema.tables)[..|schema.tables|] == TableNames(schema.tables);
    ok := true;
  }

  method IndexTables(tables: seq<Table>) returns (byName: map<string, Table>)
    ensures byName == TablesByName(tables)
  {
    byName := map[];
    for i := 0 to |tables|
      invariant byName == TablesByName(tables[..i])
    {
      byName := byName[tables[i].name := tables[i]];
      assert tables[..i + 1][..i] == tables[..i];
    }
    assert tables[..|tables|] == tables;
  }

  method IndexColumns(columns: seq<Column>) returns (byName: map<string, Column>)
    ensures byName == ColumnsByName(columns)
  {
    byName := map[];
    for i := 0 to |columns|
      invariant byName == ColumnsByName(columns[..i])
    {
      byName := byName[columns[i].name := columns[i]];
      assert columns[..i + 1][..i] == columns[..i];
    }
    assert columns[..|columns|] == columns;
  }

  /** Whether every old name is still there; a map's names come in no particular order. */
  method AllKept(names: set<string>, kept: set<string>) returns (ok: bool)
    ensures ok <==> names <= kept
  {
    var left := names;
    while left != {}
      invariant left <= names && names - left <= kept
      decreases |left|
    {
      var name :| name in left;
      if name !in kept {
        return false;
      }
      left := left - {name};
    }
    ok := true;
  }

  method CreateTableStatement(dialect: Dialect, t: Table) returns (statement: Option<Statement>)
    ensures statement == if t.columns == [] then None else Some(Creation(dialect, t))
  {
    var singlePrimary := |t.primaryKey| == 1;
    var definitions: seq<Definition> := [];
    for i := 0 to |t.columns|
      invariant definitions == Definitions(dialect, t.primaryKey, t.columns)[..i]
    {
      var c := t.columns[i];
      var sole := singlePrimary && t.primaryKey[0] == c.name;
      var definition := Definition(c.name, c.typ, false, false, false, false);
      if sole {
        definition := definition.(primary := true);
        if dialect == SQLite && c.auto {
          definition := definition.(autoincrement := true);
        }
      }
      if c.notNull && !(sole && c.auto) {
        definition := definition.(notNull := true);
      }
      if c.unique {
        definition := definition.(unique := true);
      }
      assert sole <==> t.primaryKey == [c.name];
      definitions := definitions + [definition];
    }
    assert definitions == Definitions(dialect, t.primaryKey, t.columns);
    if definitions == [] {
      return None;
    }
    statement := Some(CreateTable(t.name, definitions, if |t.primaryKey| > 1 then t.primaryKey else []));
  }

  /** The statements so far followed by what remains to be generated. */
  function Onward(up: seq<Statement>, down: seq<Statement>, rest: Generated): Generated
  {
    Then(Ok(Migration(up, down)), rest)
  }

  lemma OnwardThen(up: seq<Statement>, down: seq<Statement>, first: Generated, rest: Generated)
    ensures first.Refused? ==> Onward(up, down, Then(first, rest)) == first
    ensures first.Ok? ==> Onward(up, down, Then(first, rest)) == Onward(up + first.migration.up, first.migration.down + down, rest)
  {
    if first.Ok? && rest.Ok? {
      assert up + (first.migration.up + rest.migration.up) == up + first.migration.up + rest.migration.up;
      assert (rest.migration.down + first.migration.down) + down == rest.migration.down + (first.migration.down + down);
    }
  }

  lemma OnwardNothing(up: seq<Statement>, down: seq<Statement>)
    ensures Onward(up, down, NOTHING) == Ok(Migration(up, down))
  {
  }

  method ExtendTable(prior: map<string, Column>, t: Table, up0: seq<Statement>, down0: seq<Statement>)
    returns (result: Generated)
    ensures result == Onward(up0, down0, ForColumns(prior, t, t.columns))
  {
    var up, down := up0, down0;
    var i := 0;
    assert t.columns[0..] == t.columns;
    while i < |t.columns|
      invariant 0 <= i <= |t.columns|
      invariant Onward(up0, down0, ForColumns(prior, t, t.columns)) == Onward(up, down, ForColumns(prior, t, t.columns[i..]))
    {
      var c := t.columns[i];
      assert t.columns[i..][0] == c && t.columns[i..][1..] == t.columns[i + 1..];
      OnwardThen(up, down, ForColumn(prior, t, c), ForColumns(prior, t, t.columns[i + 1..]));
      if c.name in prior {
        if prior[c.name] != c {
          return Refused(ChangesColumn);
        }
        assert up + [] == up && [] + down == down;
      } else {
        if c.notNull || c.unique || c.auto || c.name in t.primaryKey {
          return Refused(ConstrainedColumn);
        }
        up := up + [AddColumn(t.name, c.name, c.typ)];
        down := [DropColumn(t.name, c.name)] + down;
      }
      i := i + 1;
    }
    assert t.columns[i..] == [];
    OnwardNothing(up, down);
    result := Ok(Migration(up, down));
  }

  method MigrateTable(dialect: Dialect, prior: map<string, Table>, t: Table, up: seq<Statement>, down: seq<Statement>)
    returns (result: Generated)
    ensures result == Onward(up, down, ForTable(dialect, prior, t))
  {
    if t.name !in prior {
      var statement := CreateTableStatement(dialect, t);
      if statement.None? {
        return Refused(EmptyTable);
      }
      return Ok(Migration(up + [statement.value], [DropTable(t.name)] + down));
    }
    if prior[t.name].primaryKey != t.primaryKey {
      return Refused(ChangesPrimaryKey);
    }
    var priorColumns := IndexColumns(prior[t.name].columns);
    var columns := IndexColumns(t.columns);
    var kept := AllKept(priorColumns.Keys, columns.Keys);
    if !kept {
      return Refused(DropsColumn);
    }
    result := ExtendTable(priorColumns, t, up, down);
  }

  method GenerateMigration(previous: Schema, current: Schema) returns (result: Generated)
    ensures result == Generate(previous, current)
  {
    var ok := ValidateSchema(current);
    if !ok {
      return Refused(InvalidCurrent);
    }
    var start := previous;
    if previous.version == 0 && previous.dialect == "" && |previous.tables| == 0 {
      start := Schema(SCHEMA_VERSION, current.dialect, []);
    }
    assert start == Start(previous, current);
    ok := ValidateSchema(start);
    if !ok {
      return Refused(InvalidPrevious);
    }
    if start.dialect != current.dialect {
      return Refused(DialectChanged);
    }
    var prior := IndexTables(start.tables);
    var tables := IndexTables(current.tables);
    var kept := AllKept(prior.Keys, tables.Keys);
    if !kept {
      return Refused(DropsTable);
    }
    result := MigrateTables(ParseDialect(current.dialect).value, prior, current.tables);
  }

  method MigrateTables(dialect: Dialect, prior: map<string, Table>, tables: seq<Table>) returns (result: Generated)
    ensures result == ForTables(dialect, prior, tables)
  {
    var up: seq<Statement>, down: seq<Statement> := [], [];
    var i := 0;
    assert tables[0..] == tables;
    OnwardStart(ForTables(dialect, prior, tables));
    while i < |tables|
      invariant 0 <= i <= |tables|
      invariant ForTables(dialect, prior, tables) == Onward(up, down, ForTables(dialect, prior, tables[i..]))
    {
      assert tables[i..][0] == tables[i] && tables[i..][1..] == tables[i + 1..];
      OnwardThen(up, down, ForTable(dialect, prior, tables[i]), ForTables(dialect, prior, tables[i + 1..]));
      var step := MigrateTable(dialect, prior, tables[i], up, down);
      if step.Refused? {
        return step;
      }
      up, down := step.migration.up, step.migration.down;
      i := i + 1;
    }
    assert tables[i..] == [];
    OnwardNothing(up, down);
    result := Ok(Migration(up, down));
  }

  lemma OnwardStart(rest: Generated)
    ensures Onward([], [], rest) == rest
  {
    if rest.Ok? {
      assert [] + rest.migration.up == rest.migration.up && rest.migration.down + [] == rest.migration.down;
    }
  }
}
