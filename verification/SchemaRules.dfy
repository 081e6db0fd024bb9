/**
 Which schemas are valid, as validateSchema (core/orm/schema.go) and quoteIdentifier
 (core/orm/dialect.go) spell it out.
 */
module SchemaRules {
  import opened Splitting
  import opened Schemas

  /** A letter of the ASCII alphabet or an underscore, by its code. */
  predicate Leading(c: char)
  {
    var code := c as int;
    code == 95 || 97 <= code <= 122 || 65 <= code <= 90
  }

  predicate Following(c: char)
  {
    Leading(c) || 48 <= c as int <= 57
  }

  /** validIdentifier */
  predicate Identifier(part: string)
  {
    part != "" && Leading(part[0]) && forall i :: 1 <= i < |part| ==> Following(part[i])
  }

  /** quoteIdentifier takes names with dots too, whose parts are identifiers. */
  predicate Quotable(name: string)
  {
    name != "" && forall i :: 0 <= i < |Split(name, '.')| ==> Identifier(Split(name, '.')[i])
  }

  lemma IdentifierIsName(name: string)
    ensures Identifier(name) <==> ValidName(name)
  {
    if ValidName(name) {
      assert Leading(name[0]);
    }
  }

  /** A name is valid exactly if it can be quoted and has no dot. */
  lemma NameRules(name: string)
    ensures ValidName(name) <==> Quotable(name) && '.' !in name
  {
    IdentifierIsName(name);
    if '.' !in name {
      assert Join([name], '.') == name;
      SplitJoin([name], '.');
      assert Split(name, '.') == [name];
    } else {
      var i :| 0 <= i < |name| && name[i] == '.';
      assert !Following('.');
    }
  }

  predicate TypeText(typ: string)
  {
    |typ| > 0 && forall i :: 0 <= i < |typ| ==> typ[i] as int != 59 && typ[i] as int != 0
  }

  lemma TypeRules(typ: string)
    ensures ValidType(typ) <==> TypeText(typ)
  {
  }

  predicate NoRepeats(names: seq<string>)
  {
    forall i, j :: 0 <= i < |names| && 0 <= j < |names| && names[i] == names[j] ==> i == j
  }

  /** What a column must be, and what an auto column must be besides. */
  predicate ColumnTaken(dialect: string, t: Table, c: Column)
  {
    && Quotable(c.name) && '.' !in c.name && TypeText(c.typ)
    && (c.auto ==>
          && |t.primaryKey| == 1 && t.primaryKey[0] == c.name
          && ((dialect == "sqlite" && c.typ == "INTEGER") || (dialect == "postgres" && c.typ == "BIGSERIAL")))
  }

  predicate TableTaken(dialect: string, t: Table)
  {
    && Quotable(t.name) && '.' !in t.name && t.name != "_godo_migrations" && t.name != "_godo_migration_lock"
    && (forall i :: 0 <= i < |t.columns| ==> ColumnTaken(dialect, t, t.columns[i]))
    && NoRepeats(Names(t.columns)) && NoRepeats(t.primaryKey)
    && forall i :: 0 <= i < |t.primaryKey| ==> t.primaryKey[i] in Names(t.columns)
  }

  lemma ColumnRules(dialect: string, t: Table, c: Column)
    ensures ValidColumn(c) && ValidAuto(dialect, t, c) <==> ColumnTaken(dialect, t, c)
  {
    NameRules(c.name);
    TypeRules(c.typ);
    assert t.primaryKey == [c.name] <==> |t.primaryKey| == 1 && t.primaryKey[0] == c.name;
  }

  lemma RepeatRules(names: seq<string>)
    ensures Distinct(names) <==> NoRepeats(names)
  {
  }

  lemma TableRules(dialect: string, t: Table)
    ensures ValidTable(dialect, t) <==> TableTaken(dialect, t)
  {
    NameRules(t.name);
    RepeatRules(Names(t.columns));
    RepeatRules(t.primaryKey);
    forall i | 0 <= i < |t.columns|
      ensures ValidColumn(t.columns[i]) && ValidAuto(dialect, t, t.columns[i]) <==> ColumnTaken(dialect, t, t.columns[i])
    {
      ColumnRules(dialect, t, t.columns[i]);
    }
  }

  /** A schema is valid exactly if it is of version 1, for a known dialect, and takes every table, each name once. */
  lemma SchemaRulesHold(schema: Schema)
    ensures Valid(schema) <==>
              && schema.version == 1 && ParseDialect(schema.dialect).Some? && NoRepeats(TableNames(schema.tables))
              && forall i :: 0 <= i < |schema.tables| ==> TableTaken(schema.dialect, schema.tables[i])
  {
    RepeatRules(TableNames(schema.tables));
    forall i | 0 <= i < |schema.tables|
      ensures ValidTable(schema.dialect, schema.tables[i]) <==> TableTaken(schema.dialect, schema.tables[i])
    {
      TableRules(schema.dialect, schema.tables[i]);
    }
  }

  /** The four names of the dialects, which may be written in any case. */
  lemma DialectRules(name: string)
    ensures ParseDialect(name) == Some(SQLite) <==> LowerAll(name) == "sqlite" || LowerAll(name) == "sqlite3"
    ensures ParseDialect(name) == Some(PostgreSQL) <==> LowerAll(name) == "postgres" || LowerAll(name) == "postgresql"
    ensures forall i :: 0 <= i < |name| ==>
              LowerAll(name)[i] == if 65 <= name[i] as int <= 90 then (name[i] as int + 32) as char
                                   else if name[i] as int == 304 then 'i' else name[i]
  {
  }
}
