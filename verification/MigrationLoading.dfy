/**
 Loading the migrations directory (core/orm/dbtool/migrations.go). How file names are read
 is a parameter; MigrationFiles has the names the tool uses.
 */
module MigrationLoading {
  import opened Migrations
  import opened Sets

  datatype Parsed = Parsed(version: int, name: string, up: bool)

  /** What a file name says, and whether it looks like a migration's at all. */
  datatype Names = Names(parse: string -> Option<Parsed>, looks: string -> bool)

  ghost predicate Positive(names: Names)
  {
    forall filename :: names.parse(filename).Some? ==> names.parse(filename).value.version > 0
  }

  /** A directory entry; `content` is what reading the file gives. */
  datatype Entry<Script> = Entry(filename: string, directory: bool, content: Script)

  /** A migration some of whose files have been read. */
  datatype Slot<Script> = Slot(name: string, up: Option<Script>, down: Option<Script>)

  function Side<Script>(slot: Slot<Script>, up: bool): Option<Script>
  {
    if up then slot.up else slot.down
  }

  /** A file that looks like a migration but is not named like one. */
  predicate Misnamed<Script>(entry: Entry<Script>, names: Names)
  {
    && !entry.directory && names.parse(entry.filename).None?
    && names.looks(entry.filename)
  }

  predicate IsMigration<Script>(entry: Entry<Script>, names: Names)
  {
    !entry.directory && names.parse(entry.filename).Some?
  }

  /** One of the two scripts of a migration. */
  predicate IsFile<Script>(entry: Entry<Script>, names: Names, version: int, up: bool)
  {
    && IsMigration(entry, names)
    && names.parse(entry.filename).value.version == version && names.parse(entry.filename).value.up == up
  }

  /** Two entries that cannot both be there. */
  predicate Conflict<Script>(a: Entry<Script>, b: Entry<Script>, names: Names)
  {
    && IsMigration(a, names) && IsMigration(b, names)
    && var x, y := names.parse(a.filename).value, names.parse(b.filename).value;
       x.version == y.version && (x.name != y.name || x.up == y.up)
  }

  ghost predicate Consistent<Script>(entries: seq<Entry<Script>>, names: Names)
  {
    && (forall i :: 0 <= i < |entries| ==> !Misnamed(entries[i], names))
    && (forall i, j {:trigger entries[i], entries[j]} :: 0 <= i < j < |entries| ==> !Conflict(entries[i], entries[j], names))
  }

  ghost predicate Has<Script>(entries: seq<Entry<Script>>, names: Names, version: int, up: bool)
  {
    exists i :: 0 <= i < |entries| && IsFile(entries[i], names, version, up)
  }

  /** The directory loads: no bad names, no conflicts, and every migration has both files. */
  ghost predicate Loadable<Script>(entries: seq<Entry<Script>>, names: Names)
  {
    && Consistent(entries, names)
    && forall version, up :: Has(entries, names, version, up) ==> Has(entries, names, version, !up)
  }

  /** A slot holds what the entries say about its version. */
  ghost predicate SlotHolds<Script>(entries: seq<Entry<Script>>, names: Names, version: int, slot: Slot<Script>, up: bool)
  {
    && (Side(slot, up).Some? <==> Has(entries, names, version, up))
    && forall i :: 0 <= i < |entries| && IsFile(entries[i], names, version, up) ==>
         Side(slot, up) == Some(entries[i].content) && slot.name == names.parse(entries[i].filename).value.name
  }

  /** The slots of the entries read so far. */
  ghost predicate Slotted<Script>(entries: seq<Entry<Script>>, names: Names, slots: map<int, Slot<Script>>)
  {
    && (forall version :: version in slots <==> Has(entries, names, version, true) || Has(entries, names, version, false))
    && (forall version, up {:trigger SlotHolds(entries, names, version, slots[version], up)} ::
          version in slots ==> SlotHolds(entries, names, version, slots[version], up))
  }

  function Filled<Script>(slot: Slot<Script>, up: bool, content: Script): Slot<Script>
  {
    if up then slot.(up := Some(content)) else slot.(down := Some(content))
  }

  lemma HasNext<Script>(entries: seq<Entry<Script>>, next: Entry<Script>, names: Names, version: int, up: bool)
    ensures Has(entries + [next], names, version, up) <==> Has(entries, names, version, up) || IsFile(next, names, version, up)
  {
    var more := entries + [next];
    assert more[|entries|] == next;
    if Has(entries, names, version, up) {
      var i :| 0 <= i < |entries| && IsFile(entries[i], names, version, up);
      assert more[i] == entries[i];
    }
  }

  lemma SkippedSlots<Script>(entries: seq<Entry<Script>>, next: Entry<Script>, names: Names, slots: map<int, Slot<Script>>)
    requires Slotted(entries, names, slots) && !IsMigration(next, names)
    ensures Slotted(entries + [next], names, slots)
  {
    forall version, up
      ensures Has(entries + [next], names, version, up) <==> Has(entries, names, version, up)
    {
      HasNext(entries, next, names, version, up);
    }
    forall version, up | version in slots
      ensures SlotHolds(entries + [next], names, version, slots[version], up)
    {
      assert SlotHolds(entries, names, version, slots[version], up);
    }
  }

  lemma FilledSlots<Script>(entries: seq<Entry<Script>>, next: Entry<Script>, names: Names, slots: map<int, Slot<Script>>,
                            slot: Slot<Script>)
    requires Slotted(entries, names, slots) && IsMigration(next, names)
    requires var p := names.parse(next.filename).value;
             && slot.name == p.name && Side(slot, p.up).None?
             && slot == if p.version in slots then slots[p.version] else Slot(p.name, None, None)
    ensures var p := names.parse(next.filename).value;
            Slotted(entries + [next], names, slots[p.version := Filled(slot, p.up, next.content)])
  {
    var p := names.parse(next.filename).value;
    var slots' := slots[p.version := Filled(slot, p.up, next.content)];
    forall version, up
      ensures Has(entries + [next], names, version, up) <==> Has(entries, names, version, up) || IsFile(next, names, version, up)
    {
      HasNext(entries, next, names, version, up);
    }
    forall version, up | version in slots'
      ensures SlotHolds(entries + [next], names, version, slots'[version], up)
    {
      if version in slots {
        assert SlotHolds(entries, names, version, slots[version], up);
      }
    }
    assert IsFile(next, names, p.version, p.up);
  }

  lemma NoConflict<Script>(first: seq<Entry<Script>>, next: Entry<Script>, names: Names, slots: map<int, Slot<Script>>, i: int)
    requires Slotted(first, names, slots) && 0 <= i < |first|
    requires IsMigration(next, names) ==>
               var p := names.parse(next.filename).value;
               p.version in slots ==> slots[p.version].name == p.name && Side(slots[p.version], p.up).None?
    ensures !Conflict(first[i], next, names)
  {
    if IsMigration(first[i], names) && IsMigration(next, names) {
      var x := names.parse(first[i].filename).value;
      assert IsFile(first[i], names, x.version, x.up);
      assert Has(first, names, x.version, x.up);
      assert SlotHolds(first, names, x.version, slots[x.version], x.up);
    }
  }

  lemma ConsistentNext<Script>(entries: seq<Entry<Script>>, names: Names, n: int, slots: map<int, Slot<Script>>)
    requires 0 <= n < |entries| && Consistent(entries[..n], names) && Slotted(entries[..n], names, slots)
    requires !Misnamed(entries[n], names)
    requires IsMigration(entries[n], names) ==>
               var p := names.parse(entries[n].filename).value;
               p.version in slots ==> slots[p.version].name == p.name && Side(slots[p.version], p.up).None?
    ensures Consistent(entries[..n + 1], names)
  {
    forall i | 0 <= i < n
      ensures !Conflict(entries[..n][i], entries[n], names)
    {
      NoConflict(entries[..n], entries[n], names, slots, i);
    }
    ConsistentAppend(entries[..n], entries[n], names);
    assert entries[..n + 1] == entries[..n] + [entries[n]];
  }

  lemma ConsistentAppend<Script>(first: seq<Entry<Script>>, next: Entry<Script>, names: Names)
    requires Consistent(first, names) && !Misnamed(next, names)
    requires forall i :: 0 <= i < |first| ==> !Conflict(first[i], next, names)
    ensures Consistent(first + [next], names)
  {
    var more := first + [next];
    forall i, j | 0 <= i < j < |more|
      ensures !Conflict(more[i], more[j], names)
    {
      if j < |first| {
        assert !Conflict(first[i], first[j], names);
      }
    }
    forall i | 0 <= i < |more|
      ensures !Misnamed(more[i], names)
    {
      assert i < |first| ==> more[i] == first[i];
    }
  }

  lemma ConflictFound<Script>(entries: seq<Entry<Script>>, names: Names, n: int, slots: map<int, Slot<Script>>)
    requires 0 <= n < |entries| && Slotted(entries[..n], names, slots) && IsMigration(entries[n], names)
    requires var p := names.parse(entries[n].filename).value;
             p.version in slots && (slots[p.version].name != p.name || Side(slots[p.version], p.up).Some?)
    ensures !Consistent(entries, names)
  {
    var first, p := entries[..n], names.parse(entries[n].filename).value;
    var slot := slots[p.version];
    var up := if Side(slot, p.up).Some? then p.up else !p.up;
    assert SlotHolds(first, names, p.version, slot, true) && SlotHolds(first, names, p.version, slot, false);
    assert Has(first, names, p.version, up);
    var i :| 0 <= i < |first| && IsFile(first[i], names, p.version, up);
    assert entries[i] == first[i];
    assert Conflict(entries[i], entries[n], names);
  }

  predicate Complete<Script>(slot: Slot<Script>)
  {
    slot.up.Some? && slot.down.Some?
  }

  function MigrationOf<Script>(version: int, slot: Slot<Script>, digest: (Script, Script) -> string): Migration<Script>
    requires Complete(slot)
  {
    Migration(version, slot.name, slot.up.value, slot.down.value, digest(slot.up.value, slot.down.value))
  }

  method Least(versions: set<int>) returns (least: int)
    requires versions != {}
    ensures least in versions && forall version :: version in versions ==> least <= version
  {
    least := Pick(versions);
    var left := versions - {least};
    while left != {}
      invariant left <= versions && least in versions
      invariant forall version :: version in versions ==> version in left || least <= version
      decreases |left|
    {
      var version := Pick(left);
      if version < least {
        least := version;
      }
      left := left - {version};
    }
  }

  ghost predicate Listed<Script>(migrations: seq<Migration<Script>>, version: int)
  {
    exists i :: 0 <= i < |migrations| && migrations[i].version == version
  }

  lemma ListedNext<Script>(migrations: seq<Migration<Script>>, next: Migration<Script>, version: int)
    ensures Listed(migrations + [next], version) <==> Listed(migrations, version) || next.version == version
  {
    var more := migrations + [next];
    assert more[|migrations|] == next;
    if Listed(migrations, version) {
      var i :| 0 <= i < |migrations| && migrations[i].version == version;
      assert more[i] == migrations[i];
    }
  }

  /** The migrations in ascending order, if every one of them is complete. */
  method Arrange<Script>(slots: map<int, Slot<Script>>, digest: (Script, Script) -> string)
    returns (ok: bool, migrations: seq<Migration<Script>>)
    requires forall version :: version in slots ==> version > 0
    ensures ok <==> forall version :: version in slots ==> Complete(slots[version])
    ensures ok ==> Ordered(migrations)
    ensures ok ==> forall i :: 0 <= i < |migrations| ==>
                     var m := migrations[i]; m.version in slots && Complete(slots[m.version]) && m == MigrationOf(m.version, slots[m.version], digest)
    ensures ok ==> forall version :: version in slots ==> Listed(migrations, version)
  {
    migrations := [];
    var left := slots.Keys;
    while left != {}
      invariant left <= slots.Keys && Ordered(migrations)
      invariant forall version :: version in slots ==> version in left || Complete(slots[version])
      invariant forall i :: 0 <= i < |migrations| ==>
                  && var m := migrations[i];
                     m.version in slots && Complete(slots[m.version]) && m == MigrationOf(m.version, slots[m.version], digest)
      invariant forall version, i :: version in left && 0 <= i < |migrations| ==> migrations[i].version < version
      invariant forall version :: version in slots ==> version in left || Listed(migrations, version)
      decreases |left|
    {
      var version := Least(left);
      if !Complete(slots[version]) {
        return false, [];
      }
      ghost var before := migrations;
      migrations := migrations + [MigrationOf(version, slots[version], digest)];
      left := left - {version};
      assert migrations[|before|].version == version;
      forall v | v in slots && v !in left
        ensures Listed(migrations, v)
      {
        ListedNext(before, migrations[|before|], v);
      }
    }
    ok := true;
  }

  /** Every file that is read is in the migration of its version, and every migration has both its files. */
  ghost predicate Represents<Script>(entries: seq<Entry<Script>>, names: Names, digest: (Script, Script) -> string,
                                     migrations: seq<Migration<Script>>)
  {
    && (forall i :: 0 <= i < |entries| && IsMigration(entries[i], names) ==>
          exists k :: 0 <= k < |migrations| && Contains(migrations[k], entries[i], names))
    && (forall k :: 0 <= k < |migrations| ==>
          && migrations[k].checksum == digest(migrations[k].up, migrations[k].down)
          && Has(entries, names, migrations[k].version, true) && Has(entries, names, migrations[k].version, false))
  }

  predicate Contains<Script(==)>(m: Migration<Script>, entry: Entry<Script>, names: Names)
    requires IsMigration(entry, names)
  {
    var p := names.parse(entry.filename).value;
    m.version == p.version && m.name == p.name && entry.content == if p.up then m.up else m.down
  }

  lemma ArrangedRepresents<Script>(entries: seq<Entry<Script>>, names: Names, digest: (Script, Script) -> string,
                                   slots: map<int, Slot<Script>>, migrations: seq<Migration<Script>>)
    requires Slotted(entries, names, slots)
    requires forall i :: 0 <= i < |migrations| ==>
               var m := migrations[i]; m.version in slots && Complete(slots[m.version]) && m == MigrationOf(m.version, slots[m.version], digest)
    requires forall version :: version in slots ==> Listed(migrations, version)
    ensures Represents(entries, names, digest, migrations)
  {
    forall i | 0 <= i < |entries| && IsMigration(entries[i], names)
      ensures exists k :: 0 <= k < |migrations| && Contains(migrations[k], entries[i], names)
    {
      var p := names.parse(entries[i].filename).value;
      assert IsFile(entries[i], names, p.version, p.up);
      assert Has(entries, names, p.version, p.up);
      assert SlotHolds(entries, names, p.version, slots[p.version], p.up);
      var k :| 0 <= k < |migrations| && migrations[k].version == p.version;
      assert Contains(migrations[k], entries[i], names);
    }
    forall k | 0 <= k < |migrations|
      ensures Has(entries, names, migrations[k].version, true) && Has(entries, names, migrations[k].version, false)
    {
      var version := migrations[k].version;
      assert SlotHolds(entries, names, version, slots[version], true) && SlotHolds(entries, names, version, slots[version], false);
    }
  }

  lemma CompleteIsLoadable<Script>(entries: seq<Entry<Script>>, names: Names, slots: map<int, Slot<Script>>)
    requires Slotted(entries, names, slots) && Consistent(entries, names)
    ensures (forall version :: version in slots ==> Complete(slots[version])) <==> Loadable(entries, names)
  {
    forall version | version in slots
      ensures Complete(slots[version]) <==> Has(entries, names, version, true) && Has(entries, names, version, false)
    {
      assert SlotHolds(entries, names, version, slots[version], true) && SlotHolds(entries, names, version, slots[version], false);
    }
    if Loadable(entries, names) {
      forall version | version in slots
        ensures Complete(slots[version])
      {
        var up := Has(entries, names, version, true);
        assert Has(entries, names, version, up) && Has(entries, names, version, !up);
      }
    }
    if forall version :: version in slots ==> Complete(slots[version]) {
      forall version, up | Has(entries, names, version, up)
        ensures Has(entries, names, version, !up)
      {
        assert version in slots && Complete(slots[version]);
      }
    }
  }

  lemma PositiveVersions<Script>(entries: seq<Entry<Script>>, names: Names, slots: map<int, Slot<Script>>)
    requires Slotted(entries, names, slots) && Positive(names)
    ensures forall version :: version in slots ==> version > 0
  {
    forall version | version in slots
      ensures version > 0
    {
      var up := Has(entries, names, version, true);
      var i :| 0 <= i < |entries| && IsFile(entries[i], names, version, up);
      assert names.parse(entries[i].filename).value.version > 0;
    }
  }

  /** Loads the directory exactly when it is loadable, and then represents it faithfully. */
  method Load<Script>(entries: seq<Entry<Script>>, names: Names, digest: (Script, Script) -> string)
    returns (migrations: Option<seq<Migration<Script>>>)
    requires Positive(names)
    ensures migrations.Some? <==> Loadable(entries, names)
    ensures migrations.Some? ==> Ordered(migrations.value) && Represents(entries, names, digest, migrations.value)
  {
    var slots: map<int, Slot<Script>> := map[];
    for n := 0 to |entries|
      invariant Slotted(entries[..n], names, slots) && Consistent(entries[..n], names)
    {
      var entry := entries[n];
      assert entries[..n + 1] == entries[..n] + [entry];
      if !IsMigration(entry, names) {
        if Misnamed(entry, names) {
          return None;
        }
        SkippedSlots(entries[..n], entry, names, slots);
        ConsistentNext(entries, names, n, slots);
      } else {
        var p := names.parse(entry.filename).value;
        var slot := if p.version in slots then slots[p.version] else Slot(p.name, None, None);
        if slot.name != p.name || Side(slot, p.up).Some? {
          ConflictFound(entries, names, n, slots);
          return None;
        }
        FilledSlots(entries[..n], entry, names, slots, slot);
        ConsistentNext(entries, names, n, slots);
        slots := slots[p.version := Filled(slot, p.up, entry.content)];
      }
    }
    assert entries[..|entries|] == entries;
    PositiveVersions(entries, names, slots);
    CompleteIsLoadable(entries, names, slots);
    var ok, arranged := Arrange(slots, digest);
    if !ok {
      return None;
    }
    ArrangedRepresents(entries, names, digest, slots, arranged);
    migrations := Some(arranged);
  }
}
