/**
 Applying and rolling back migrations (core/orm/dbtool/migrations.go). Scripts are whatever
 the files hold, hand-written or generated: all that matters is whether a script is blank
 and what running it does to a database, if it runs at all.
 */
module Migrations {
  import opened Sets

  datatype Option<T> = None | Some(value: T)

  /** `checksum` is the digest of both scripts. */
  datatype Migration<Script> = Migration(version: int, name: string, up: Script, down: Script, checksum: string)

  datatype Record = Record(name: string, checksum: string)

  type Applied = map<int, Record>

  datatype Runner<!Db, !Script> = Runner(blank: Script -> bool, run: (Db, Script) -> Option<Db>)

  datatype Outcome = Done(count: nat) | BadHistory | BlankScript | ScriptFailed | CommitFailed

  /** What loadMigrations returns: ascending positive versions. */
  ghost predicate Ordered<Script>(migrations: seq<Migration<Script>>)
  {
    && (forall i :: 0 <= i < |migrations| ==> migrations[i].version > 0)
    && (forall i, j :: 0 <= i < j < |migrations| ==> migrations[i].version < migrations[j].version)
  }

  function RecordOf<Script>(m: Migration<Script>): Record
  {
    Record(m.name, m.checksum)
  }

  function RecordsOf<Script>(migrations: seq<Migration<Script>>): Applied
    decreases |migrations|
  {
    if migrations == [] then map[]
    else
      var last := migrations[|migrations| - 1];
      RecordsOf(migrations[..|migrations| - 1])[last.version := RecordOf(last)]
  }

  /** The applied records are those of the first migrations on disk. */
  predicate IsPrefix<Script>(migrations: seq<Migration<Script>>, applied: Applied)
  {
    |applied| <= |migrations| && applied == RecordsOf(migrations[..|applied|])
  }

  lemma {:induction false} RecordsFound<Script>(migrations: seq<Migration<Script>>, version: int)
    ensures version in RecordsOf(migrations) <==> exists i :: 0 <= i < |migrations| && migrations[i].version == version
    decreases |migrations|
  {
    if migrations != [] {
      var init := migrations[..|migrations| - 1];
      RecordsFound(init, version);
      if exists i :: 0 <= i < |migrations| && migrations[i].version == version {
        var i :| 0 <= i < |migrations| && migrations[i].version == version;
        assert i < |init| ==> init[i] == migrations[i];
      }
    }
  }

  lemma {:induction false} RecordAt<Script>(migrations: seq<Migration<Script>>, i: int)
    requires Ordered(migrations) && 0 <= i < |migrations|
    ensures migrations[i].version in RecordsOf(migrations)
    ensures RecordsOf(migrations)[migrations[i].version] == RecordOf(migrations[i])
    decreases |migrations|
  {
    var init := migrations[..|migrations| - 1];
    if i < |init| {
      RecordAt(init, i);
    }
  }

  lemma {:induction false} RecordsSize<Script>(migrations: seq<Migration<Script>>)
    requires Ordered(migrations)
    ensures |RecordsOf(migrations)| == |migrations|
    decreases |migrations|
  {
    if migrations != [] {
      var init := migrations[..|migrations| - 1];
      RecordsSize(init);
      RecordsFound(init, migrations[|migrations| - 1].version);
    }
  }

  /** In a matching history exactly the first migrations are applied. */
  lemma AppliedAreFirst<Script>(migrations: seq<Migration<Script>>, applied: Applied, i: int)
    requires Ordered(migrations) && IsPrefix(migrations, applied) && 0 <= i < |migrations|
    ensures migrations[i].version in applied <==> i < |applied|
    ensures i < |applied| ==> applied[migrations[i].version] == RecordOf(migrations[i])
  {
    var first := migrations[..|applied|];
    RecordsFound(first, migrations[i].version);
    if i < |applied| {
      assert first[i] == migrations[i];
      RecordAt(first, i);
    }
  }

  // ------------------------------------------------------------------------ history

  /** What the loop of validateMigrationHistory establishes about the first n migrations. */
  ghost predicate Checked<Script>(migrations: seq<Migration<Script>>, applied: Applied, n: int, k: int)
    requires 0 <= k <= n <= |migrations|
  {
    && (forall i :: 0 <= i < k ==> migrations[i].version in applied && applied[migrations[i].version] == RecordOf(migrations[i]))
    && (forall i :: k <= i < n ==> migrations[i].version !in applied)
  }

  lemma CheckedIsPrefix<Script>(migrations: seq<Migration<Script>>, applied: Applied, k: int)
    requires Ordered(migrations) && 0 <= k <= |migrations| && Checked(migrations, applied, |migrations|, k)
    requires forall version :: version in applied ==> exists i :: 0 <= i < |migrations| && migrations[i].version == version
    ensures k == |applied| && IsPrefix(migrations, applied)
  {
    var first := migrations[..k];
    RecordsSize(first);
    forall version
      ensures version in applied <==> version in RecordsOf(first)
      ensures version in applied ==> applied[version] == RecordsOf(first)[version]
    {
      RecordsFound(first, version);
      if version in applied {
        var i :| 0 <= i < |migrations| && migrations[i].version == version;
        assert i < k && first[i] == migrations[i];
        RecordAt(first, i);
      }
      if version in RecordsOf(first) {
        var i :| 0 <= i < |first| && first[i].version == version;
        assert migrations[i] == first[i];
      }
    }
    assert applied == RecordsOf(first);
  }

  /** Looks for a version that is not available, in no particular order. */
  method Missing(versions: set<int>, available: set<int>) returns (missing: bool, version: int)
    ensures missing ==> version in versions && version !in available
    ensures !missing ==> versions <= available
  {
    var left := versions;
    version := 0;
    while left != {}
      invariant left <= versions && versions - left <= available
      decreases |left|
    {
      version := Pick(left);
      if version !in available {
        return true, version;
      }
      left := left - {version};
    }
    missing := false;
  }

  method Greatest(versions: set<int>) returns (greatest: int)
    ensures forall version :: version in versions ==> version <= greatest
    ensures greatest == 0 || greatest in versions
  {
    greatest := 0;
    var left := versions;
    while left != {}
      invariant left <= versions && (greatest == 0 || greatest in versions)
      invariant forall version :: version in versions ==> version in left || version <= greatest
      decreases |left|
    {
      var version := Pick(left);
      if version > greatest {
        greatest := version;
      }
      left := left - {version};
    }
  }

  /** Accepts exactly when the applied records are a matching prefix of the migrations on disk. */
  method ValidateHistory<Script>(migrations: seq<Migration<Script>>, applied: Applied) returns (ok: bool)
    requires Ordered(migrations)
    ensures ok <==> IsPrefix(migrations, applied)
  {
    var available: set<int> := {};
    var pendingSeen := false;
    ghost var k := 0;
    for i := 0 to |migrations|
      invariant 0 <= k <= i && Checked(migrations, applied, i, k)
      invariant if pendingSeen then k < i else k == i
      invariant forall version :: version in available <==> exists j :: 0 <= j < i && migrations[j].version == version
    {
      var current := migrations[i];
      available := available + {current.version};
      if current.version !in applied {
        pendingSeen := true;
      } else {
        var stored := applied[current.version];
        if pendingSeen || stored != RecordOf(current) {
          RefuteAt(migrations, applied, k, i);
          return false;
        }
        k := k + 1;
      }
    }
    var missing, version := Missing(applied.Keys, available);
    if missing {
      RefuteMissing(migrations, applied, version);
      return false;
    }
    CheckedIsPrefix(migrations, applied, k);
    ok := true;
  }

  lemma RefuteAt<Script>(migrations: seq<Migration<Script>>, applied: Applied, k: int, i: int)
    requires Ordered(migrations) && 0 <= k <= i < |migrations| && Checked(migrations, applied, i, k)
    requires migrations[i].version in applied
    requires k < i || applied[migrations[i].version] != RecordOf(migrations[i])
    ensures !IsPrefix(migrations, applied)
  {
    if IsPrefix(migrations, applied) {
      AppliedAreFirst(migrations, applied, i);
      AppliedAreFirst(migrations, applied, k);
      assert false;
    }
  }

  lemma RefuteMissing<Script>(migrations: seq<Migration<Script>>, applied: Applied, version: int)
    requires version in applied && forall i :: 0 <= i < |migrations| ==> migrations[i].version != version
    ensures !IsPrefix(migrations, applied)
  {
    if |applied| <= |migrations| {
      RecordsFound(migrations[..|applied|], version);
    }
  }

  // ------------------------------------------------------------------ forward and backward

  /** Running the scripts of some migrations one after the other; blank ones are refused. */
  function Forward<Db, Script>(r: Runner<Db, Script>, db: Db, migrations: seq<Migration<Script>>): Option<Db>
    decreases |migrations|
  {
    if migrations == [] then Some(db)
    else if r.blank(migrations[0].up) then None
    else
      match r.run(db, migrations[0].up)
      case None => None
      case Some(next) => Forward(r, next, migrations[1..])
  }

  lemma ForwardNext<Db, Script>(r: Runner<Db, Script>, db: Db, migrations: seq<Migration<Script>>, i: int)
    requires 0 <= i < |migrations|
    ensures var up := migrations[i].up;
            Forward(r, db, migrations[i..])
            == if r.blank(up) || r.run(db, up).None? then None else Forward(r, r.run(db, up).value, migrations[i + 1..])
  {
    assert migrations[i..][0] == migrations[i] && migrations[i..][1..] == migrations[i + 1..];
  }

  lemma RecordsNext<Script>(migrations: seq<Migration<Script>>, i: int)
    requires 0 <= i < |migrations|
    ensures RecordsOf(migrations[..i + 1]) == RecordsOf(migrations[..i])[migrations[i].version := RecordOf(migrations[i])]
  {
    assert migrations[..i + 1][..i] == migrations[..i];
  }

  /** Content and records after migrate: everything pending is applied, or nothing. */
  function Migrated<Db, Script>(r: Runner<Db, Script>, content: Db, applied: Applied, migrations: seq<Migration<Script>>,
                                commits: bool): (Db, Applied)
  {
    if !IsPrefix(migrations, applied) || !commits then (content, applied)
    else
      match Forward(r, content, migrations[|applied|..])
      case None => (content, applied)
      case Some(next) => (next, RecordsOf(migrations))
  }

  /** Content and records after rollback: the latest applied migration is undone, or nothing. */
  function RolledBack<Db, Script>(r: Runner<Db, Script>, content: Db, applied: Applied, migrations: seq<Migration<Script>>,
                                  commits: bool): (Db, Applied)
  {
    if !IsPrefix(migrations, applied) || !commits || |applied| == 0 then (content, applied)
    else
      var last := migrations[|applied| - 1];
      if r.blank(last.down) || r.run(content, last.down).None? then (content, applied)
      else (r.run(content, last.down).value, RecordsOf(migrations[..|applied| - 1]))
  }

  /** A database and its migration table; `commits` tells whether a commit will succeed. */
  class Database<Db, Script> {
    const runner: Runner<Db, Script>
    var content: Db
    var applied: Applied

    constructor (runner: Runner<Db, Script>, content: Db)
      ensures this.runner == runner && this.content == content && applied == map[]
    {
      this.runner, this.content, this.applied := runner, content, map[];
    }

    /**
     Applies everything pending in one transaction: all of it or nothing. It succeeds exactly
     when the history matches, no pending script is blank, all of them run, and the commit does.
     */
    method Migrate(migrations: seq<Migration<Script>>, commits: bool) returns (outcome: Outcome)
      requires Ordered(migrations)
      modifies this
      ensures outcome.Done? <==>
                && IsPrefix(migrations, old(applied)) && commits
                && Forward(runner, old(content), migrations[|old(applied)|..]).Some?
      ensures outcome.BadHistory? <==> !IsPrefix(migrations, old(applied))
      ensures outcome.Done? ==>
                && outcome.count == |migrations| - |old(applied)|
                && content == Forward(runner, old(content), migrations[|old(applied)|..]).value
                && applied == RecordsOf(migrations) && IsPrefix(migrations, applied)
      ensures !outcome.Done? ==> content == old(content) && applied == old(applied)
      ensures (content, applied) == Migrated(runner, old(content), old(applied), migrations, commits)
    {
      var matching := ValidateHistory(migrations, applied);
      if !matching {
        return BadHistory;
      }
      ghost var k := |applied|;
      // the transaction's own view of the database
      var view, records := content, applied;
      var i, count := 0, 0;
      assert migrations[..0] == [];
      while i < |migrations|
        invariant content == old(content) && applied == old(applied)
        invariant 0 <= i <= |migrations| && k <= |migrations|
        invariant i <= k ==> view == content && records == applied && count == 0
        invariant i >= k ==> records == RecordsOf(migrations[..i]) && count == i - k
        invariant i >= k ==> Forward(runner, content, migrations[k..]) == Forward(runner, view, migrations[i..])
      {
        var current := migrations[i];
        AppliedAreFirst(migrations, applied, i);
        if current.version !in applied {
          RecordsNext(migrations, i);
          ForwardNext(runner, view, migrations, i);
          if runner.blank(current.up) {
            return BlankScript;
          }
          var next := runner.run(view, current.up);
          if next.None? {
            return ScriptFailed;
          }
          view, records := next.value, records[current.version := RecordOf(current)];
          count := count + 1;
        }
        i := i + 1;
      }
      assert migrations[..i] == migrations && migrations[i..] == [];
      if !commits {
        return CommitFailed;
      }
      RecordsSize(migrations);
      content, applied := view, records;
      outcome := Done(count);
    }

    /** Undoes the latest applied migration, if there is one, or changes nothing. */
    method Rollback(migrations: seq<Migration<Script>>, commits: bool) returns (outcome: Outcome)
      requires Ordered(migrations)
      modifies this
      ensures outcome.BadHistory? <==> !IsPrefix(migrations, old(applied))
      ensures outcome.Done? <==>
                && IsPrefix(migrations, old(applied)) && commits
                && (old(applied) != map[] ==>
                      var last := migrations[|old(applied)| - 1];
                      !runner.blank(last.down) && runner.run(old(content), last.down).Some?)
      ensures outcome.Done? ==>
                && outcome.count == (if old(applied) == map[] then 0 else 1)
                && IsPrefix(migrations, applied) && |applied| == |old(applied)| - outcome.count
                && applied == RecordsOf(migrations[..|applied|])
                && content == if outcome.count == 0 then old(content)
                              else runner.run(old(content), migrations[|applied|].down).value
      ensures !outcome.Done? ==> content == old(content) && applied == old(applied)
      ensures (content, applied) == RolledBack(runner, old(content), old(applied), migrations, commits)
    {
      var matching := ValidateHistory(migrations, applied);
      if !matching {
        return BadHistory;
      }
      if applied == map[] {
        return if commits then Done(0) else CommitFailed;
      }
      var latest := Greatest(applied.Keys);
      LatestIsLast(migrations, applied, latest);
      var i := 0;
      while migrations[i].version != latest
        invariant 0 <= i < |applied| && content == old(content) && applied == old(applied)
        invariant forall j :: 0 <= j < i ==> migrations[j].version != latest
        decreases |applied| - i
      {
        i := i + 1;
      }
      assert i == |applied| - 1;
      var current := migrations[i];
      if runner.blank(current.down) {
        return BlankScript;
      }
      var next := runner.run(content, current.down);
      if next.None? {
        return ScriptFailed;
      }
      if !commits {
        return CommitFailed;
      }
      OneLess(migrations, applied);
      content, applied := next.value, applied - {current.version};
      outcome := Done(1);
    }
  }

  lemma LatestIsLast<Script>(migrations: seq<Migration<Script>>, applied: Applied, latest: int)
    requires Ordered(migrations) && IsPrefix(migrations, applied) && |applied| > 0
    requires forall version :: version in applied.Keys ==> version <= latest
    requires latest == 0 || latest in applied.Keys
    ensures latest == migrations[|applied| - 1].version
  {
    AppliedAreFirst(migrations, applied, |applied| - 1);
    var first := migrations[..|applied|];
    RecordsFound(first, latest);
    var i :| 0 <= i < |first| && first[i].version == latest;
    assert first[i] == migrations[i];
  }

  lemma OneLess<Script>(migrations: seq<Migration<Script>>, applied: Applied)
    requires Ordered(migrations) && IsPrefix(migrations, applied) && |applied| > 0
    ensures var fewer := applied - {migrations[|applied| - 1].version};
            && |fewer| == |applied| - 1 && IsPrefix(migrations, fewer)
  {
    var k := |applied| - 1;
    var first := migrations[..k];
    assert migrations[..|applied|][..k] == first;
    RecordsSize(first);
    RecordsFound(first, migrations[k].version);
    assert applied - {migrations[k].version} == RecordsOf(first);
  }
}
