/**
 The migrations directory: file names (core/orm/dbtool/migrations.go), loading, and the
 number of the next migration (cli/godo/database.go). Which characters outside ASCII are
 letters or digits is left open, as `wide`.
 */
module MigrationFiles {
  import opened Decimals
  import opened MigrationLoading
  import opened Migrations

  const MAX_INT64 := 0x7fff_ffff_ffff_ffff

  predicate NameCharacter(c: char, wide: char -> bool)
  {
    c == '_' || c == '-' || 'a' <= c <= 'z' || 'A' <= c <= 'Z' || '0' <= c <= '9' || (c as int >= 128 && wide(c))
  }

  predicate ValidName(name: string, wide: char -> bool)
  {
    name != [] && forall i :: 0 <= i < |name| ==> NameCharacter(name[i], wide)
  }

  function Suffix(up: bool): string
  {
    if up then ".up.sql" else ".down.sql"
  }

  predicate HasSuffix(s: string, suffix: string)
  {
    |suffix| <= |s| && s[|s| - |suffix|..] == suffix
  }

  /** The position of the first underscore, or the length. */
  function Underscore(s: string): (n: nat)
    ensures n <= |s| && (n < |s| ==> s[n] == '_') && forall i :: 0 <= i < n ==> s[i] != '_'
  {
    if s == [] || s[0] == '_' then 0 else 1 + Underscore(s[1..])
  }

  /** strconv.ParseInt for 64 bits: an optional sign, then digits. */
  function ParseInt(s: string): (number: Option<int>)
    ensures number.Some? ==> number.value <= MAX_INT64
  {
    var signed := s != [] && (s[0] == '+' || s[0] == '-');
    var digits := if signed then s[1..] else s;
    if !IsNumeral(digits) then None
    else if signed && s[0] == '-' then
      var magnitude: int := Value(digits);
      if magnitude > MAX_INT64 + 1 then None else Some(-magnitude)
    else if Value(digits) > MAX_INT64 then None else Some(Value(digits))
  }

  function ParseStem(stem: string, up: bool, wide: char -> bool): (parsed: Option<Parsed>)
    ensures parsed.Some? ==> parsed.value.version >= 1 && parsed.value.up == up && ValidName(parsed.value.name, wide)
  {
    var n := Underscore(stem);
    if n == |stem| || n < 6 || !ValidName(stem[n + 1..], wide) then None
    else
      match ParseInt(stem[..n])
      case None => None
      case Some(version) => if version < 1 then None else Some(Parsed(version, stem[n + 1..], up))
  }

  function ParseName(filename: string, wide: char -> bool): (parsed: Option<Parsed>)
    ensures parsed.Some? ==> parsed.value.version >= 1 && ValidName(parsed.value.name, wide)
  {
    if HasSuffix(filename, Suffix(true)) then ParseStem(filename[..|filename| - |Suffix(true)|], true, wide)
    else if HasSuffix(filename, Suffix(false)) then ParseStem(filename[..|filename| - |Suffix(false)|], false, wide)
    else None
  }

  /** Zero-padded to six digits. */
  function Padded(version: nat): string
  {
    seq(if |Digits(version)| < 6 then 6 - |Digits(version)| else 0, _ => '0') + Digits(version)
  }

  function FileName(version: nat, name: string, up: bool): string
  {
    Padded(version) + ['_'] + name + Suffix(up)
  }

  lemma {:induction false} FirstUnderscore(front: string, rest: string)
    requires forall i :: 0 <= i < |front| ==> front[i] != '_'
    ensures Underscore(front + ['_'] + rest) == |front|
    decreases |front|
  {
    var s := front + ['_'] + rest;
    if front != [] {
      FirstUnderscore(front[1..], rest);
      assert s[1..] == front[1..] + ['_'] + rest;
    }
  }

  lemma PaddedParses(version: nat)
    requires 1 <= version <= MAX_INT64
    ensures ParseInt(Padded(version)) == Some(version) && |Padded(version)| >= 6
    ensures forall i :: 0 <= i < |Padded(version)| ==> Padded(version)[i] != '_'
  {
    ValueOfDigits(version);
    ZerosInFront(if |Digits(version)| < 6 then 6 - |Digits(version)| else 0, Digits(version));
    var s := Padded(version);
    forall i | 0 <= i < |s|
      ensures IsDigit(s[i])
    {
    }
    assert IsDigit(s[0]);
  }

  lemma StemParses(version: nat, name: string, up: bool, wide: char -> bool)
    requires 1 <= version <= MAX_INT64 && ValidName(name, wide)
    ensures ParseStem(Padded(version) + ['_'] + name, up, wide) == Some(Parsed(version, name, up))
  {
    PaddedParses(version);
    FirstUnderscore(Padded(version), name);
    var stem, n := Padded(version) + ['_'] + name, |Padded(version)|;
    assert stem[..n] == Padded(version) && stem[n + 1..] == name;
  }

  lemma SuffixAt(s: string, suffix: string, i: int)
    requires |suffix| <= |s| && 0 <= i < |suffix|
    ensures HasSuffix(s, suffix) ==> s[|s| - |suffix| + i] == suffix[i]
  {
    assert s[|s| - |suffix|..][i] == s[|s| - |suffix| + i];
  }

  lemma SuffixFound(stem: string, up: bool)
    ensures HasSuffix(stem + Suffix(up), Suffix(up)) && (stem + Suffix(up))[..|stem|] == stem
    ensures up || !HasSuffix(stem + Suffix(up), Suffix(true))
  {
    var s := stem + Suffix(up);
    assert s[|stem|..] == Suffix(up);
    // the letter before the last dot tells the suffixes apart
    SuffixAt(s, Suffix(true), 2);
    SuffixAt(s, Suffix(up), if up then 2 else 4);
  }

  /** The file names that are generated are read back as what they were generated from. */
  lemma NameRoundTrip(version: nat, name: string, up: bool, wide: char -> bool)
    requires 1 <= version <= MAX_INT64 && ValidName(name, wide)
    ensures ParseName(FileName(version, name, up), wide) == Some(Parsed(version, name, up))
  {
    var stem := Padded(version) + ['_'] + name;
    StemParses(version, name, up, wide);
    SuffixFound(stem, up);
  }

  /** A number as it may stand in front: at least six characters, a sign among them or not, and from one on. */
  predicate NumberText(front: string, version: int)
  {
    && |front| >= 6 && 1 <= version <= MAX_INT64
    && ((IsNumeral(front) && Value(front) == version)
        || (front[0] == '+' && IsNumeral(front[1..]) && Value(front[1..]) == version))
  }

  /** A file is a migration's exactly if its name is a number, an underscore, a legal name and one of the two endings. */
  ghost predicate Named(filename: string, parsed: Parsed, wide: char -> bool, front: string)
  {
    && filename == front + ['_'] + parsed.name + Suffix(parsed.up)
    && NumberText(front, parsed.version) && ValidName(parsed.name, wide)
  }

  lemma NumberHasNoUnderscore(front: string, version: int)
    requires NumberText(front, version)
    ensures (forall i :: 0 <= i < |front| ==> front[i] != '_') && ParseInt(front) == Some(version)
  {
    if !IsNumeral(front) {
      forall i | 0 <= i < |front|
        ensures front[i] != '_'
      {
        assert i > 0 ==> IsDigit(front[1..][i - 1]);
      }
    } else {
      assert IsDigit(front[0]);
    }
  }

  lemma NamedIsParsed(filename: string, parsed: Parsed, wide: char -> bool, front: string)
    requires Named(filename, parsed, wide, front)
    ensures ParseName(filename, wide) == Some(parsed)
  {
    var stem := front + ['_'] + parsed.name;
    NumberHasNoUnderscore(front, parsed.version);
    FirstUnderscore(front, parsed.name);
    assert stem[..|front|] == front && stem[|front| + 1..] == parsed.name;
    SuffixFound(stem, parsed.up);
  }

  lemma StemIsNamed(stem: string, up: bool, wide: char -> bool) returns (front: string)
    requires ParseStem(stem, up, wide).Some?
    ensures var parsed := ParseStem(stem, up, wide).value;
            && stem == front + ['_'] + parsed.name && NumberText(front, parsed.version)
            && ValidName(parsed.name, wide) && parsed.up == up
  {
    var n := Underscore(stem);
    front := stem[..n];
    assert stem == front + ['_'] + stem[n + 1..];
  }

  lemma ParsedIsNamed(filename: string, wide: char -> bool) returns (front: string)
    requires ParseName(filename, wide).Some?
    ensures Named(filename, ParseName(filename, wide).value, wide, front)
  {
    var up := HasSuffix(filename, Suffix(true));
    var stem := filename[..|filename| - |Suffix(up)|];
    front := StemIsNamed(stem, up, wide);
    SuffixJoins(filename, Suffix(up));
  }

  lemma SuffixJoins(s: string, suffix: string)
    requires HasSuffix(s, suffix)
    ensures s == s[..|s| - |suffix|] + suffix
  {
  }

  lemma ParsedExactly(filename: string, parsed: Parsed, wide: char -> bool)
    ensures ParseName(filename, wide) == Some(parsed) <==> exists front :: Named(filename, parsed, wide, front)
  {
    if ParseName(filename, wide) == Some(parsed) {
      var front := ParsedIsNamed(filename, wide);
    }
    if front :| Named(filename, parsed, wide, front) {
      NamedIsParsed(filename, parsed, wide, front);
    }
  }

  // ------------------------------------------------------------------- the next version

  /** The number a directory entry starts with, migration or not. */
  function NumberOf(filename: string): (number: Option<int>)
    ensures number.Some? ==> number.value <= MAX_INT64
  {
    var n := Underscore(filename);
    if n == |filename| then None else ParseInt(filename[..n])
  }

  function Wrapped(n: int): int
    requires 0 < n <= MAX_INT64 + 1
  {
    if n == MAX_INT64 + 1 then -n else n
  }

  function Later(greatest: int, number: Option<int>): int
  {
    if number.Some? && number.value > greatest then number.value else greatest
  }

  function GreatestNumber(names: seq<string>): (greatest: int)
    ensures 0 <= greatest <= MAX_INT64
    decreases |names|
  {
    if names == [] then 0 else Later(GreatestNumber(names[..|names| - 1]), NumberOf(names[|names| - 1]))
  }

  lemma {:induction false} NoneIsGreater(names: seq<string>, i: int)
    requires 0 <= i < |names| && NumberOf(names[i]).Some?
    ensures NumberOf(names[i]).value <= GreatestNumber(names)
    decreases |names|
  {
    var last := |names| - 1;
    if i < last {
      assert names[..last][i] == names[i];
      NoneIsGreater(names[..last], i);
    }
  }

  lemma {:induction false} GreatestIsThere(names: seq<string>) returns (i: int)
    ensures GreatestNumber(names) != 0 ==> 0 <= i < |names| && NumberOf(names[i]) == Some(GreatestNumber(names))
    decreases |names|
  {
    i := 0;
    if names != [] {
      var last := |names| - 1;
      i := GreatestIsThere(names[..last]);
      if GreatestNumber(names) != GreatestNumber(names[..last]) {
        i := last;
      } else if GreatestNumber(names) != 0 {
        assert names[..last][i] == names[i];
      }
    }
  }

  /** The greatest number a directory entry starts with, or zero. */
  lemma GreatestIsGreatest(names: seq<string>)
    ensures forall i :: 0 <= i < |names| && NumberOf(names[i]).Some? ==> NumberOf(names[i]).value <= GreatestNumber(names)
    ensures GreatestNumber(names) == 0 || exists i :: 0 <= i < |names| && NumberOf(names[i]) == Some(GreatestNumber(names))
  {
    forall i | 0 <= i < |names| && NumberOf(names[i]).Some?
      ensures NumberOf(names[i]).value <= GreatestNumber(names)
    {
      NoneIsGreater(names, i);
    }
    var i := GreatestIsThere(names);
  }

  function Next(names: seq<string>): int
  {
    Wrapped(GreatestNumber(names) + 1)
  }

  method NextVersion(names: seq<string>) returns (next: int)
    ensures next == Next(names)
  {
    var greatest := 0;
    for i := 0 to |names|
      invariant greatest == GreatestNumber(names[..i])
    {
      assert names[..i + 1][..i] == names[..i];
      var number := NumberOf(names[i]);
      if number.Some? && number.value > greatest {
        greatest := number.value;
      }
    }
    assert names[..|names|] == names;
    next := Wrapped(greatest + 1);
  }

  lemma {:induction false} UnderscorePrefix(s: string, k: int)
    requires 0 <= k <= |s| && Underscore(s[..k]) < k
    ensures Underscore(s) == Underscore(s[..k])
    decreases |s|
  {
    if s != [] && s[0] != '_' && k > 0 {
      assert s[..k][1..] == s[1..][..k - 1];
      UnderscorePrefix(s[1..], k - 1);
    }
  }

  lemma ParsedStem(stem: string, up: bool, wide: char -> bool)
    requires ParseStem(stem, up, wide).Some?
    ensures NumberOf(stem) == Some(ParseStem(stem, up, wide).value.version)
  {
  }

  lemma NumberOfPrefix(filename: string, k: int)
    requires 0 <= k <= |filename| && NumberOf(filename[..k]).Some?
    ensures NumberOf(filename) == NumberOf(filename[..k])
  {
    UnderscorePrefix(filename, k);
    assert filename[..k][..Underscore(filename)] == filename[..Underscore(filename)];
  }

  lemma ParsedNumber(filename: string, wide: char -> bool)
    requires ParseName(filename, wide).Some?
    ensures NumberOf(filename) == Some(ParseName(filename, wide).value.version)
  {
    var up := HasSuffix(filename, Suffix(true));
    var k := |filename| - |Suffix(up)|;
    ParsedStem(filename[..k], up, wide);
    NumberOfPrefix(filename, k);
  }

  /** The next version is a legal one if and only if the greatest number in the directory is not the last there is. */
  lemma NextIsPositive(names: seq<string>)
    ensures Next(names) > 0 <==> GreatestNumber(names) < MAX_INT64
    ensures Next(names) > 0 ==> forall i :: 0 <= i < |names| && NumberOf(names[i]).Some? ==> NumberOf(names[i]).value < Next(names)
  {
    GreatestIsGreatest(names);
  }

  /** The i-th file is no migration, or its version is before the given one. */
  predicate Followed(names: seq<string>, wide: char -> bool, i: int, next: int)
    requires 0 <= i < |names|
  {
    ParseName(names[i], wide).Some? ==> ParseName(names[i], wide).value.version < next
  }

  /**
   The next version follows every migration on disk if and only if the greatest number in
   the directory is not the last there is, or no file there is a migration.
   */
  lemma NextFollowsAll(names: seq<string>, wide: char -> bool)
    ensures (forall i {:trigger Followed(names, wide, i, Next(names))} :: 0 <= i < |names| ==> Followed(names, wide, i, Next(names)))
            <==> GreatestNumber(names) < MAX_INT64 || forall i :: 0 <= i < |names| ==> ParseName(names[i], wide).None?
  {
    GreatestIsGreatest(names);
    forall i | 0 <= i < |names| && ParseName(names[i], wide).Some?
      ensures 1 <= ParseName(names[i], wide).value.version <= GreatestNumber(names)
    {
      ParsedNumber(names[i], wide);
    }
    if GreatestNumber(names) == MAX_INT64 && exists i :: 0 <= i < |names| && ParseName(names[i], wide).Some? {
      var i :| 0 <= i < |names| && ParseName(names[i], wide).Some?;
      assert !Followed(names, wide, i, Next(names));
    }
  }

  /** A directory with one migration numbers the next one after it. */
  lemma OneFile(version: nat, name: string)
    requires 1 <= version <= MAX_INT64 && ValidName(name, _ => false)
    ensures var names := [FileName(version, name, true)]; Numbered(names, version) && GreatestNumber(names) == version
  {
    var file := FileName(version, name, true);
    NameRoundTrip(version, name, true, _ => false);
    ParsedNumber(file, _ => false);
    GreatestIsGreatest([file]);
    assert [file][0] == file;
  }

  // ---------------------------------------------------------------------------- loading

  function FileNames(wide: char -> bool): Names
  {
    Names((filename: string) => ParseName(filename, wide),
          (filename: string) => HasSuffix(filename, Suffix(true)) || HasSuffix(filename, Suffix(false)))
  }

  method LoadMigrations<Script>(entries: seq<Entry<Script>>, wide: char -> bool, digest: (Script, Script) -> string)
    returns (migrations: Option<seq<Migration<Script>>>)
    ensures migrations.Some? <==> Loadable(entries, FileNames(wide))
    ensures migrations.Some? ==> Ordered(migrations.value) && Represents(entries, FileNames(wide), digest, migrations.value)
  {
    migrations := Load(entries, FileNames(wide), digest);
  }

  function EntryNames<Script>(entries: seq<Entry<Script>>): (names: seq<string>)
    ensures |names| == |entries| && forall i :: 0 <= i < |entries| ==> names[i] == entries[i].filename
  {
    seq(|entries|, i requires 0 <= i < |entries| => entries[i].filename)
  }

  function Pair<Script>(version: nat, name: string, up: Script, down: Script): seq<Entry<Script>>
  {
    [Entry(FileName(version, name, true), false, up), Entry(FileName(version, name, false), false, down)]
  }

  lemma TwoFilesLoad<Script>(a: Entry<Script>, b: Entry<Script>, names: Names, version: int, name: string)
    requires !a.directory && names.parse(a.filename) == Some(Parsed(version, name, true))
    requires !b.directory && names.parse(b.filename) == Some(Parsed(version, name, false))
    ensures Loadable([a, b], names) && Has([a, b], names, version, true) && Has([a, b], names, version, false)
  {
    assert [a, b][0] == a && [a, b][1] == b;
    assert IsFile(a, names, version, true) && IsFile(b, names, version, false);
  }

  lemma PairLoads<Script>(version: nat, name: string, up: Script, down: Script, wide: char -> bool)
    requires 1 <= version <= MAX_INT64 && ValidName(name, wide)
    ensures var pair := Pair(version, name, up, down);
            && Loadable(pair, FileNames(wide)) && Has(pair, FileNames(wide), version, true)
            && GreatestNumber(EntryNames(pair)) == version
  {
    var pair := Pair(version, name, up, down);
    NameRoundTrip(version, name, true, wide);
    NameRoundTrip(version, name, false, wide);
    TwoFilesLoad(pair[0], pair[1], FileNames(wide), version, name);
    ParsedNumber(pair[0].filename, wide);
    ParsedNumber(pair[1].filename, wide);
    var names := EntryNames(pair);
    GreatestIsGreatest(names);
    assert NumberOf(names[0]) == Some(version) && NumberOf(names[1]) == Some(version);
  }

  /** A directory with a migration of the last number loads, but the next version is before all others. */
  lemma LastNumberTaken<Script>(name: string, up: Script, down: Script, wide: char -> bool)
    requires ValidName(name, wide)
    ensures var pair := Pair(MAX_INT64, name, up, down);
            && Loadable(pair, FileNames(wide)) && Has(pair, FileNames(wide), MAX_INT64, true)
            && Next(EntryNames(pair)) == -MAX_INT64 - 1
  {
    PairLoads(MAX_INT64, name, up, down, wide);
  }

  /** The file of a migration numbered after the last number there is, as it is printed. */
  function WrappedFile(name: string, up: bool): string
  {
    ['-'] + Digits(MAX_INT64 + 1) + ['_'] + name + Suffix(up)
  }

  lemma WrappedParses(name: string, up: bool, wide: char -> bool)
    ensures ParseStem(['-'] + Digits(MAX_INT64 + 1) + ['_'] + name, up, wide) == None
  {
    var front := ['-'] + Digits(MAX_INT64 + 1);
    ValueOfDigits(MAX_INT64 + 1);
    assert front[1..] == Digits(MAX_INT64 + 1);
    forall i | 0 <= i < |front|
      ensures front[i] != '_'
    {
      assert i > 0 ==> IsDigit(Digits(MAX_INT64 + 1)[i - 1]);
    }
    FirstUnderscore(front, name);
    var stem := front + ['_'] + name;
    assert stem[..|front|] == front;
    assert ParseInt(front) == Some(-MAX_INT64 - 1);
  }

  /** Such a file looks like a migration but is none, so its directory does not load any more. */
  lemma WrappedNotLoaded<Script>(entries: seq<Entry<Script>>, name: string, up: bool, wide: char -> bool, i: nat)
    requires i < |entries| && !entries[i].directory && entries[i].filename == WrappedFile(name, up)
    ensures !Loadable(entries, FileNames(wide))
  {
    var stem := ['-'] + Digits(MAX_INT64 + 1) + ['_'] + name;
    WrappedParses(name, up, wide);
    SuffixFound(stem, up);
    assert Misnamed(entries[i], FileNames(wide));
  }

  lemma FileRead<Script>(entries: seq<Entry<Script>>, wide: char -> bool, version: int, up: bool) returns (i: nat)
    requires Has(entries, FileNames(wide), version, up)
    ensures i < |entries| && NumberOf(entries[i].filename) == Some(version)
  {
    i :| i < |entries| && IsFile(entries[i], FileNames(wide), version, up);
    ParsedNumber(entries[i].filename, wide);
  }

  /** The version is the number of some directory entry. */
  predicate Numbered(names: seq<string>, version: int)
  {
    exists j :: 0 <= j < |names| && NumberOf(names[j]) == Some(version)
  }

  predicate AllListed<Script>(migrations: seq<Migration<Script>>, names: seq<string>)
  {
    forall i {:trigger migrations[i]} :: 0 <= i < |migrations| ==> Numbered(names, migrations[i].version)
  }

  /** What was loaded from a directory is listed there. */
  lemma LoadedIsListed<Script>(entries: seq<Entry<Script>>, wide: char -> bool, digest: (Script, Script) -> string,
                               migrations: seq<Migration<Script>>)
    requires Represents(entries, FileNames(wide), digest, migrations)
    ensures AllListed(migrations, EntryNames(entries))
  {
    forall i | 0 <= i < |migrations|
      ensures Numbered(EntryNames(entries), migrations[i].version)
    {
      var j := FileRead(entries, wide, migrations[i].version, true);
      assert EntryNames(entries)[j] == entries[j].filename;
    }
  }

  /** The next version follows all migrations of a directory that leaves it a number. */
  lemma NextFollows<Script>(migrations: seq<Migration<Script>>, names: seq<string>, i: nat)
    requires AllListed(migrations, names) && Next(names) > 0 && i < |migrations|
    ensures migrations[i].version < Next(names)
  {
    NextIsPositive(names);
    assert Numbered(names, migrations[i].version);
  }
}
