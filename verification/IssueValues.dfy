/**
 Field values of a managed issue (cli/godo/issue.go): which are accepted, how they come out
 of a managed block, and that a block gives back what was rendered into it.
 */
module IssueValues {
  import opened IssueMarkers
  import opened IssueBodies

  datatype Problem =
    | Ambiguous | Unsupported | UnknownTemplate | BadBlock | DuplicateMarkers | BadMarkers | InvalidValues | TooLong

  datatype Result<T> = Ok(value: T) | Err(problem: Problem)

  // ------------------------------------------------------------------------------ trimming

  function TrimLeft(s: string): string
    decreases |s|
  {
    if s != "" && s[0] == '\n' then TrimLeft(s[1..]) else s
  }

  function TrimRight(s: string): string
    decreases |s|
  {
    if s != "" && s[|s| - 1] == '\n' then TrimRight(s[..|s| - 1]) else s
  }

  /** strings.Trim of line breaks */
  function Trim(s: string): string
  {
    TrimRight(TrimLeft(s))
  }

  lemma {:induction false} TrimLeftBeforeBreak(v: string)
    ensures TrimRight(TrimLeft(v + "\n")) == TrimRight(TrimLeft(v))
    decreases |v|
  {
    var s := v + "\n";
    if v == "" {
      assert s[1..] == "";
      assert TrimLeft(s) == "";
    } else if v[0] == '\n' {
      assert s[1..] == v[1..] + "\n";
      TrimLeftBeforeBreak(v[1..]);
    } else {
      assert TrimLeft(s) == s && s[..|s| - 1] == v;
    }
  }

  /** Trimming undoes the line breaks around a rendered value, up to those the value has itself. */
  lemma TrimLines(v: string)
    ensures Trim(Lines(v)) == Trim(v)
  {
    assert Lines(v)[1..] == v + "\n";
    TrimLeftBeforeBreak(v);
  }

  lemma {:induction false} TrimLeftPart(s: string) returns (a: nat)
    ensures a <= |s| && TrimLeft(s) == s[a..] && (TrimLeft(s) != "" ==> TrimLeft(s)[0] != '\n')
    ensures forall i :: 0 <= i < a ==> s[i] == '\n'
    decreases |s|
  {
    if s != "" && s[0] == '\n' {
      var b := TrimLeftPart(s[1..]);
      a := b + 1;
      forall i | 0 <= i < a
        ensures s[i] == '\n'
      {
        assert i > 0 ==> s[1..][i - 1] == s[i];
      }
    } else {
      a := 0;
    }
  }

  lemma {:induction false} TrimRightPart(s: string) returns (b: nat)
    ensures b <= |s| && TrimRight(s) == s[..b] && (TrimRight(s) != "" ==> TrimRight(s)[b - 1] != '\n')
    ensures forall i :: b <= i < |s| ==> s[i] == '\n'
    decreases |s|
  {
    if s != "" && s[|s| - 1] == '\n' {
      b := TrimRightPart(s[..|s| - 1]);
    } else {
      b := |s|;
    }
  }

  /** A trimmed text is the part of the text between its first and last characters that are no line breaks. */
  lemma TrimPart(s: string) returns (a: nat, b: nat)
    ensures a <= b <= |s| && Trim(s) == s[a..b]
    ensures Trim(s) != "" ==> s[a] != '\n' && s[b - 1] != '\n'
    ensures forall i :: 0 <= i < |s| && !(a <= i < b) ==> s[i] == '\n'
  {
    a := TrimLeftPart(s);
    var t := TrimLeft(s);
    var c := TrimRightPart(t);
    b := a + c;
    assert t[..c] == s[a..b];
    forall i | b <= i < |s|
      ensures s[i] == '\n'
    {
      assert t[i - a] == s[i];
    }
  }

  lemma TrimTwice(s: string)
    ensures Trim(Trim(s)) == Trim(s)
  {
    var a, b := TrimPart(s);
  }

  // ------------------------------------------------------------------------------ validity

  predicate TextCharacter(c: char)
  {
    c != '\0' && c != '\r' && (c >= ' ' || c == '\n' || c == '\t')
  }

  predicate ValidText(value: string)
  {
    forall i :: 0 <= i < |value| ==> TextCharacter(value[i])
  }

  /** strings.TrimSpace gives nothing */
  predicate Blank(value: string, space: char -> bool)
  {
    forall i :: 0 <= i < |value| ==> space(value[i])
  }

  predicate Known(fields: seq<Field>, name: string)
  {
    exists i :: 0 <= i < |fields| && fields[i].name == name
  }

  ghost predicate GoodValue(fields: seq<Field>, name: string, value: string)
  {
    Known(fields, name) && ValidText(value) && Free(value)
  }

  ghost predicate AllPresent(fields: seq<Field>, values: Values, space: char -> bool)
  {
    forall i :: 0 <= i < |fields| && fields[i].required ==>
      fields[i].name in values && !Blank(values[fields[i].name], space)
  }

  /** validateTemplateFields */
  ghost predicate Accepted(fields: seq<Field>, values: Values, requireAll: bool, space: char -> bool)
  {
    && (requireAll ==> AllPresent(fields, values, space))
    && forall name :: name in values ==> GoodValue(fields, name, values[name])
  }

  lemma TrimKeepsGood(fields: seq<Field>, name: string, value: string)
    requires GoodValue(fields, name, value)
    ensures GoodValue(fields, name, Trim(value))
  {
    var a, b := TrimPart(value);
    FreePart(value, a, b);
  }

  lemma TrimKeepsBlank(value: string, space: char -> bool)
    requires space('\n')
    ensures Blank(Trim(value), space) <==> Blank(value, space)
  {
    var a, b := TrimPart(value);
    if Blank(Trim(value), space) {
      forall i | 0 <= i < |value|
        ensures space(value[i])
      {
        assert a <= i < b ==> Trim(value)[i - a] == value[i];
      }
    }
  }

  // ---------------------------------------------------------------------------- extraction

  /** The value between a field's markers, if they are there. */
  function ExtractField(managed: string, name: string): Result<Option<string>>
    requires Plain(name)
  {
    FieldMarks(name);
    var s, e := StartMark(name), EndMark(name);
    if Count(managed, s) > 1 || Count(managed, e) > 1 then Err(DuplicateMarkers)
    else
      var from, to := Index(managed, s), Index(managed, e);
      if from < 0 && to < 0 then Ok(None)
      else if from < 0 || to < from then Err(BadMarkers)
      else
        StartBeforeEnd(managed, name);
        Ok(Some(Trim(managed[from + |s|..to])))
  }

  lemma StartBeforeEnd(managed: string, name: string)
    requires Plain(name) && 0 <= Index(managed, StartMark(name)) <= Index(managed, EndMark(name))
    ensures Index(managed, StartMark(name)) + |StartMark(name)| <= Index(managed, EndMark(name)) <= |managed|
  {
    var s, e := StartMark(name), EndMark(name);
    FieldMarks(name);
    FieldMarksDiffer(name, name);
    IndexIsFirst(managed, s);
    IndexIsFirst(managed, e);
    if Index(managed, s) == Index(managed, e) {
      SamePlace(managed, s, e, Index(managed, s));
    } else {
      NoOverlap(managed, s, e, Index(managed, s), Index(managed, e));
    }
  }

  predicate AllPlain(fields: seq<Field>)
  {
    forall i :: 0 <= i < |fields| ==> Plain(fields[i].name)
  }

  function Extract(fields: seq<Field>, managed: string): Result<Values>
    requires AllPlain(fields)
    decreases |fields|
  {
    if fields == [] then Ok(map[])
    else
      var last := fields[|fields| - 1];
      match Extract(fields[..|fields| - 1], managed)
      case Err(problem) => Err(problem)
      case Ok(values) => WithField(values, last.name, ExtractField(managed, last.name))
  }

  function WithField(values: Values, name: string, found: Result<Option<string>>): Result<Values>
  {
    match found
    case Err(problem) => Err(problem)
    case Ok(None) => Ok(values)
    case Ok(Some(value)) => Ok(values[name := value])
  }

  /** What a block gives back: the rendered values, trimmed. */
  function Recovered(fields: seq<Field>, values: Values): Values
    decreases |fields|
  {
    if fields == [] then map[]
    else
      var last := fields[|fields| - 1];
      var first := Recovered(fields[..|fields| - 1], values);
      if Rendered(last, values) then first[last.name := Trim(values[last.name])] else first
  }

  lemma PlacedIsExtracted(managed: string, f: Field, value: string, at: int)
    requires GoodField(f) && FieldPlacedAt(managed, f, value, at)
    ensures ExtractField(managed, f.name) == Ok(Some(Trim(value)))
  {
    FieldMarks(f.name);
    var s, e := StartMark(f.name), EndMark(f.name);
    OnceIndex(managed, s, at);
    OnceIndex(managed, e, at + |s| + |Lines(value)|);
    TrimLines(value);
  }

  lemma NeverIsNotExtracted(managed: string, name: string)
    requires Plain(name) && Never(managed, StartMark(name)) && Never(managed, EndMark(name))
    ensures ExtractField(managed, name) == Ok(None)
  {
    FieldMarks(name);
    CountNone(managed, StartMark(name));
    CountNone(managed, EndMark(name));
  }

  /** A managed block gives back every value rendered into it, up to surrounding line breaks. */
  lemma {:induction false} BlockGivesBack(fields: seq<Field>, values: Values, n: int)
    requires Sound(fields, values) && 0 <= n <= |fields| && AllPlain(fields)
    ensures Extract(fields[..n], Managed(fields, values)) == Ok(Recovered(fields[..n], values))
    decreases n
  {
    if n > 0 {
      BlockGivesBack(fields, values, n - 1);
      assert fields[..n][..n - 1] == fields[..n - 1];
      var f := fields[n - 1];
      var at := ManagedField(fields, values, n - 1);
      if Rendered(f, values) {
        PlacedIsExtracted(Managed(fields, values), f, values[f.name], at);
      } else {
        NeverIsNotExtracted(Managed(fields, values), f.name);
      }
    }
  }

  lemma {:induction false} RecoveredAt(fields: seq<Field>, values: Values, name: string)
    requires forall i, j :: 0 <= i < j < |fields| ==> fields[i].name != fields[j].name
    ensures name in Recovered(fields, values) <==> exists i :: 0 <= i < |fields| && fields[i].name == name && Rendered(fields[i], values)
    ensures name in Recovered(fields, values) ==> name in values && Recovered(fields, values)[name] == Trim(values[name])
    decreases |fields|
  {
    if fields != [] {
      var init, last := fields[..|fields| - 1], fields[|fields| - 1];
      RecoveredAt(init, values, name);
      if exists i :: 0 <= i < |fields| && fields[i].name == name && Rendered(fields[i], values) {
        var i :| 0 <= i < |fields| && fields[i].name == name && Rendered(fields[i], values);
        assert i < |init| ==> init[i] == fields[i];
      }
    }
  }

  lemma {:induction false} ExtractedIsTrimmed(fields: seq<Field>, managed: string, name: string)
    requires AllPlain(fields) && Extract(fields, managed).Ok? && name in Extract(fields, managed).value
    ensures Trim(Extract(fields, managed).value[name]) == Extract(fields, managed).value[name]
    decreases |fields|
  {
    var init, last := fields[..|fields| - 1], fields[|fields| - 1];
    var found := ExtractField(managed, last.name);
    if found.value.Some? && name == last.name {
      FieldIsTrimmed(managed, name);
    } else {
      ExtractedIsTrimmed(init, managed, name);
    }
  }

  lemma FieldIsTrimmed(managed: string, name: string)
    requires Plain(name)
    ensures var found := ExtractField(managed, name); found.Ok? && found.value.Some? ==> Trim(found.value.value) == found.value.value
  {
    FieldMarks(name);
    var from, to := Index(managed, StartMark(name)), Index(managed, EndMark(name));
    if 0 <= from <= to {
      StartBeforeEnd(managed, name);
      TrimTwice(managed[from + |StartMark(name)|..to]);
    }
  }
}
