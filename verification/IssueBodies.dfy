/**
 Managed issue bodies (cli/godo/issue.go): rendering field values into a block of markers,
 and updating the block inside a body people also edit by hand.
 */
module IssueBodies {
  import opened IssueMarkers

  datatype Option<T> = None | Some(value: T)

  datatype Field = Field(name: string, heading: string, required: bool)

  datatype Template = Template(id: string, fields: seq<Field>)

  type Values = map<string, string>

  const MAX_ISSUE_BODY_BYTES := 65000

  // ------------------------------------------------------------------------------ markers

  function StartMark(name: string): string
  {
    Marker("field:" + name + ":start")
  }

  function EndMark(name: string): string
  {
    Marker("field:" + name + ":end")
  }

  const MANAGED_START := Marker("managed:start")
  const MANAGED_END := Marker("managed:end")

  function IssueMark(m: Mark): string
  {
    Marker("issue template=" + m.id + " version=" + m.version)
  }

  datatype Mark = Mark(id: string, version: string)

  predicate IdLetter(c: char)
  {
    'a' <= c <= 'z' || c == '-'
  }

  predicate DigitLetter(c: char)
  {
    '0' <= c <= '9'
  }

  /** What the two groups of the marker pattern may match. */
  predicate ValidMark(m: Mark)
  {
    && m.id != "" && (forall i :: 0 <= i < |m.id| ==> IdLetter(m.id[i]))
    && m.version != "" && (forall i :: 0 <= i < |m.version| ==> DigitLetter(m.version[i]))
  }

  predicate HasMark(text: string, m: Mark, i: int)
  {
    ValidMark(m) && At(text, IssueMark(m), i)
  }

  ghost predicate NoMark(text: string)
  {
    forall m, i :: !HasMark(text, m, i)
  }

  /** This is the only match. */
  ghost predicate OnlyMark(text: string, m: Mark, i: int)
  {
    HasMark(text, m, i) && forall n, j :: HasMark(text, n, j) ==> j == i
  }

  /** The templates this can be relied on for: names do not break markers, headings open none. */
  predicate GoodField(f: Field)
  {
    Plain(f.name) && '<' !in f.heading
  }

  predicate GoodTemplate(t: Template)
  {
    && (t.id != "" && forall i :: 0 <= i < |t.id| ==> IdLetter(t.id[i]))
    && (forall i :: 0 <= i < |t.fields| ==> GoodField(t.fields[i]))
    && (forall i, j :: 0 <= i < j < |t.fields| ==> t.fields[i].name != t.fields[j].name)
  }

  lemma FieldMarks(name: string)
    requires Plain(name)
    ensures IsMarker(StartMark(name)) && IsMarker(EndMark(name))
  {
    MarkerIsMarker("field:" + name + ":start");
    MarkerIsMarker("field:" + name + ":end");
  }

  lemma ManagedMarks()
    ensures IsMarker(MANAGED_START) && IsMarker(MANAGED_END) && MANAGED_START != MANAGED_END
  {
    MarkerIsMarker("managed:start");
    MarkerIsMarker("managed:end");
    MarkerTells("managed:start", "managed:end");
    assert "managed:start"[8] != "managed:end"[8];
  }

  lemma IssueMarks(m: Mark)
    requires ValidMark(m)
    ensures IsMarker(IssueMark(m)) && IssueMark(m) != MANAGED_START && IssueMark(m) != MANAGED_END
  {
    var x := "issue template=" + m.id + " version=" + m.version;
    forall i | 0 <= i < |x|
      ensures x[i] != '<' && x[i] != '>' && x[i] != '\n'
    {
      var a, b := |"issue template="|, |"issue template="| + |m.id|;
      assert x[i] == if i < a then "issue template="[i] else if i < b then m.id[i - a]
                     else if i < b + 9 then " version="[i - b] else m.version[i - b - 9];
      if a <= i < b {
        assert IdLetter(m.id[i - a]);
      } else if b + 9 <= i {
        assert DigitLetter(m.version[i - b - 9]);
      }
    }
    MarkerIsMarker(x);
    MarkerTells(x, "managed:start");
    MarkerTells(x, "managed:end");
    assert x[0] == 'i' && "managed:start"[0] == 'm' && "managed:end"[0] == 'm';
  }

  lemma FieldMarksDiffer(a: string, b: string)
    ensures StartMark(a) == StartMark(b) <==> a == b
    ensures EndMark(a) == EndMark(b) <==> a == b
    ensures StartMark(a) != EndMark(b)
  {
    var sa, sb, ea, eb := "field:" + a + ":start", "field:" + b + ":start", "field:" + a + ":end", "field:" + b + ":end";
    MarkerTells(sa, sb);
    MarkerTells(ea, eb);
    MarkerTells(sa, eb);
    assert sa[6..|sa| - 6] == a && sb[6..|sb| - 6] == b && ea[6..|ea| - 4] == a && eb[6..|eb| - 4] == b;
    assert sa[|sa| - 1] == 't' && eb[|eb| - 1] == 'd';
  }

  lemma FieldMarksAside(name: string, m: Mark)
    ensures StartMark(name) != MANAGED_START && StartMark(name) != MANAGED_END
    ensures EndMark(name) != MANAGED_START && EndMark(name) != MANAGED_END
    ensures StartMark(name) != IssueMark(m) && EndMark(name) != IssueMark(m)
  {
    var s, e, x := "field:" + name + ":start", "field:" + name + ":end", "issue template=" + m.id + " version=" + m.version;
    MarkerTells(s, "managed:start");
    MarkerTells(s, "managed:end");
    MarkerTells(e, "managed:start");
    MarkerTells(e, "managed:end");
    MarkerTells(s, x);
    MarkerTells(e, x);
    assert s[0] == 'f' && e[0] == 'f' && x[0] == 'i' && "managed:start"[0] == 'm' && "managed:end"[0] == 'm';
  }

  // ------------------------------------------------------------------------------ rendering

  predicate Rendered(f: Field, values: Values)
  {
    f.name in values && (values[f.name] != "" || f.required)
  }

  function Section(f: Field, value: string): string
  {
    ("\n## " + f.heading + "\n\n") + (StartMark(f.name) + (("\n" + value + "\n") + (EndMark(f.name) + "\n")))
  }

  /** renderManagedFields */
  function FieldsText(fields: seq<Field>, values: Values): string
    decreases |fields|
  {
    if fields == [] then ""
    else
      var last := fields[|fields| - 1];
      FieldsText(fields[..|fields| - 1], values) + if Rendered(last, values) then Section(last, values[last.name]) else ""
  }

  /** The managed block from its start marker up to its end marker. */
  function Managed(fields: seq<Field>, values: Values): string
  {
    MANAGED_START + ("\n" + FieldsText(fields, values))
  }

  // ------------------------------------------------------------- where the markers of a block are

  lemma SectionMarks(f: Field, value: string, p: string)
    requires GoodField(f) && Free(value) && IsMarker(p)
    ensures var head := |"\n## " + f.heading + "\n\n"|;
            && (p == StartMark(f.name) ==> Once(Section(f, value), p, head))
            && (p == EndMark(f.name) ==> Once(Section(f, value), p, head + |StartMark(f.name)| + |value| + 2))
            && (p != StartMark(f.name) && p != EndMark(f.name) ==> Never(Section(f, value), p))
  {
    FieldMarks(f.name);
    FieldMarksDiffer(f.name, f.name);
    NoLessIsFree("\n## " + f.heading + "\n\n");
    FreeLines(value);
    FramedMarks("\n## " + f.heading + "\n\n", StartMark(f.name), "\n" + value + "\n", EndMark(f.name), p);
  }

  /** The markers of a text in which two markers are framed by texts without any. */
  lemma FramedMarks(head: string, s: string, mid: string, e: string, p: string)
    requires Free(head) && Free(mid) && IsMarker(s) && IsMarker(e) && IsMarker(p) && s != e
    ensures var text := head + (s + (mid + (e + "\n")));
            && (p == s ==> Once(text, p, |head|))
            && (p == e ==> Once(text, p, |head| + |s| + |mid|))
            && (p != s && p != e ==> Never(text, p))
  {
    FreeNever(head, p);
    FreeNever(mid, p);
    NoLessIsFree("\n");
    FreeNever("\n", p);
    MarkerOnce(s, p);
    MarkerOnce(e, p);
    OnceSplit(e, "\n", p, 0);
    OnceSplit(mid, e + "\n", p, 0);
    OnceSplit(s, mid + (e + "\n"), p, if p == s then 0 else |mid|);
    OnceSplit(head, s + (mid + (e + "\n")), p, if p == s then 0 else |s| + |mid|);
  }

  lemma FreeNever(text: string, p: string)
    requires Free(text) && IsMarker(p)
    ensures Never(text, p)
  {
    forall i
      ensures !At(text, p, i)
    {
      FreeHasNone(text, p, i);
    }
  }

  lemma MarkerOnce(m: string, p: string)
    requires IsMarker(m) && IsMarker(p)
    ensures if m == p then Once(m, p, 0) else Never(m, p)
  {
    forall i
      ensures At(m, p, i) <==> i == 0 && m == p
    {
      MarkerAt(m, p, i);
    }
  }

  /** No value that is rendered opens a marker, and the fields do not break any. */
  ghost predicate Sound(fields: seq<Field>, values: Values)
  {
    && (forall i :: 0 <= i < |fields| ==> GoodField(fields[i]))
    && (forall i, j :: 0 <= i < j < |fields| ==> fields[i].name != fields[j].name)
    && (forall name :: name in values ==> Free(values[name]))
  }

  ghost predicate Foreign(fields: seq<Field>, values: Values, p: string)
  {
    forall i :: 0 <= i < |fields| && Rendered(fields[i], values) ==>
      p != StartMark(fields[i].name) && p != EndMark(fields[i].name)
  }

  lemma SoundInit(fields: seq<Field>, values: Values)
    requires Sound(fields, values) && fields != []
    ensures Sound(fields[..|fields| - 1], values)
  {
  }

  lemma {:induction false} FieldsNever(fields: seq<Field>, values: Values, p: string)
    requires Sound(fields, values) && IsMarker(p) && Foreign(fields, values, p)
    ensures Never(FieldsText(fields, values), p)
    decreases |fields|
  {
    if fields != [] {
      var init, last := fields[..|fields| - 1], fields[|fields| - 1];
      SoundInit(fields, values);
      FieldsNever(init, values, p);
      if Rendered(last, values) {
        SectionMarks(last, values[last.name], p);
        OnceSplit(FieldsText(init, values), Section(last, values[last.name]), p, 0);
      } else {
        assert FieldsText(init, values) + "" == FieldsText(init, values);
      }
    }
  }

  function Lines(value: string): string
  {
    "\n" + value + "\n"
  }

  function Heading(f: Field): string
  {
    "\n## " + f.heading + "\n\n"
  }

  ghost predicate FieldPlacedAt(text: string, f: Field, value: string, at: int)
  {
    Placed(text, StartMark(f.name), EndMark(f.name), Lines(value), at)
  }

  lemma SectionPlaced(f: Field, value: string)
    requires GoodField(f) && Free(value)
    ensures FieldPlacedAt(Section(f, value), f, value, |Heading(f)|)
  {
    FieldMarks(f.name);
    SectionMarks(f, value, StartMark(f.name));
    SectionMarks(f, value, EndMark(f.name));
    Middle(Heading(f), StartMark(f.name), Lines(value), EndMark(f.name) + "\n");
  }

  lemma Middle(a: string, b: string, c: string, d: string)
    ensures (a + (b + (c + d)))[|a| + |b|..|a| + |b| + |c|] == c
  {
    assert a + (b + (c + d)) == (a + b) + c + d;
  }

  lemma {:induction false} FieldPlaced(fields: seq<Field>, values: Values, k: int) returns (at: int)
    requires Sound(fields, values) && 0 <= k < |fields| && Rendered(fields[k], values)
    ensures FieldPlacedAt(FieldsText(fields, values), fields[k], values[fields[k].name], at)
    decreases |fields|
  {
    var init, last := fields[..|fields| - 1], fields[|fields| - 1];
    SoundInit(fields, values);
    if k == |init| {
      LastPlaced(init, last, values);
      at := |FieldsText(init, values)| + |Heading(last)|;
    } else {
      at := FieldPlaced(init, values, k);
      if Rendered(last, values) {
        StaysPlaced(FieldsText(init, values), last, values[last.name], fields[k], values[fields[k].name], at);
      } else {
        assert FieldsText(init, values) + "" == FieldsText(init, values);
      }
    }
  }

  lemma LastPlaced(init: seq<Field>, f: Field, values: Values)
    requires Sound(init, values) && GoodField(f) && Rendered(f, values)
    requires forall i :: 0 <= i < |init| ==> init[i].name != f.name
    ensures FieldPlacedAt(FieldsText(init, values) + Section(f, values[f.name]), f, values[f.name],
                          |FieldsText(init, values)| + |Heading(f)|)
  {
    FieldMarks(f.name);
    NotAmong(init, values, f.name);
    SectionPlaced(f, values[f.name]);
    SectionAfter(FieldsText(init, values), f, values[f.name]);
  }

  lemma NotAmong(fields: seq<Field>, values: Values, name: string)
    requires Sound(fields, values) && Plain(name)
    requires forall i :: 0 <= i < |fields| && Rendered(fields[i], values) ==> fields[i].name != name
    ensures Never(FieldsText(fields, values), StartMark(name)) && Never(FieldsText(fields, values), EndMark(name))
  {
    FieldMarks(name);
    OtherFields(fields, values, name);
    FieldsNever(fields, values, StartMark(name));
    FieldsNever(fields, values, EndMark(name));
  }

  lemma SectionAfter(text: string, f: Field, value: string)
    requires GoodField(f) && Never(text, StartMark(f.name)) && Never(text, EndMark(f.name))
    requires FieldPlacedAt(Section(f, value), f, value, |Heading(f)|)
    ensures FieldPlacedAt(text + Section(f, value), f, value, |text| + |Heading(f)|)
  {
    FieldMarks(f.name);
    SectionFenced(text, f, value);
    PlacedAfter(text, Section(f, value), StartMark(f.name), EndMark(f.name), Lines(value), |Heading(f)|);
  }

  lemma SectionFenced(text: string, f: Field, value: string)
    ensures Fenced(text, Section(f, value))
  {
  }

  lemma StaysPlaced(text: string, last: Field, lastValue: string, f: Field, value: string, at: int)
    requires FieldPlacedAt(text, f, value, at) && GoodField(f) && GoodField(last) && Free(lastValue) && f.name != last.name
    ensures FieldPlacedAt(text + Section(last, lastValue), f, value, at)
  {
    FieldMarks(f.name);
    FieldMarksDiffer(f.name, last.name);
    FieldMarksDiffer(last.name, f.name);
    SectionMarks(last, lastValue, StartMark(f.name));
    SectionMarks(last, lastValue, EndMark(f.name));
    SectionFenced(text, last, lastValue);
    PlacedBefore(text, Section(last, lastValue), StartMark(f.name), EndMark(f.name), Lines(value), at);
  }

  lemma OtherFields(fields: seq<Field>, values: Values, name: string)
    requires forall i :: 0 <= i < |fields| && Rendered(fields[i], values) ==> fields[i].name != name
    ensures Foreign(fields, values, StartMark(name)) && Foreign(fields, values, EndMark(name))
  {
    forall i | 0 <= i < |fields| && Rendered(fields[i], values)
      ensures StartMark(name) != StartMark(fields[i].name) && StartMark(name) != EndMark(fields[i].name)
      ensures EndMark(name) != StartMark(fields[i].name) && EndMark(name) != EndMark(fields[i].name)
    {
      FieldMarksDiffer(name, fields[i].name);
      FieldMarksDiffer(fields[i].name, name);
    }
  }

  lemma NotInFront(name: string)
    requires Plain(name)
    ensures Never(MANAGED_START + "\n", StartMark(name)) && Never(MANAGED_START + "\n", EndMark(name))
  {
    FieldMarks(name);
    ManagedMarks();
    FieldMarksAside(name, Mark("", ""));
    MarkerOnce(MANAGED_START, StartMark(name));
    MarkerOnce(MANAGED_START, EndMark(name));
    NoLessIsFree("\n");
    FreeNever("\n", StartMark(name));
    FreeNever("\n", EndMark(name));
    OnceSplit(MANAGED_START, "\n", StartMark(name), 0);
    OnceSplit(MANAGED_START, "\n", EndMark(name), 0);
  }

  /** A field is in the managed block where it was rendered, or not at all. */
  lemma ManagedField(fields: seq<Field>, values: Values, k: int) returns (at: int)
    requires Sound(fields, values) && 0 <= k < |fields|
    ensures Rendered(fields[k], values) ==> FieldPlacedAt(Managed(fields, values), fields[k], values[fields[k].name], at)
    ensures !Rendered(fields[k], values) ==>
              Never(Managed(fields, values), StartMark(fields[k].name)) && Never(Managed(fields, values), EndMark(fields[k].name))
  {
    var f, text := fields[k], FieldsText(fields, values);
    FieldMarks(f.name);
    NotInFront(f.name);
    ManagedText(fields, values);
    if Rendered(f, values) {
      at := FieldPlaced(fields, values, k);
      PlacedAfter(MANAGED_START + "\n", text, StartMark(f.name), EndMark(f.name), Lines(values[f.name]), at);
      at := |MANAGED_START + "\n"| + at;
    } else {
      NotAmong(fields, values, f.name);
      OnceSplit(MANAGED_START + "\n", text, StartMark(f.name), 0);
      OnceSplit(MANAGED_START + "\n", text, EndMark(f.name), 0);
      at := 0;
    }
  }

  lemma ManagedText(fields: seq<Field>, values: Values)
    ensures Managed(fields, values) == MANAGED_START + "\n" + FieldsText(fields, values)
    ensures Fenced(MANAGED_START + "\n", FieldsText(fields, values))
  {
  }
}
