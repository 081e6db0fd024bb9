/**
 What is written for an issue, letter by letter, and how an update of any body is answered.
 */
module IssueAnswers {
  import opened IssueMarkers
  import opened IssueBodies
  import opened IssuePattern
  import opened IssueValues
  import opened IssueEditing
  import opened IssueUpdates

  // ----------------------------------------------------------------------- written out

  lemma MarkersWritten(name: string, m: Mark)
    ensures StartMark(name) == "<!-- godo:field:" + name + ":start -->"
    ensures EndMark(name) == "<!-- godo:field:" + name + ":end -->"
    ensures IssueMark(m) == "<!-- godo:issue template=" + m.id + " version=" + m.version + " -->"
    ensures MANAGED_START == "<!-- godo:managed:start -->" && MANAGED_END == "<!-- godo:managed:end -->"
  {
    FieldWritten(name);
    EndWritten(name);
    MarkWritten(m);
  }

  lemma FieldWritten(name: string)
    ensures StartMark(name) == "<!-- godo:field:" + name + ":start -->"
  {
  }

  lemma EndWritten(name: string)
    ensures EndMark(name) == "<!-- godo:field:" + name + ":end -->"
  {
  }

  lemma MarkWritten(m: Mark)
    ensures IssueMark(m) == "<!-- godo:issue template=" + m.id + " version=" + m.version + " -->"
  {
  }

  /** The lines of one field. */
  function SectionText(f: Field, value: string): string
  {
    "\n## " + f.heading + "\n\n" + StartMark(f.name) + "\n" + value + "\n" + EndMark(f.name) + "\n"
  }

  lemma SectionWritten(f: Field, value: string)
    ensures Section(f, value) == SectionText(f, value)
  {
    var head, s, e := "\n## " + f.heading + "\n\n", StartMark(f.name), EndMark(f.name);
    FivePieces(head, s, "\n" + value + "\n", e, "\n");
    assert head + s + ("\n" + value + "\n") + e + "\n" == head + s + "\n" + value + "\n" + e + "\n";
  }

  lemma FivePieces(a: string, b: string, c: string, d: string, e: string)
    ensures a + (b + (c + (d + e))) == a + b + c + d + e
  {
  }

  /** Which fields are written: those with a value, and required ones even without. */
  predicate Shown(f: Field, values: Values)
  {
    f.name in values && (f.required || values[f.name] != "")
  }

  function Part(f: Field, values: Values): string
  {
    if Shown(f, values) then SectionText(f, values[f.name]) else ""
  }

  /** The sections of the shown fields, in the template's order. */
  function Sections(fields: seq<Field>, values: Values): string
    decreases |fields|
  {
    if fields == [] then "" else Part(fields[0], values) + Sections(fields[1..], values)
  }

  lemma {:induction false} SectionsLast(fields: seq<Field>, last: Field, values: Values)
    ensures Sections(fields + [last], values) == Sections(fields, values) + Part(last, values)
    decreases |fields|
  {
    var all := fields + [last];
    if fields == [] {
      assert all[1..] == [];
      NoText(Part(last, values));
    } else {
      assert all[1..] == fields[1..] + [last];
      SectionsLast(fields[1..], last, values);
      Grouped(Part(fields[0], values), Sections(fields[1..], values), Part(last, values));
    }
  }

  lemma NoText(a: string)
    ensures a + "" == a && "" + a == a
  {
  }

  lemma Grouped(a: string, b: string, c: string)
    ensures a + (b + c) == (a + b) + c
  {
  }

  lemma {:induction false} FieldsWritten(fields: seq<Field>, values: Values)
    ensures FieldsText(fields, values) == Sections(fields, values)
    decreases |fields|
  {
    if fields != [] {
      var init, last := fields[..|fields| - 1], fields[|fields| - 1];
      FieldsWritten(init, values);
      SectionsLast(init, last, values);
      assert fields == init + [last];
      if Shown(last, values) {
        SectionWritten(last, values[last.name]);
      }
    }
  }

  /** The whole body of a new issue. */
  lemma BodyWritten(t: Template, values: Values, space: char -> bool)
    requires Render(t, values, space).Ok?
    ensures Render(t, values, space).value
            == IssueMark(Mark(t.id, "1")) + "\n" + MANAGED_START + "\n" + Sections(t.fields, values) + MANAGED_END + "\n"
  {
    FieldsWritten(t.fields, values);
    SixPieces(IssueMark(Mark(t.id, "1")), "\n", MANAGED_START, Sections(t.fields, values), MANAGED_END);
  }

  lemma SixPieces(mark: string, br: string, start: string, sections: string, end: string)
    ensures (mark + br) + ((start + (br + sections)) + (end + br)) == mark + br + start + br + sections + end + br
  {
    assert start + (br + sections) == start + br + sections;
    assert (mark + br) + ((start + br + sections) + (end + br)) == mark + br + (start + br + sections) + (end + br);
    assert mark + br + (start + br + sections) == mark + br + start + br + sections;
    assert mark + br + start + br + sections + (end + br) == mark + br + start + br + sections + end + br;
  }

  // -------------------------------------------------------------------- how a field is read

  /** The marker is there more than once. */
  ghost predicate Twice(text: string, p: string)
  {
    exists i, j :: i != j && At(text, p, i) && At(text, p, j)
  }

  lemma TwiceCounted(text: string, p: string)
    requires IsMarker(p)
    ensures Twice(text, p) <==> Count(text, p) > 1
  {
    CountNone(text, p);
    CountOnce(text, p);
    if !Twice(text, p) && !Never(text, p) {
      var i :| At(text, p, i);
      assert Once(text, p, i);
      OnceIndex(text, p, i);
    }
  }

  lemma MarkerFound(text: string, p: string)
    requires IsMarker(p)
    ensures Twice(text, p) <==> Count(text, p) > 1
    ensures Never(text, p) <==> Index(text, p) < 0
    ensures !Twice(text, p) && !Never(text, p) ==> Once(text, p, Index(text, p))
  {
    TwiceCounted(text, p);
    CountNone(text, p);
    CountOnce(text, p);
  }

  /** What a field's markers, found at two places if at all, make of it. */
  ghost function Between(managed: string, s: string, e: string, i: int, j: int): Result<Option<string>>
  {
    if Twice(managed, s) || Twice(managed, e) then Err(DuplicateMarkers)
    else if Never(managed, s) && Never(managed, e) then Ok(None)
    else if Never(managed, s) || Never(managed, e) || j < i || !(0 <= i + |s| <= j <= |managed|) then Err(BadMarkers)
    else Ok(Some(Trim(managed[i + |s|..j])))
  }

  /** The field's markers are each there at most once; its value is what is between them, up to line breaks at its ends. */
  lemma FieldAnswers(managed: string, name: string)
    requires Plain(name)
    ensures ExtractField(managed, name)
            == Between(managed, StartMark(name), EndMark(name), Index(managed, StartMark(name)), Index(managed, EndMark(name)))
  {
    FieldMarks(name);
    MarkerFound(managed, StartMark(name));
    MarkerFound(managed, EndMark(name));
    if 0 <= Index(managed, StartMark(name)) <= Index(managed, EndMark(name)) {
      StartBeforeEnd(managed, name);
    }
  }

  /** A start marker before an end marker ends before it, so there always is a text between them. */
  lemma RoomBetween(managed: string, name: string)
    requires Plain(name) && 0 <= Index(managed, StartMark(name)) <= Index(managed, EndMark(name))
    ensures Index(managed, StartMark(name)) + |StartMark(name)| <= Index(managed, EndMark(name)) <= |managed|
  {
    StartBeforeEnd(managed, name);
  }

  /** The template is the first one with the marker's name. */
  lemma {:induction false} TemplateFound(templates: seq<Template>, id: string)
    ensures FindTemplate(templates, id).None? <==> forall i :: 0 <= i < |templates| ==> templates[i].id != id
    ensures FindTemplate(templates, id).Some? ==>
              exists i :: 0 <= i < |templates| && templates[i] == FindTemplate(templates, id).value && templates[i].id == id
                          && forall j :: 0 <= j < i ==> templates[j].id != id
  {
    if templates != [] && templates[0].id != id {
      TemplateFound(templates[1..], id);
      assert forall i :: 0 < i < |templates| ==> templates[i] == templates[1..][i - 1];
      if FindTemplate(templates, id).Some? {
        var i :| 0 <= i < |templates| - 1 && templates[1..][i] == FindTemplate(templates, id).value && templates[1..][i].id == id
                 && forall j :: 0 <= j < i ==> templates[1..][j].id != id;
        assert templates[i + 1] == FindTemplate(templates, id).value;
        assert forall j :: 0 < j < i + 1 ==> templates[j] == templates[1..][j - 1];
      }
    }
  }

  // ------------------------------------------------------------------ how an update answers

  ghost predicate OneMark(body: string)
  {
    exists m, i :: OnlyMark(body, m, i)
  }

  lemma OneMarkFound(body: string)
    ensures |FindMarks(body)| == 1 <==> OneMark(body)
  {
    if m, i :| OnlyMark(body, m, i) {
      FindsOne(body, m);
    }
    if |FindMarks(body)| == 1 {
      FindsOne(body, FindMarks(body)[0]);
    }
  }

  lemma OnceFound(text: string, p: string)
    requires IsMarker(p)
    ensures Count(text, p) == 1 <==> exists i :: Once(text, p, i)
  {
    CountOnce(text, p);
    if i :| Once(text, p, i) {
      OnceIndex(text, p, i);
    }
  }

  lemma {:induction false} ExtractNeverAmbiguous(fields: seq<Field>, managed: string)
    requires AllPlain(fields)
    ensures Extract(fields, managed) != Err(Ambiguous)
    decreases |fields|
  {
    if fields != [] {
      ExtractNeverAmbiguous(fields[..|fields| - 1], managed);
    }
  }

  /** What an update makes of a body's parts; the end marker has length n. */
  ghost function PartsAnswer(t: Template, body: string, start: int, end: int, n: nat, changes: Values, space: char -> bool): Result<string>
    requires AllPlain(t.fields) && 0 <= start && 0 <= end && end + n <= |body|
  {
    if end < start then Err(BadBlock)
    else
      match Extract(t.fields, body[start..end])
      case Err(problem) => Err(problem)
      case Ok(values) => Replaced(t, body[..start], values, body[end + n..], changes, space)
  }

  lemma PartsAnswered(t: Template, body: string, start: int, end: int, n: nat, changes: Values, space: char -> bool)
    requires AllPlain(t.fields) && 0 <= start <= end && end + n <= |body|
    ensures UpdateAt(t, body, start, end, n, changes, space) == PartsAnswer(t, body, start, end, n, changes, space)
  {
  }

  lemma BlockAnswers(t: Template, body: string, start: int, end: int, changes: Values, space: char -> bool)
    requires AllPlain(t.fields) && Index(body, MANAGED_START) == start && Index(body, MANAGED_END) == end
    requires 0 <= start && 0 <= end && end + |MANAGED_END| <= |body|
    ensures UpdateBlock(t, body, changes, space) == PartsAnswer(t, body, start, end, |MANAGED_END|, changes, space)
  {
    if start <= end {
      PartsAnswered(t, body, start, end, |MANAGED_END|, changes, space);
    }
  }

  /** Where it is not, the marker's version and template decide, then the order of the block's markers, then its fields. */
  lemma UpdateAnswers(templates: seq<Template>, body: string, changes: Values, space: char -> bool, m: Mark, at: int, start: int, end: int)
    requires GoodTemplates(templates)
    requires OnlyMark(body, m, at) && Once(body, MANAGED_START, start) && Once(body, MANAGED_END, end)
    ensures 0 <= start && 0 <= end && end + |MANAGED_END| <= |body|
    ensures FindTemplate(templates, m.id).Some? ==> AllPlain(FindTemplate(templates, m.id).value.fields)
    ensures Update(templates, body, changes, space)
            == if m.version != "1" then Err(Unsupported)
               else if FindTemplate(templates, m.id).None? then Err(UnknownTemplate)
               else PartsAnswer(FindTemplate(templates, m.id).value, body, start, end, |MANAGED_END|, changes, space)
  {
    ManagedMarks();
    FindsOne(body, m);
    OnceIndex(body, MANAGED_START, start);
    OnceIndex(body, MANAGED_END, end);
    if FindTemplate(templates, m.id).Some? {
      FoundIsGood(templates, m.id);
      BlockAnswers(FindTemplate(templates, m.id).value, body, start, end, changes, space);
    }
  }

  lemma DefiniteAnswer(templates: seq<Template>, body: string, changes: Values, space: char -> bool, m: Mark, at: int, start: int, end: int)
    requires GoodTemplates(templates)
    requires OnlyMark(body, m, at) && Once(body, MANAGED_START, start) && Once(body, MANAGED_END, end)
    ensures Update(templates, body, changes, space) != Err(Ambiguous)
  {
    UpdateAnswers(templates, body, changes, space, m, at, start, end);
    if m.version == "1" && FindTemplate(templates, m.id).Some? && start <= end {
      var t := FindTemplate(templates, m.id).value;
      var front, managed, back := body[..start], body[start..end], body[end + |MANAGED_END|..];
      ExtractNeverAmbiguous(t.fields, managed);
      var values := Extract(t.fields, managed);
      if values.Ok? {
        ReplacedNeverAmbiguous(t, front, values.value, back, changes, space);
      }
    }
  }

  lemma ReplacedNeverAmbiguous(t: Template, front: string, values: Values, back: string, changes: Values, space: char -> bool)
    ensures Replaced(t, front, values, back, changes, space) != Err(Ambiguous)
  {
  }

  lemma IndefiniteAnswer(templates: seq<Template>, body: string, changes: Values, space: char -> bool)
    requires GoodTemplates(templates) && MANAGED_START != "" && MANAGED_END != ""
    requires |FindMarks(body)| != 1 || Count(body, MANAGED_START) != 1 || Count(body, MANAGED_END) != 1
    ensures Update(templates, body, changes, space) == Err(Ambiguous)
  {
  }

  /** A body is ambiguous exactly when it has not one issue marker, one start and one end. */
  lemma AmbiguousExactly(templates: seq<Template>, body: string, changes: Values, space: char -> bool)
    requires GoodTemplates(templates)
    ensures Update(templates, body, changes, space) == Err(Ambiguous)
            <==> !OneMark(body) || !(exists i :: Once(body, MANAGED_START, i)) || !(exists i :: Once(body, MANAGED_END, i))
  {
    ManagedMarks();
    OneMarkFound(body);
    OnceFound(body, MANAGED_START);
    OnceFound(body, MANAGED_END);
    if OneMark(body) && (exists i :: Once(body, MANAGED_START, i)) && exists i :: Once(body, MANAGED_END, i) {
      var m, at :| OnlyMark(body, m, at);
      var start :| Once(body, MANAGED_START, start);
      var end :| Once(body, MANAGED_END, end);
      DefiniteAnswer(templates, body, changes, space, m, at, start, end);
    } else {
      IndefiniteAnswer(templates, body, changes, space);
    }
  }

  // ------------------------------------------------------------------- texts and their size

  /** Allowed characters: tabs, line breaks, and everything from the space on. */
  lemma CharacterRules(c: char)
    ensures TextCharacter(c) <==> c as int == 9 || c as int == 10 || c as int >= 32
  {
  }

  /** A body is measured in bytes of UTF-8. */
  lemma SizeRules(s: string, c: char)
    ensures Size("") == 0
    ensures Size(s + [c]) == Size(s) + (if c as int <= 127 then 1 else if c as int <= 2047 then 2 else if c as int <= 65535 then 3 else 4)
  {
    assert (s + [c])[..|s|] == s;
  }

  /** Values are accepted exactly if every field they name is one of the template's, and required ones are not blank. */
  lemma AcceptedRules(fields: seq<Field>, values: Values, requireAll: bool, space: char -> bool)
    ensures Accepted(fields, values, requireAll, space) <==>
              && (forall name :: name in values ==>
                    && (exists i :: 0 <= i < |fields| && fields[i].name == name)
                    && (forall k :: 0 <= k < |values[name]| ==>
                          var code := values[name][k] as int; code == 9 || code == 10 || code >= 32)
                    && (forall k :: !At(values[name], "<!-- godo:", k)))
              && (requireAll ==> forall i :: 0 <= i < |fields| && fields[i].required ==>
                    fields[i].name in values && exists k :: 0 <= k < |values[fields[i].name]| && !space(values[fields[i].name][k]))
  {
    forall name | name in values
      ensures GoodValue(fields, name, values[name]) <==>
                && (exists i :: 0 <= i < |fields| && fields[i].name == name)
                && (forall k :: 0 <= k < |values[name]| ==>
                      var code := values[name][k] as int; code == 9 || code == 10 || code >= 32)
                && (forall k :: !At(values[name], "<!-- godo:", k))
    {
      ValueRules(fields, name, values[name]);
    }
  }

  lemma ValueRules(fields: seq<Field>, name: string, value: string)
    ensures GoodValue(fields, name, value) <==>
              && (exists i :: 0 <= i < |fields| && fields[i].name == name)
              && (forall k :: 0 <= k < |value| ==> var code := value[k] as int; code == 9 || code == 10 || code >= 32)
              && (forall k :: !At(value, "<!-- godo:", k))
  {
  }
}
