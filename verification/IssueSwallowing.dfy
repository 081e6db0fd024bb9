/**
 Managed issues whose issue marker has been moved into the managed block (cli/godo/issue.go):
 an update still accepts such a body, and writes the block anew without the marker.
 */
module IssueSwallowing {
  import opened IssueMarkers
  import opened IssueBodies
  import opened IssuePattern
  import opened IssueValues
  import opened IssueEditing
  import opened IssueUpdates

  /** A rendered block with an issue marker at its end. */
  function Marked(fields: seq<Field>, values: Values, m: Mark): string
  {
    Managed(fields, values) + IssueMark(m)
  }

  function Inside(front: string, fields: seq<Field>, values: Values, m: Mark, back: string): string
  {
    front + (Marked(fields, values, m) + (MANAGED_END + back))
  }

  lemma MarkAfter(fields: seq<Field>, values: Values, m: Mark)
    requires ValidMark(m)
    ensures IsMarker(IssueMark(m)) && Fenced(Managed(fields, values), IssueMark(m))
  {
    IssueMarks(m);
  }

  lemma {:induction false} MarkedGivesBack(fields: seq<Field>, values: Values, m: Mark, n: int)
    requires Sound(fields, values) && ValidMark(m) && 0 <= n <= |fields| && AllPlain(fields)
    ensures Extract(fields[..n], Marked(fields, values, m)) == Ok(Recovered(fields[..n], values))
    decreases n
  {
    if n > 0 {
      MarkedGivesBack(fields, values, m, n - 1);
      assert fields[..n][..n - 1] == fields[..n - 1];
      MarkedField(fields, values, m, n - 1);
    }
  }

  lemma MarkedField(fields: seq<Field>, values: Values, m: Mark, k: int)
    requires Sound(fields, values) && ValidMark(m) && 0 <= k < |fields| && Plain(fields[k].name)
    ensures ExtractField(Marked(fields, values, m), fields[k].name)
            == Ok(if Rendered(fields[k], values) then Some(Trim(values[fields[k].name])) else None)
  {
    var f := fields[k];
    var s, e, text := StartMark(f.name), EndMark(f.name), Managed(fields, values);
    var at := ManagedField(fields, values, k);
    FieldMarks(f.name);
    FieldMarksAside(f.name, m);
    MarkAfter(fields, values, m);
    MarkerOnce(IssueMark(m), s);
    MarkerOnce(IssueMark(m), e);
    if Rendered(f, values) {
      PlacedBefore(text, IssueMark(m), s, e, Lines(values[f.name]), at);
      PlacedIsExtracted(Marked(fields, values, m), f, values[f.name], at);
    } else {
      OnceSplit(text, IssueMark(m), s, 0);
      OnceSplit(text, IssueMark(m), e, 0);
      NeverIsNotExtracted(Marked(fields, values, m), f.name);
    }
  }

  lemma MarkedHas(fields: seq<Field>, values: Values, m: Mark)
    requires Sound(fields, values) && ValidMark(m)
    ensures Once(Marked(fields, values, m), MANAGED_START, 0) && Never(Marked(fields, values, m), MANAGED_END)
    ensures OnlyMark(Marked(fields, values, m), m, |Managed(fields, values)|)
  {
    var text, p := Managed(fields, values), IssueMark(m);
    ManagedMarks();
    IssueMarks(m);
    MarkAfter(fields, values, m);
    ManagedHas(fields, values);
    MarkerOnce(p, MANAGED_START);
    MarkerOnce(p, MANAGED_END);
    OnceSplit(text, p, MANAGED_START, 0);
    OnceSplit(text, p, MANAGED_END, 0);
    AtSplit(text, p, p, |text|);
    MarkerAt(p, p, 0);
    forall n, j
      ensures HasMark(Marked(fields, values, m), n, j) ==> j == |text|
    {
      if ValidMark(n) {
        IssueMarks(n);
        AtSplit(text, p, IssueMark(n), j);
        MarkerAt(p, IssueMark(n), j - |text|);
        assert !HasMark(text, n, j);
      }
    }
  }

  lemma OnceInside(front: string, text: string, back: string, i: int, start: bool)
    requires text != "" && text[0] == '<' && Blockless(front) && Blockless(back)
    requires if start then Once(text, MANAGED_START, i) else Never(text, MANAGED_END) && i == |text|
    ensures Once(front + (text + (MANAGED_END + back)), if start then MANAGED_START else MANAGED_END, |front| + i)
  {
    var p := if start then MANAGED_START else MANAGED_END;
    ManagedMarks();
    MarkerOnce(MANAGED_END, p);
    OnceSplit(MANAGED_END, back, p, 0);
    OnceSplit(text, MANAGED_END + back, p, if start then i else 0);
    OnceSplit(front, text + (MANAGED_END + back), p, i);
  }

  lemma InsideIndexed(front: string, fields: seq<Field>, values: Values, m: Mark, back: string)
    requires Sound(fields, values) && ValidMark(m) && Blockless(front) && Blockless(back)
    ensures MANAGED_START != "" && MANAGED_END != ""
    ensures var body := Inside(front, fields, values, m, back);
            && Index(body, MANAGED_START) == |front| && Count(body, MANAGED_START) == 1
            && Index(body, MANAGED_END) == |front| + |Marked(fields, values, m)| && Count(body, MANAGED_END) == 1
  {
    var text, body := Marked(fields, values, m), Inside(front, fields, values, m, back);
    ManagedMarks();
    MarkedHas(fields, values, m);
    OnceInside(front, text, back, 0, true);
    OnceInside(front, text, back, |text|, false);
    OnceIndex(body, MANAGED_START, |front|);
    OnceIndex(body, MANAGED_END, |front| + |text|);
  }

  lemma MarkInMiddle(front: string, text: string, back: string, m: Mark, j: int)
    requires text != "" && text[0] == '<'
    ensures HasMark(front + (text + (MANAGED_END + back)), m, j)
            <==> HasMark(front, m, j) || HasMark(text, m, j - |front|) || HasMark(back, m, j - |front| - |text| - |MANAGED_END|)
  {
    if ValidMark(m) {
      var p := IssueMark(m);
      IssueMarks(m);
      ManagedMarks();
      MarkerOnce(MANAGED_END, p);
      AtSplit(front, text + (MANAGED_END + back), p, j);
      AtSplit(text, MANAGED_END + back, p, j - |front|);
      AtSplit(MANAGED_END, back, p, j - |front| - |text|);
    }
  }

  lemma InsideMarked(front: string, fields: seq<Field>, values: Values, m: Mark, back: string)
    requires Sound(fields, values) && ValidMark(m) && NoMark(front) && NoMark(back)
    ensures FindMarks(Inside(front, fields, values, m, back)) == [m]
  {
    var text, body, k := Marked(fields, values, m), Inside(front, fields, values, m, back), |front| + |Managed(fields, values)|;
    MarkedHas(fields, values, m);
    forall n, j
      ensures HasMark(body, n, j) <==> HasMark(text, n, j - |front|)
    {
      assert !HasMark(front, n, j) && !HasMark(back, n, j - |front| - |text| - |MANAGED_END|);
      MarkInMiddle(front, text, back, n, j);
    }
    assert HasMark(text, m, k - |front|);
    assert OnlyMark(body, m, k);
    FindsOne(body, m);
  }

  lemma BlockHasMark(front: string, fields: seq<Field>, values: Values, m: Mark, back: string)
    requires Sound(fields, values) && ValidMark(m) && Blockless(front) && Blockless(back)
    ensures !NoMark(BlockOf(Inside(front, fields, values, m, back)))
  {
    var text, body := Marked(fields, values, m), Inside(front, fields, values, m, back);
    InsideIndexed(front, fields, values, m, back);
    PartsFound(front, text, back);
    MarkedHas(fields, values, m);
    ManagedMarks();
    IssueMarks(m);
    assert BlockOf(body) == text + MANAGED_END;
    AtSplit(text, MANAGED_END, IssueMark(m), |Managed(fields, values)|);
    assert HasMark(text + MANAGED_END, m, |Managed(fields, values)|);
  }

  lemma InsideReplaced(t: Template, front: string, values: Values, m: Mark, back: string, changes: Values, space: char -> bool)
    requires GoodTemplate(t) && AllPlain(t.fields) && ValidMark(m) && Sound(t.fields, values)
    requires Blockless(front) && Blockless(back)
    ensures UpdateBlock(t, Inside(front, t.fields, values, m, back), changes, space)
            == Replaced(t, front, Recovered(t.fields, values), back, changes, space)
  {
    var text, body := Marked(t.fields, values, m), Inside(front, t.fields, values, m, back);
    InsideIndexed(front, t.fields, values, m, back);
    PartsFound(front, text, back);
    MarkedGivesBack(t.fields, values, m, |t.fields|);
    assert t.fields[..|t.fields|] == t.fields;
    PartsUpdated(t, body, |front|, |front| + |text|, |MANAGED_END|, front, text, back, changes, space);
  }

  /**
   A body whose issue marker is inside its block is updated like one that has it in front,
   but the result has no issue marker any more, so the next update refuses it.
   */
  lemma MarkerIsSwallowed(templates: seq<Template>, t: Template, front: string, values: Values, back: string, changes: Values,
                          space: char -> bool)
    requires GoodTemplates(templates) && FindTemplate(templates, t.id) == Some(t)
    requires Sound(t.fields, values) && Blockless(front) && Blockless(back) && NoMark(front) && NoMark(back)
    ensures var first := Update(templates, Inside(front, t.fields, values, Mark(t.id, "1"), back), changes, space);
            && first == Replaced(t, front, Recovered(t.fields, values), back, changes, space)
            && (first.Ok? ==> Update(templates, first.value, changes, space) == Err(Ambiguous))
  {
    var m := Mark(t.id, "1");
    FoundIsGood(templates, t.id);
    var body := Inside(front, t.fields, values, m, back);
    InsideMarked(front, t.fields, values, m, back);
    InsideIndexed(front, t.fields, values, m, back);
    InsideReplaced(t, front, values, m, back, changes, space);
    var first := Update(templates, body, changes, space);
    assert first == UpdateBlock(t, body, changes, space);
    if first.Ok? {
      BlockHasMark(front, t.fields, values, m, back);
      UpdatingTwice(templates, body, changes, space, first.value);
    }
  }

  // -------------------------------------------------------------------------------- an example

  lemma {:induction false} SizeBound(s: string)
    ensures Size(s) <= 4 * |s|
    decreases |s|
  {
    if s != "" {
      SizeBound(s[..|s| - 1]);
    }
  }

  function RequiredNames(fields: seq<Field>): set<string>
  {
    set f | f in fields && f.required :: f.name
  }

  /** One character for every required field. */
  function Brief(fields: seq<Field>, c: char): Values
  {
    map name | name in RequiredNames(fields) :: [c]
  }

  lemma BriefRecovered(t: Template, c: char)
    requires GoodTemplate(t) && c != '\n'
    ensures Recovered(t.fields, Brief(t.fields, c)) == Brief(t.fields, c)
  {
    var values := Brief(t.fields, c);
    assert TrimLeft([c]) == [c] && TrimRight([c]) == [c];
    forall name
      ensures name in Recovered(t.fields, values) <==> name in values
      ensures name in Recovered(t.fields, values) ==> Recovered(t.fields, values)[name] == [c]
    {
      RecoveredAt(t.fields, values, name);
      if name in values {
        var f :| f in t.fields && f.required && f.name == name;
        var i :| 0 <= i < |t.fields| && t.fields[i] == f;
        assert t.fields[i].name == name && Rendered(t.fields[i], values);
      }
    }
  }

  lemma BriefAccepted(t: Template, c: char, space: char -> bool)
    requires GoodTemplate(t) && TextCharacter(c) && c != '<' && !space(c)
    ensures Accepted(t.fields, Brief(t.fields, c), true, space)
  {
    var values := Brief(t.fields, c);
    NoLessIsFree([c]);
    assert !Blank([c], space) by {
      assert [c][0] == c;
    }
    forall name | name in values
      ensures GoodValue(t.fields, name, values[name])
    {
      var f :| f in t.fields && f.required && f.name == name;
      var i :| 0 <= i < |t.fields| && t.fields[i] == f;
      assert t.fields[i].name == name;
    }
    forall i | 0 <= i < |t.fields| && t.fields[i].required
      ensures t.fields[i].name in values
    {
      assert t.fields[i] in t.fields;
    }
  }

  /** Names and headings that leave room for all fields with values of one character. */
  predicate Short(f: Field)
  {
    |f.name| + |f.heading| <= 1000
  }

  lemma {:induction false} FieldsLength(fields: seq<Field>, values: Values)
    requires forall name :: name in values ==> |values[name]| == 1
    requires forall i :: 0 <= i < |fields| ==> Short(fields[i])
    ensures |FieldsText(fields, values)| <= 2500 * |fields|
    decreases |fields|
  {
    if fields != [] {
      FieldsLength(fields[..|fields| - 1], values);
    }
  }

  /**
   In every template there is such a body that is accepted, with one character in every
   required field, after whose update the issue is no managed one any more.
   */
  lemma SwallowingOccurs(templates: seq<Template>, t: Template, c: char, space: char -> bool)
    requires GoodTemplates(templates) && FindTemplate(templates, t.id) == Some(t)
    requires |t.fields| <= 6 && forall i :: 0 <= i < |t.fields| ==> Short(t.fields[i])
    requires TextCharacter(c) && c != '<' && c != '\n' && !space(c)
    ensures var values := Brief(t.fields, c);
            var first := Update(templates, Inside("", t.fields, values, Mark(t.id, "1"), ""), map[], space);
            first == Ok(Around("", t.fields, values, "")) && Update(templates, first.value, map[], space) == Err(Ambiguous)
  {
    var values := Brief(t.fields, c);
    FoundIsGood(templates, t.id);
    BriefRecovered(t, c);
    BriefAccepted(t, c, space);
    AcceptedIsSound(t, values, true, space);
    FieldsLength(t.fields, values);
    SizeBound(Around("", t.fields, values, ""));
    NoLessIsFree("");
    FreeHasNoMark("");
    assert values + map[] == values;
    assert Accepted(t.fields, map[], false, space);
    MarkerIsSwallowed(templates, t, "", values, "", map[], space);
  }

  // ------------------------------------------------------------------------ the bug template

  /** The template for reports of incorrect behaviour. */
  const BUG: Template := Template("bug", [
    Field("observed", "Observed behavior", true),
    Field("expected", "Expected behavior", true),
    Field("reproduce", "Reproduction", true),
    Field("area", "Area", false),
    Field("environment", "Environment", false),
    Field("evidence", "Evidence", false)])

  lemma ObservedField()
    ensures GoodField(BUG.fields[0]) && Short(BUG.fields[0])
  {
  }

  lemma ExpectedField()
    ensures GoodField(BUG.fields[1]) && Short(BUG.fields[1])
  {
  }

  lemma MiddleFields()
    ensures GoodField(BUG.fields[2]) && Short(BUG.fields[2]) && GoodField(BUG.fields[3]) && Short(BUG.fields[3])
  {
  }

  lemma LastFields()
    ensures GoodField(BUG.fields[4]) && Short(BUG.fields[4]) && GoodField(BUG.fields[5]) && Short(BUG.fields[5])
  {
  }

  lemma BugNames()
    ensures forall i, j :: 0 <= i < j < 6 ==> BUG.fields[i].name != BUG.fields[j].name
  {
    var f := BUG.fields;
    assert |f[0].name| == |f[1].name| == |f[5].name| == 8 && |f[2].name| == 9 && |f[3].name| == 4 && |f[4].name| == 11;
    assert f[0].name[0] == 'o' && f[1].name[0] == 'e' && f[5].name[0] == 'e' && f[1].name[1] == 'x' && f[5].name[1] == 'v';
  }

  lemma BugIsGood()
    ensures GoodTemplate(BUG) && forall i :: 0 <= i < |BUG.fields| ==> Short(BUG.fields[i])
  {
    ObservedField();
    ExpectedField();
    MiddleFields();
    LastFields();
    BugNames();
  }

  lemma BugSwallows(space: char -> bool)
    requires !space('x')
    ensures GoodTemplates([BUG])
    ensures var first := Update([BUG], Inside("", BUG.fields, Brief(BUG.fields, 'x'), Mark("bug", "1"), ""), map[], space);
            first.Ok? && Update([BUG], first.value, map[], space) == Err(Ambiguous)
  {
    BugIsGood();
    SwallowingOccurs([BUG], BUG, 'x', space);
  }
}
