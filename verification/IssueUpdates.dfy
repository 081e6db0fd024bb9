/**
 What updating a managed issue (cli/godo/issue.go) does to its body.
 */
module IssueUpdates {
  import opened IssueMarkers
  import opened IssueBodies
  import opened IssuePattern
  import opened IssueValues
  import opened IssueEditing

  // ------------------------------------------------------------------------ where the block is

  lemma ManagedHas(fields: seq<Field>, values: Values)
    requires Sound(fields, values)
    ensures Once(Managed(fields, values), MANAGED_START, 0) && Never(Managed(fields, values), MANAGED_END)
    ensures forall m, i :: !HasMark(Managed(fields, values), m, i)
  {
    ManagedMarks();
    forall i | 0 <= i < |fields|
      ensures MANAGED_START != StartMark(fields[i].name) && MANAGED_START != EndMark(fields[i].name)
      ensures MANAGED_END != StartMark(fields[i].name) && MANAGED_END != EndMark(fields[i].name)
    {
      FieldMarksAside(fields[i].name, Mark("", ""));
    }
    FieldsNever(fields, values, MANAGED_START);
    FieldsNever(fields, values, MANAGED_END);
    ManagedFront(MANAGED_START, FieldsText(fields, values));
    ManagedFront(MANAGED_END, FieldsText(fields, values));
    forall m, i
      ensures !HasMark(Managed(fields, values), m, i)
    {
      if ValidMark(m) {
        ManagedHasNoMark(fields, values, m);
      }
    }
  }

  lemma ManagedFront(p: string, text: string)
    requires IsMarker(p) && Never(text, p)
    ensures p == MANAGED_START ==> Once(MANAGED_START + ("\n" + text), p, 0)
    ensures p != MANAGED_START ==> Never(MANAGED_START + ("\n" + text), p)
  {
    ManagedMarks();
    MarkerOnce(MANAGED_START, p);
    NoLessIsFree("\n");
    FreeNever("\n", p);
    OnceSplit("\n", text, p, 0);
    OnceSplit(MANAGED_START, "\n" + text, p, 0);
  }

  lemma ManagedHasNoMark(fields: seq<Field>, values: Values, m: Mark)
    requires Sound(fields, values) && ValidMark(m)
    ensures Never(Managed(fields, values), IssueMark(m))
  {
    IssueMarks(m);
    forall i | 0 <= i < |fields|
      ensures IssueMark(m) != StartMark(fields[i].name) && IssueMark(m) != EndMark(fields[i].name)
    {
      FieldMarksAside(fields[i].name, m);
    }
    FieldsNever(fields, values, IssueMark(m));
    ManagedFront(IssueMark(m), FieldsText(fields, values));
  }

  /** The three parts of a body with a block are where they were put. */
  lemma PartsFound(front: string, managed: string, back: string)
    ensures var body := front + (managed + (MANAGED_END + back));
            && |body| == |front| + |managed| + |MANAGED_END| + |back|
            && body[..|front|] == front && body[|front|..|front| + |managed|] == managed
            && body[|front| + |managed| + |MANAGED_END|..] == back
  {
    var body := front + (managed + (MANAGED_END + back));
    assert body == front + managed + MANAGED_END + back;
  }

  lemma BlockFound(front: string, fields: seq<Field>, values: Values, back: string)
    requires Sound(fields, values) && Blockless(front) && Blockless(back)
    ensures var body := Around(front, fields, values, back);
            Once(body, MANAGED_START, |front|) && Once(body, MANAGED_END, |front| + |Managed(fields, values)|)
  {
    ManagedMarks();
    ManagedHas(fields, values);
    var managed := Managed(fields, values);
    MarkerOnce(MANAGED_END, MANAGED_START);
    MarkerOnce(MANAGED_END, MANAGED_END);
    OnceSplit(MANAGED_END, back, MANAGED_START, 0);
    OnceSplit(MANAGED_END, back, MANAGED_END, 0);
    OnceSplit(managed, MANAGED_END + back, MANAGED_START, 0);
    OnceSplit(managed, MANAGED_END + back, MANAGED_END, 0);
    OnceSplit(front, managed + (MANAGED_END + back), MANAGED_START, 0);
    OnceSplit(front, managed + (MANAGED_END + back), MANAGED_END, |managed|);
  }

  lemma BlockIndexed(front: string, fields: seq<Field>, values: Values, back: string)
    requires Sound(fields, values) && Blockless(front) && Blockless(back)
    ensures MANAGED_START != "" && MANAGED_END != ""
    ensures var body := Around(front, fields, values, back);
            && Index(body, MANAGED_START) == |front| && Count(body, MANAGED_START) == 1
            && Index(body, MANAGED_END) == |front| + |Managed(fields, values)| && Count(body, MANAGED_END) == 1
  {
    ManagedMarks();
    BlockFound(front, fields, values, back);
    OnceIndex(Around(front, fields, values, back), MANAGED_START, |front|);
    OnceIndex(Around(front, fields, values, back), MANAGED_END, |front| + |Managed(fields, values)|);
  }

  /** The issue markers of a body are those outside its block. */
  lemma MarksAround(front: string, fields: seq<Field>, values: Values, back: string, m: Mark, i: int)
    requires Sound(fields, values)
    ensures var k := |front| + |Managed(fields, values)| + |MANAGED_END|;
            HasMark(Around(front, fields, values, back), m, i) <==> HasMark(front, m, i) || HasMark(back, m, i - k)
  {
    if ValidMark(m) {
      var p, managed := IssueMark(m), Managed(fields, values);
      IssueMarks(m);
      ManagedMarks();
      ManagedHasNoMark(fields, values, m);
      MarkerOnce(MANAGED_END, p);
      AtSplit(front, managed + (MANAGED_END + back), p, i);
      AtSplit(managed, MANAGED_END + back, p, i - |front|);
      AtSplit(MANAGED_END, back, p, i - |front| - |managed|);
    }
  }

  lemma AroundMarked(front: string, fields: seq<Field>, values: Values, back: string, m: Mark)
    requires Sound(fields, values) && MarkedOnce(front, back, m)
    ensures FindMarks(Around(front, fields, values, back)) == [m]
  {
    var body, k := Around(front, fields, values, back), |front| + |Managed(fields, values)| + |MANAGED_END|;
    forall n, j
      ensures HasMark(body, n, j) <==> HasMark(front, n, j) || HasMark(back, n, j - k)
    {
      MarksAround(front, fields, values, back, n, j);
    }
    if exists i :: OnlyMark(front, m, i) {
      var i :| OnlyMark(front, m, i);
      assert OnlyMark(body, m, i);
    } else {
      var i :| OnlyMark(back, m, i);
      assert HasMark(back, m, (k + i) - k);
      assert OnlyMark(body, m, k + i);
    }
    FindsOne(body, m);
  }

  lemma AroundUnmarked(front: string, fields: seq<Field>, values: Values, back: string)
    requires Sound(fields, values) && NoMark(front) && NoMark(back)
    ensures FindMarks(Around(front, fields, values, back)) == []
  {
    forall n, j
      ensures !HasMark(Around(front, fields, values, back), n, j)
    {
      MarksAround(front, fields, values, back, n, j);
    }
    FindsNone(Around(front, fields, values, back));
  }

  lemma BlockReplaced(t: Template, front: string, values: Values, back: string, changes: Values, space: char -> bool)
    requires GoodTemplate(t) && AllPlain(t.fields) && Sound(t.fields, values)
    requires var body := Around(front, t.fields, values, back);
             Index(body, MANAGED_START) == |front| && Index(body, MANAGED_END) == |front| + |Managed(t.fields, values)|
    ensures UpdateBlock(t, Around(front, t.fields, values, back), changes, space)
            == Replaced(t, front, Recovered(t.fields, values), back, changes, space)
  {
    PartsFound(front, Managed(t.fields, values), back);
    BlockGivesBack(t.fields, values, |t.fields|);
    assert t.fields[..|t.fields|] == t.fields;
    PartsUpdated(t, Around(front, t.fields, values, back), |front|, |front| + |Managed(t.fields, values)|, |MANAGED_END|,
                 front, Managed(t.fields, values), back, changes, space);
  }

  lemma PartsUpdated(t: Template, body: string, start: int, end: int, n: nat, front: string, managed: string, back: string,
                     changes: Values, space: char -> bool)
    requires AllPlain(t.fields) && 0 <= start <= end && end + n <= |body|
    requires body[..start] == front && body[start..end] == managed && body[end + n..] == back
    ensures UpdateAt(t, body, start, end, n, changes, space) == UpdateParts(t, front, managed, back, changes, space)
  {
  }

  /**
   Updating a body with a block: the changes override what was rendered, up to line breaks
   around the values, and everything outside the block stays as it is.
   */
  lemma UpdatesBlock(templates: seq<Template>, t: Template, front: string, values: Values, back: string, changes: Values,
                     space: char -> bool)
    requires GoodTemplates(templates) && FindTemplate(templates, t.id) == Some(t)
    requires Sound(t.fields, values) && Blockless(front) && Blockless(back) && MarkedOnce(front, back, Mark(t.id, "1"))
    ensures Update(templates, Around(front, t.fields, values, back), changes, space)
            == Replaced(t, front, Recovered(t.fields, values), back, changes, space)
  {
    FoundIsGood(templates, t.id);
    AroundMarked(front, t.fields, values, back, Mark(t.id, "1"));
    BlockIndexed(front, t.fields, values, back);
    BlockReplaced(t, front, values, back, changes, space);
  }

  // --------------------------------------------------------------------- rendered bodies

  lemma AcceptedIsSound(t: Template, values: Values, requireAll: bool, space: char -> bool)
    requires GoodTemplate(t) && Accepted(t.fields, values, requireAll, space)
    ensures Sound(t.fields, values)
  {
    forall name | name in values
      ensures Free(values[name])
    {
      assert GoodValue(t.fields, name, values[name]);
    }
  }

  lemma FreeHasNoMark(text: string)
    requires Free(text)
    ensures NoMark(text) && Blockless(text)
  {
    ManagedMarks();
    FreeNever(text, MANAGED_START);
    FreeNever(text, MANAGED_END);
    forall m, i
      ensures !HasMark(text, m, i)
    {
      if ValidMark(m) {
        IssueMarks(m);
        FreeHasNone(text, IssueMark(m), i);
      }
    }
  }

  /** What stands in front of a rendered block, with notes before it. */
  lemma FrontMarked(before: string, m: Mark)
    requires Free(before) && ValidMark(m)
    ensures var front := before + (IssueMark(m) + "\n");
            OnlyMark(front, m, |before|) && Blockless(front)
  {
    var p := IssueMark(m);
    var front := before + (p + "\n");
    IssueMarks(m);
    ManagedMarks();
    FreeHasNoMark(before);
    NoLessIsFree("\n");
    FreeHasNoMark("\n");
    forall q, j | IsMarker(q)
      ensures At(front, q, j) <==> At(before, q, j) || (j == |before| && p == q) || At("\n", q, j - |before| - |p|)
    {
      AtSplit(before, p + "\n", q, j);
      AtSplit(p, "\n", q, j - |before|);
      MarkerAt(p, q, j - |before|);
    }
    forall n, j
      ensures HasMark(front, n, j) ==> j == |before|
    {
      if ValidMark(n) {
        IssueMarks(n);
        assert !HasMark(before, n, j) && !HasMark("\n", n, j - |before| - |p|);
      }
    }
  }

  /** What the block gives back of accepted values, with accepted changes, is accepted unless a change blanks a required field. */
  lemma MergedAccepted(t: Template, values: Values, changes: Values, space: char -> bool)
    requires GoodTemplate(t) && space('\n')
    requires Accepted(t.fields, values, true, space) && Accepted(t.fields, changes, false, space)
    ensures Accepted(t.fields, Recovered(t.fields, values) + changes, true, space)
            <==> forall i :: 0 <= i < |t.fields| && t.fields[i].required && t.fields[i].name in changes ==>
                   !Blank(changes[t.fields[i].name], space)
  {
    var merged := Recovered(t.fields, values) + changes;
    forall name | name in merged
      ensures GoodValue(t.fields, name, merged[name])
    {
      RecoveredAt(t.fields, values, name);
      if name !in changes {
        assert GoodValue(t.fields, name, values[name]);
        TrimKeepsGood(t.fields, name, values[name]);
      }
    }
    forall i | 0 <= i < |t.fields| && t.fields[i].required && t.fields[i].name !in changes
      ensures t.fields[i].name in merged && !Blank(merged[t.fields[i].name], space)
    {
      RecoveredAt(t.fields, values, t.fields[i].name);
      TrimKeepsBlank(values[t.fields[i].name], space);
    }
  }

  /**
   A rendered body, with any marker-free notes around it, is updated to the rendering of its
   values with the changes, and the notes stay as they are. It fails only when a change is
   not acceptable, blanks a required field, or the body becomes too long.
   */
  lemma RenderedIsUpdated(templates: seq<Template>, t: Template, values: Values, changes: Values, before: string, after: string,
                          space: char -> bool)
    requires GoodTemplates(templates) && FindTemplate(templates, t.id) == Some(t) && space('\n')
    requires Render(t, values, space).Ok? && Free(before) && Free(after) && Accepted(t.fields, changes, false, space)
    ensures var front, back, merged := before + (IssueMark(Mark(t.id, "1")) + "\n"), "\n" + after, Recovered(t.fields, values) + changes;
            Update(templates, Around(front, t.fields, values, back), changes, space)
            == if exists i :: 0 <= i < |t.fields| && t.fields[i].required && t.fields[i].name in changes
                              && Blank(changes[t.fields[i].name], space) then Err(InvalidValues)
               else if Size(Around(front, t.fields, merged, back)) > MAX_ISSUE_BODY_BYTES then Err(TooLong)
               else Ok(Around(front, t.fields, merged, back))
  {
    var m := Mark(t.id, "1");
    FoundIsGood(templates, t.id);
    AcceptedIsSound(t, values, true, space);
    FrontMarked(before, m);
    FreeAfterBreak(after);
    FreeHasNoMark("\n" + after);
    MergedAccepted(t, values, changes, space);
    assert OnlyMark(before + (IssueMark(m) + "\n"), m, |before|);
    UpdatesBlock(templates, t, before + (IssueMark(m) + "\n"), values, "\n" + after, changes, space);
  }

  lemma FreeAfterBreak(text: string)
    requires Free(text)
    ensures Free("\n" + text)
  {
    FreeLines(text);
    assert ("\n" + text + "\n")[0..1 + |text|] == "\n" + text;
    FreePart("\n" + text + "\n", 0, 1 + |text|);
  }

  /** The body of the theorem above is the rendered text between the notes. */
  lemma RenderedBetween(t: Template, values: Values, before: string, after: string, space: char -> bool)
    requires Render(t, values, space).Ok?
    ensures Around(before + (IssueMark(Mark(t.id, "1")) + "\n"), t.fields, values, "\n" + after)
            == before + Render(t, values, space).value + after
  {
    Between(before, IssueMark(Mark(t.id, "1")) + "\n", Managed(t.fields, values), MANAGED_END, after);
  }

  lemma Between(before: string, a: string, b: string, c: string, after: string)
    ensures (before + a) + (b + (c + ("\n" + after))) == before + (a + (b + (c + "\n"))) + after
  {
    assert c + ("\n" + after) == (c + "\n") + after;
    assert b + ((c + "\n") + after) == (b + (c + "\n")) + after;
    assert a + ((b + (c + "\n")) + after) == (a + (b + (c + "\n"))) + after;
    assert (before + a) + (b + (c + ("\n" + after))) == before + (a + (b + (c + ("\n" + after))));
  }

  // ------------------------------------------------------------------------- updating twice

  lemma {:induction false} SameText(fields: seq<Field>, values: Values, others: Values)
    requires forall i :: 0 <= i < |fields| ==>
               && Rendered(fields[i], values) == Rendered(fields[i], others)
               && (Rendered(fields[i], values) ==> values[fields[i].name] == others[fields[i].name])
    ensures FieldsText(fields, values) == FieldsText(fields, others)
    decreases |fields|
  {
    if fields != [] {
      SameText(fields[..|fields| - 1], values, others);
    }
  }

  /** Giving back and changing such values again renders the same text, and is as acceptable. */
  lemma AgainTheSame(t: Template, values: Values, changes: Values, space: char -> bool)
    requires GoodTemplate(t) && TrimmedBut(values, changes) && Accepted(t.fields, values, true, space)
    ensures var again := Recovered(t.fields, values) + changes;
            FieldsText(t.fields, again) == FieldsText(t.fields, values) && Accepted(t.fields, again, true, space)
  {
    var again := Recovered(t.fields, values) + changes;
    forall i | 0 <= i < |t.fields|
      ensures Rendered(t.fields[i], values) == Rendered(t.fields[i], again)
      ensures Rendered(t.fields[i], values) ==> values[t.fields[i].name] == again[t.fields[i].name]
    {
      OneName(t, i);
      RecoveredAt(t.fields, values, t.fields[i].name);
    }
    SameText(t.fields, values, again);
    forall name | name in again
      ensures GoodValue(t.fields, name, again[name])
    {
      RecoveredAt(t.fields, values, name);
      assert GoodValue(t.fields, name, values[name]);
    }
  }

  lemma OneName(t: Template, i: int)
    requires GoodTemplate(t) && 0 <= i < |t.fields|
    ensures forall j :: 0 <= j < |t.fields| && t.fields[j].name == t.fields[i].name ==> j == i
  {
    forall j | 0 <= j < |t.fields| && j != i
      ensures t.fields[j].name != t.fields[i].name
    {
    }
  }

  /** A text around two markers falls into three, and every marker is in one of the parts. */
  lemma ThreeParts(body: string, p: string, q: string, start: int, end: int)
    requires IsMarker(p) && IsMarker(q) && p != q && At(body, p, start) && At(body, q, end) && start <= end
    ensures start < end && end + |q| <= |body|
    ensures forall r, i {:trigger At(body, r, i)} :: IsMarker(r) ==>
              (At(body, r, i) <==> || At(body[..start], r, i)
                                   || At(body[start..end + |q|], r, i - start)
                                   || At(body[end + |q|..], r, i - (end + |q|)))
  {
    var k := end + |q|;
    var front, block, back := body[..start], body[start..k], body[k..];
    if start == end {
      SamePlace(body, p, q, start);
    }
    AtChar(body, p, start, 0);
    AtChar(body, q, end, |q| - 1);
    assert body == front + (block + back);
    assert block[0] == body[start] == '<' && block[|block| - 1] == body[k - 1] == '>';
    forall r, i | IsMarker(r)
      ensures At(body, r, i) <==> At(front, r, i) || At(block, r, i - start) || At(back, r, i - k)
    {
      AtSplit(front, block + back, r, i);
      AtSplit(block, back, r, i - start);
    }
  }

  lemma OuterPartsNever(body: string, p: string, at: int, start: int, k: int)
    requires Once(body, p, at) && p != "" && 0 <= start <= at < k <= |body|
    ensures Never(body[..start], p) && Never(body[k..], p)
  {
    forall i
      ensures !At(body[..start], p, i) && !At(body[k..], p, i)
    {
      if 0 <= i && i + |p| <= start {
        AtPart(body, 0, start, p, i);
        assert body[0..start] == body[..start];
      }
      if 0 <= i {
        AtShift(body, p, k, i);
      }
    }
  }

  /** The three parts of any body with one block: its markers are only in the middle. */
  lemma BodyParts(body: string, start: int, end: int)
    requires Once(body, MANAGED_START, start) && Once(body, MANAGED_END, end) && start <= end
    ensures start < end && end + |MANAGED_END| <= |body|
    ensures Blockless(body[..start]) && Blockless(body[end + |MANAGED_END|..])
    ensures AllInThree(body, body[..start], body[start..end + |MANAGED_END|], body[end + |MANAGED_END|..])
  {
    ManagedMarks();
    ThreeParts(body, MANAGED_START, MANAGED_END, start, end);
    var k := end + |MANAGED_END|;
    OuterPartsNever(body, MANAGED_START, start, start, k);
    OuterPartsNever(body, MANAGED_END, end, start, k);
    forall m, i
      ensures InThree(body, body[..start], body[start..k], body[k..], m, i)
    {
      if ValidMark(m) {
        IssueMarks(m);
      }
    }
  }

  lemma OneOfThree(body: string, front: string, block: string, back: string, m: Mark)
    requires AllInThree(body, front, block, back)
    requires exists i :: OnlyMark(body, m, i)
    ensures if NoMark(block) then MarkedOnce(front, back, m) else NoMark(front) && NoMark(back)
  {
    var i :| OnlyMark(body, m, i);
    forall n, j
      ensures HasMark(front, n, j) ==> j == i && j < |front|
      ensures HasMark(block, n, j) ==> |front| + j == i && 0 <= j < |block|
      ensures HasMark(back, n, j) ==> |front| + |block| + j == i && 0 <= j
    {
      MarkInside(front, n, j);
      MarkInside(block, n, j);
      MarkInside(back, n, j);
      var b, c := |front| + j, |front| + |block| + j;
      assert HasMark(front, n, j) ==> HasMark(body, n, j);
      assert HasMark(block, n, b - |front|) ==> HasMark(body, n, b);
      assert HasMark(back, n, c - |front| - |block|) ==> HasMark(body, n, c);
    }
    if NoMark(block) {
      if HasMark(front, m, i) {
        assert OnlyMark(front, m, i);
      } else {
        assert OnlyMark(back, m, i - |front| - |block|);
      }
    }
  }

  lemma MarkIsOutside(body: string, start: int, end: int, m: Mark)
    requires Once(body, MANAGED_START, start) && Once(body, MANAGED_END, end) && start <= end
    requires exists i :: OnlyMark(body, m, i)
    ensures end + |MANAGED_END| <= |body|
    ensures var front, back := body[..start], body[end + |MANAGED_END|..];
            if NoMark(body[start..end + |MANAGED_END|]) then MarkedOnce(front, back, m) else NoMark(front) && NoMark(back)
  {
    BodyParts(body, start, end);
    var k := end + |MANAGED_END|;
    OneOfThree(body, body[..start], body[start..k], body[k..], m);
  }

  lemma MarkInside(text: string, m: Mark, i: int)
    ensures HasMark(text, m, i) ==> 0 <= i < |text|
  {
    if ValidMark(m) {
      IssueMarks(m);
    }
  }

  // ------------------------------------------------------------------------ accepted bodies

  lemma UpdateWent(templates: seq<Template>, body: string, changes: Values, space: char -> bool, updated: string)
      returns (t: Template, start: int, end: int, values: Values)
    requires GoodTemplates(templates) && Update(templates, body, changes, space) == Ok(updated)
    ensures FindMarks(body) == [Mark(t.id, "1")] && FindTemplate(templates, t.id) == Some(t) && GoodTemplate(t)
    ensures start == Index(body, MANAGED_START) && end == Index(body, MANAGED_END)
    ensures Went(t, body, start, end, values, changes, space, updated)
  {
    ManagedMarks();
    CountOnce(body, MANAGED_START);
    CountOnce(body, MANAGED_END);
    var m := FindMarks(body)[0];
    FoundIsGood(templates, m.id);
    t := FindTemplate(templates, m.id).value;
    start, end := Index(body, MANAGED_START), Index(body, MANAGED_END);
    values := Extract(t.fields, body[start..end]).value;
  }

  lemma {:induction false} MergedIsTrimmed(t: Template, managed: string, values: Values, changes: Values)
    requires AllPlain(t.fields) && Extract(t.fields, managed) == Ok(values)
    ensures TrimmedBut(values + changes, changes)
  {
    forall name | name in values
      ensures Trim(values[name]) == values[name]
    {
      ExtractedIsTrimmed(t.fields, managed, name);
    }
  }

  lemma ReplacedAgain(t: Template, front: string, merged: Values, back: string, changes: Values, space: char -> bool)
    requires GoodTemplate(t) && TrimmedBut(merged, changes)
    requires Accepted(t.fields, changes, false, space) && Accepted(t.fields, merged, true, space)
    requires Size(Around(front, t.fields, merged, back)) <= MAX_ISSUE_BODY_BYTES
    ensures Replaced(t, front, Recovered(t.fields, merged), back, changes, space) == Ok(Around(front, t.fields, merged, back))
  {
    AgainTheSame(t, merged, changes, space);
  }

  /**
   Applying the same changes twice gives the same text, for every body that is accepted,
   unless its issue marker was inside the block: then the block swallowed it, and the second
   update finds no managed issue.
   */
  lemma UpdatingTwice(templates: seq<Template>, body: string, changes: Values, space: char -> bool, updated: string)
    requires GoodTemplates(templates) && Update(templates, body, changes, space) == Ok(updated)
    ensures Update(templates, updated, changes, space) == if NoMark(BlockOf(body)) then Ok(updated) else Err(Ambiguous)
  {
    var t, start, end, values := UpdateWent(templates, body, changes, space, updated);
    WentTwice(templates, t, body, start, end, values, changes, space, updated);
  }

  lemma WentTwice(templates: seq<Template>, t: Template, body: string, start: int, end: int, values: Values, changes: Values,
                  space: char -> bool, updated: string)
    requires GoodTemplates(templates) && FindTemplate(templates, t.id) == Some(t) && GoodTemplate(t)
    requires FindMarks(body) == [Mark(t.id, "1")] && Went(t, body, start, end, values, changes, space, updated)
    requires start == Index(body, MANAGED_START) && end == Index(body, MANAGED_END)
    ensures Update(templates, updated, changes, space) == if NoMark(BlockOf(body)) then Ok(updated) else Err(Ambiguous)
  {
    var front, back, merged := body[..start], body[end + |MANAGED_END|..], values + changes;
    AcceptedIsSound(t, merged, true, space);
    BlockIs(body, start, end);
    OutsideBlock(body, start, end, Mark(t.id, "1"));
    MergedIsTrimmed(t, body[start..end], values, changes);
    SecondUpdate(templates, t, front, merged, back, changes, space);
  }

  /** Outside its block, a body with one issue marker has that marker or none, and no other block. */
  lemma OutsideBlock(body: string, start: int, end: int, m: Mark)
    requires Once(body, MANAGED_START, start) && Once(body, MANAGED_END, end) && start <= end && end + |MANAGED_END| <= |body|
    requires FindMarks(body) == [m]
    ensures var front, block, back := body[..start], body[start..end + |MANAGED_END|], body[end + |MANAGED_END|..];
            && Blockless(front) && Blockless(back)
            && if NoMark(block) then MarkedOnce(front, back, m) else NoMark(front) && NoMark(back)
  {
    FindsOne(body, m);
    MarkIsOutside(body, start, end, m);
    BodyParts(body, start, end);
  }

  lemma BlockIs(body: string, start: int, end: int)
    requires start == Index(body, MANAGED_START) && end == Index(body, MANAGED_END)
    requires 0 <= start <= end && end + |MANAGED_END| <= |body|
    ensures BlockOf(body) == body[start..end + |MANAGED_END|]
  {
  }

  lemma SecondUpdate(templates: seq<Template>, t: Template, front: string, merged: Values, back: string, changes: Values,
                     space: char -> bool)
    requires GoodTemplates(templates) && FindTemplate(templates, t.id) == Some(t) && GoodTemplate(t)
    requires Sound(t.fields, merged) && Blockless(front) && Blockless(back) && TrimmedBut(merged, changes)
    requires Accepted(t.fields, changes, false, space) && Accepted(t.fields, merged, true, space)
    requires Size(Around(front, t.fields, merged, back)) <= MAX_ISSUE_BODY_BYTES
    ensures MarkedOnce(front, back, Mark(t.id, "1")) ==>
              Update(templates, Around(front, t.fields, merged, back), changes, space) == Ok(Around(front, t.fields, merged, back))
    ensures NoMark(front) && NoMark(back) ==>
              Update(templates, Around(front, t.fields, merged, back), changes, space) == Err(Ambiguous)
  {
    if MarkedOnce(front, back, Mark(t.id, "1")) {
      UpdatesBlock(templates, t, front, merged, back, changes, space);
      ReplacedAgain(t, front, merged, back, changes, space);
    }
    if NoMark(front) && NoMark(back) {
      AroundUnmarked(front, t.fields, merged, back);
    }
  }
}
