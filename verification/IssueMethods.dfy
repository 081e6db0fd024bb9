/**
 renderIssueBody, updateManagedIssue and validateTemplateFields (cli/godo/issue.go) as the
 loops over fields and values they are, proved against the functions of IssueEditing.
 */
module IssueMethods {
  import opened IssueMarkers
  import opened IssueBodies
  import opened IssuePattern
  import opened IssueValues
  import opened IssueEditing
  import opened Sets

  method ValidateFields(fields: seq<Field>, values: Values, requireAll: bool, space: char -> bool) returns (ok: bool)
    ensures ok <==> Accepted(fields, values, requireAll, space)
  {
    var known: set<string> := {};
    for i := 0 to |fields|
      invariant forall name :: name in known <==> Known(fields[..i], name)
      invariant requireAll ==> AllPresent(fields[..i], values, space)
    {
      var field := fields[i];
      if requireAll && field.required {
        var value := if field.name in values then values[field.name] else "";
        if Blank(value, space) {
          return false;
        }
      }
      KnownNext(fields, i);
      known := known + {field.name};
    }
    assert fields[..|fields|] == fields;
    var left := values.Keys;
    while left != {}
      invariant left <= values.Keys
      invariant forall name :: name in values && name !in left ==> GoodValue(fields, name, values[name])
      decreases |left|
    {
      var name := Pick(left);
      var value := values[name];
      CountNone(value, OPEN);
      if name !in known || !ValidText(value) || Index(value, OPEN) >= 0 {
        return false;
      }
      left := left - {name};
    }
    ok := true;
  }

  lemma KnownNext(fields: seq<Field>, i: int)
    requires 0 <= i < |fields|
    ensures forall name :: Known(fields[..i + 1], name) <==> Known(fields[..i], name) || fields[i].name == name
  {
    forall name
      ensures Known(fields[..i + 1], name) <==> Known(fields[..i], name) || fields[i].name == name
    {
      assert fields[..i + 1][i] == fields[i];
      if Known(fields[..i], name) {
        var j :| 0 <= j < i && fields[..i][j].name == name;
        assert fields[..i + 1][j].name == name;
      }
      if Known(fields[..i + 1], name) {
        var j :| 0 <= j < i + 1 && fields[..i + 1][j].name == name;
        assert j < i ==> fields[..i][j].name == name;
      }
    }
  }

  method RenderFields(fields: seq<Field>, values: Values) returns (text: string)
    ensures text == FieldsText(fields, values)
  {
    text := "";
    for i := 0 to |fields|
      invariant text == FieldsText(fields[..i], values)
    {
      var field := fields[i];
      assert fields[..i + 1][..i] == fields[..i] && fields[..i + 1][i] == field;
      if field.name in values && (values[field.name] != "" || field.required) {
        text := text + Section(field, values[field.name]);
      } else {
        assert text + "" == text;
      }
    }
    assert fields[..|fields|] == fields;
  }

  method ExtractFields(fields: seq<Field>, managed: string) returns (result: Result<Values>)
    requires AllPlain(fields)
    ensures result == Extract(fields, managed)
  {
    var values: Values := map[];
    var i := 0;
    while i < |fields|
      invariant 0 <= i <= |fields|
      invariant Extract(fields[..i], managed) == Ok(values)
    {
      assert fields[..i + 1][..i] == fields[..i] && fields[..i + 1][i] == fields[i];
      var found := ExtractField(managed, fields[i].name);
      if found.Err? {
        FailsOn(fields, managed, i + 1);
        return Err(found.problem);
      }
      if found.value.Some? {
        values := values[fields[i].name := found.value.value];
      }
      i := i + 1;
    }
    assert fields[..i] == fields;
    result := Ok(values);
  }

  /** Once a field fails, the whole extraction fails that way. */
  lemma {:induction false} FailsOn(fields: seq<Field>, managed: string, n: int)
    requires AllPlain(fields) && 0 <= n <= |fields| && Extract(fields[..n], managed).Err?
    ensures Extract(fields, managed) == Extract(fields[..n], managed)
    decreases |fields| - n
  {
    if n < |fields| {
      assert fields[..n + 1][..n] == fields[..n];
      FailsOn(fields, managed, n + 1);
    } else {
      assert fields[..n] == fields;
    }
  }

  method Override<K(==), V>(values: map<K, V>, changes: map<K, V>) returns (merged: map<K, V>)
    ensures merged == values + changes
  {
    merged := values;
    var left := changes.Keys;
    while left != {}
      invariant left <= changes.Keys
      invariant forall name :: name in merged <==> name in values || (name in changes && name !in left)
      invariant forall name :: name in merged ==>
                  merged[name] == if name in changes && name !in left then changes[name] else values[name]
      decreases |left|
    {
      var name := Pick(left);
      merged := merged[name := changes[name]];
      left := left - {name};
    }
  }

  method TextSize(text: string) returns (size: nat)
    ensures size == Size(text)
  {
    size := 0;
    for i := 0 to |text|
      invariant size == Size(text[..i])
    {
      assert text[..i + 1][..i] == text[..i];
      size := size + Width(text[i]);
    }
    assert text[..|text|] == text;
  }

  method RenderIssueBody(t: Template, values: Values, space: char -> bool) returns (result: Result<string>)
    ensures result == Render(t, values, space)
  {
    var ok := ValidateFields(t.fields, values, true, space);
    if !ok {
      return Err(InvalidValues);
    }
    var fields := RenderFields(t.fields, values);
    var text := (IssueMark(Mark(t.id, "1")) + "\n") + ((MANAGED_START + ("\n" + fields)) + (MANAGED_END + "\n"));
    var size := TextSize(text);
    result := if size > MAX_ISSUE_BODY_BYTES then Err(TooLong) else Ok(text);
  }

  method UpdateManagedIssue(templates: seq<Template>, body: string, changes: Values, space: char -> bool)
    returns (result: Result<string>)
    requires GoodTemplates(templates)
    ensures result == Update(templates, body, changes, space)
  {
    ManagedMarks();
    var marks := FindMarks(body);
    if |marks| != 1 || Count(body, MANAGED_START) != 1 || Count(body, MANAGED_END) != 1 {
      return Err(Ambiguous);
    }
    if marks[0].version != "1" {
      return Err(Unsupported);
    }
    var template := FindTemplate(templates, marks[0].id);
    if template.None? {
      return Err(UnknownTemplate);
    }
    FoundIsGood(templates, marks[0].id);
    result := UpdateWith(template.value, body, changes, space);
  }

  method UpdateWith(t: Template, body: string, changes: Values, space: char -> bool) returns (result: Result<string>)
    requires AllPlain(t.fields)
    ensures result == UpdateBlock(t, body, changes, space)
  {
    var start, end := Index(body, MANAGED_START), Index(body, MANAGED_END);
    if start < 0 || end < start || end + |MANAGED_END| > |body| {
      return Err(BadBlock);
    }
    result := UpdateSpan(t, body, start, end, |MANAGED_END|, changes, space);
  }

  method UpdateSpan(t: Template, body: string, start: int, end: int, n: nat, changes: Values, space: char -> bool)
    returns (result: Result<string>)
    requires AllPlain(t.fields) && 0 <= start <= end && end + n <= |body|
    ensures result == UpdateAt(t, body, start, end, n, changes, space)
  {
    result := UpdateSlices(t, body[..start], body[start..end], body[end + n..], changes, space);
  }

  method UpdateSlices(t: Template, front: string, managed: string, back: string, changes: Values, space: char -> bool)
    returns (result: Result<string>)
    requires AllPlain(t.fields)
    ensures result == UpdateParts(t, front, managed, back, changes, space)
  {
    var extracted := ExtractFields(t.fields, managed);
    if extracted.Err? {
      return Err(extracted.problem);
    }
    var ok := ValidateFields(t.fields, changes, false, space);
    if !ok {
      return Err(InvalidValues);
    }
    var values := Override(extracted.value, changes);
    ok := ValidateFields(t.fields, values, true, space);
    if !ok {
      return Err(InvalidValues);
    }
    var fields := RenderFields(t.fields, values);
    var updated := front + ((MANAGED_START + ("\n" + fields)) + (MANAGED_END + back));
    var size := TextSize(updated);
    result := if size > MAX_ISSUE_BODY_BYTES then Err(TooLong) else Ok(updated);
  }
}
