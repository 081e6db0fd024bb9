/**
 Editing managed issues (cli/godo/issue.go): rendering a body and updating one, as functions.
 */
module IssueEditing {
  import opened IssueMarkers
  import opened IssueBodies
  import opened IssuePattern
  import opened IssueValues

  // -------------------------------------------------------------------------- the operations

  function FindTemplate(templates: seq<Template>, id: string): Option<Template>
  {
    if templates == [] then None
    else if templates[0].id == id then Some(templates[0])
    else FindTemplate(templates[1..], id)
  }

  /** The length of a character in UTF-8. */
  function Width(c: char): nat
  {
    if c as int < 0x80 then 1 else if c as int < 0x800 then 2 else if c as int < 0x10000 then 3 else 4
  }

  function Size(s: string): nat
    decreases |s|
  {
    if s == "" then 0 else Size(s[..|s| - 1]) + Width(s[|s| - 1])
  }

  /** A body around a block. */
  function Around(front: string, fields: seq<Field>, values: Values, back: string): string
  {
    front + (Managed(fields, values) + (MANAGED_END + back))
  }

  ghost function Replaced(t: Template, front: string, values: Values, back: string, changes: Values, space: char -> bool): Result<string>
  {
    if !Accepted(t.fields, changes, false, space) || !Accepted(t.fields, values + changes, true, space) then Err(InvalidValues)
    else if Size(Around(front, t.fields, values + changes, back)) > MAX_ISSUE_BODY_BYTES then Err(TooLong)
    else Ok(Around(front, t.fields, values + changes, back))
  }

  ghost predicate GoodTemplates(templates: seq<Template>)
  {
    forall i :: 0 <= i < |templates| ==> GoodTemplate(templates[i])
  }

  lemma {:induction false} FoundIsGood(templates: seq<Template>, id: string)
    requires GoodTemplates(templates) && FindTemplate(templates, id).Some?
    ensures GoodTemplate(FindTemplate(templates, id).value) && AllPlain(FindTemplate(templates, id).value.fields)
    ensures FindTemplate(templates, id).value.id == id
  {
    if templates[0].id != id {
      FoundIsGood(templates[1..], id);
    } else {
      assert GoodTemplate(templates[0]);
      forall i | 0 <= i < |templates[0].fields|
        ensures Plain(templates[0].fields[i].name)
      {
        assert GoodField(templates[0].fields[i]);
      }
    }
  }

  ghost function Update(templates: seq<Template>, body: string, changes: Values, space: char -> bool): Result<string>
    requires GoodTemplates(templates)
  {
    ManagedMarks();
    var marks := FindMarks(body);
    if |marks| != 1 || Count(body, MANAGED_START) != 1 || Count(body, MANAGED_END) != 1 then Err(Ambiguous)
    else if marks[0].version != "1" then Err(Unsupported)
    else
      match FindTemplate(templates, marks[0].id)
      case None => Err(UnknownTemplate)
      case Some(t) =>
        FoundIsGood(templates, marks[0].id);
        UpdateBlock(t, body, changes, space)
  }

  /** updateManagedIssue once the template is known */
  ghost function UpdateBlock(t: Template, body: string, changes: Values, space: char -> bool): Result<string>
    requires AllPlain(t.fields)
  {
    var start, end := Index(body, MANAGED_START), Index(body, MANAGED_END);
    if start < 0 || end < start || end + |MANAGED_END| > |body| then Err(BadBlock)
    else UpdateAt(t, body, start, end, |MANAGED_END|, changes, space)
  }

  /** The end marker has length n. */
  ghost function UpdateAt(t: Template, body: string, start: int, end: int, n: nat, changes: Values, space: char -> bool): Result<string>
    requires AllPlain(t.fields) && 0 <= start <= end && end + n <= |body|
  {
    UpdateParts(t, body[..start], body[start..end], body[end + n..], changes, space)
  }

  ghost function UpdateParts(t: Template, front: string, managed: string, back: string, changes: Values, space: char -> bool): Result<string>
    requires AllPlain(t.fields)
  {
    match Extract(t.fields, managed)
    case Err(problem) => Err(problem)
    case Ok(values) => Replaced(t, front, values, back, changes, space)
  }

  /** renderIssueBody */
  ghost function Render(t: Template, values: Values, space: char -> bool): Result<string>
  {
    var text := Around(IssueMark(Mark(t.id, "1")) + "\n", t.fields, values, "\n");
    if !Accepted(t.fields, values, true, space) then Err(InvalidValues)
    else if Size(text) > MAX_ISSUE_BODY_BYTES then Err(TooLong)
    else Ok(text)
  }

  // -------------------------------------------------------------------- about bodies

  /** No marker of a block is in the text. */
  ghost predicate Blockless(text: string)
  {
    Never(text, MANAGED_START) && Never(text, MANAGED_END)
  }

  /** Exactly one issue marker, in one of two texts. */
  ghost predicate MarkedOnce(front: string, back: string, m: Mark)
  {
    || ((exists i :: OnlyMark(front, m, i)) && NoMark(back))
    || (NoMark(front) && exists i :: OnlyMark(back, m, i))
  }

  /** Values whose unchanged part is trimmed already. */
  ghost predicate TrimmedBut(values: Values, changes: Values)
  {
    && (forall name :: name in changes ==> name in values && values[name] == changes[name])
    && (forall name :: name in values && name !in changes ==> Trim(values[name]) == values[name])
  }

  ghost predicate InThree(body: string, front: string, block: string, back: string, m: Mark, i: int)
  {
    HasMark(body, m, i)
    <==> HasMark(front, m, i) || HasMark(block, m, i - |front|) || HasMark(back, m, i - |front| - |block|)
  }

  ghost predicate AllInThree(body: string, front: string, block: string, back: string)
  {
    forall m, i {:trigger HasMark(body, m, i)} :: InThree(body, front, block, back, m, i)
  }

  /** The managed block of a body, with both its markers. */
  function BlockOf(body: string): string
  {
    var start, end := Index(body, MANAGED_START), Index(body, MANAGED_END);
    if 0 <= start <= end && end + |MANAGED_END| <= |body| then body[start..end + |MANAGED_END|] else ""
  }

  /** How an update of any body went: everything outside the block is kept. */
  ghost predicate Went(t: Template, body: string, start: int, end: int, values: Values, changes: Values, space: char -> bool,
                       updated: string)
  {
    && Once(body, MANAGED_START, start) && Once(body, MANAGED_END, end) && start <= end && end + |MANAGED_END| <= |body|
    && AllPlain(t.fields) && Extract(t.fields, body[start..end]) == Ok(values)
    && Accepted(t.fields, changes, false, space) && Accepted(t.fields, values + changes, true, space)
    && updated == Around(body[..start], t.fields, values + changes, body[end + |MANAGED_END|..])
    && Size(updated) <= MAX_ISSUE_BODY_BYTES
  }
}
