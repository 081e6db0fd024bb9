/**
 The issue marker pattern of cli/godo/issue.go: finding "<!-- godo:issue template=ID
 version=N -->" in a text, as the regular expression does.
 */
module IssuePattern {
  import opened IssueMarkers
  import opened IssueBodies

  const HEAD := OPEN + "issue template="
  const MIDDLE := " version="

  /** The longest prefix of such characters. */
  function Span(text: string, letter: char -> bool): (n: nat)
    ensures n <= |text| && (forall i :: 0 <= i < n ==> letter(text[i])) && (n < |text| ==> !letter(text[n]))
  {
    if text == "" || !letter(text[0]) then 0 else 1 + Span(text[1..], letter)
  }

  lemma {:induction false} SpanOf(front: string, rest: string, letter: char -> bool)
    requires (forall i :: 0 <= i < |front| ==> letter(front[i])) && (rest == "" || !letter(rest[0]))
    ensures Span(front + rest, letter) == |front|
    decreases |front|
  {
    if front == "" {
      assert front + rest == rest;
    } else {
      assert (front + rest)[1..] == front[1..] + rest;
      SpanOf(front[1..], rest, letter);
    }
  }

  predicate Starts(text: string, p: string)
  {
    |p| <= |text| && text[..|p|] == p
  }

  function ParseVersion(text: string): Option<string>
  {
    var k := Span(text, DigitLetter);
    if k == 0 || !Starts(text[k..], CLOSE) then None else Some(text[..k])
  }

  /** The pattern matched at the start of a text. */
  function ParseMark(text: string): Option<Mark>
  {
    if !Starts(text, HEAD) then None
    else
      var afterHead := text[|HEAD|..];
      var n := Span(afterHead, IdLetter);
      var afterId := afterHead[n..];
      if n == 0 || !Starts(afterId, MIDDLE) then None
      else
        match ParseVersion(afterId[|MIDDLE|..])
        case None => None
        case Some(version) => Some(Mark(afterHead[..n], version))
  }

  lemma MarkText(m: Mark)
    ensures IssueMark(m) == HEAD + (m.id + (MIDDLE + (m.version + CLOSE)))
  {
  }

  lemma StartsThen(text: string, p: string, rest: string)
    requires Starts(text, p) && text[|p|..] == rest
    ensures text == p + rest
  {
  }

  lemma JoinStarts(p: string, rest: string)
    ensures Starts(p + rest, p) && (p + rest)[|p|..] == rest
  {
  }

  lemma ParsedPieces(text: string) returns (rest: string)
    requires ParseMark(text).Some?
    ensures var m := ParseMark(text).value;
            ValidMark(m) && text == HEAD + (m.id + (MIDDLE + (m.version + (CLOSE + rest))))
  {
    var afterHead := text[|HEAD|..];
    var n := Span(afterHead, IdLetter);
    var afterId := afterHead[n..];
    var tail := afterId[|MIDDLE|..];
    rest := VersionPieces(tail);
    StartsThen(text, HEAD, afterHead);
    Taken(afterHead, n);
    StartsThen(afterId, MIDDLE, tail);
    var m := ParseMark(text).value;
    assert m.id == afterHead[..n] && m.version == ParseVersion(tail).value;
    Chained(text, afterHead, m.id, afterId, tail, m.version, rest);
  }

  lemma Chained(text: string, afterHead: string, id: string, afterId: string, tail: string, version: string, rest: string)
    requires text == HEAD + afterHead && afterHead == id + afterId && afterId == MIDDLE + tail && tail == version + (CLOSE + rest)
    ensures text == HEAD + (id + (MIDDLE + (version + (CLOSE + rest))))
  {
  }

  lemma VersionPieces(text: string) returns (rest: string)
    requires ParseVersion(text).Some?
    ensures var version := ParseVersion(text).value;
            && version != "" && (forall i :: 0 <= i < |version| ==> DigitLetter(version[i]))
            && text == version + (CLOSE + rest)
  {
    var k := |ParseVersion(text).value|;
    rest := text[k..][|CLOSE|..];
    Taken(text, k);
    StartsThen(text[k..], CLOSE, rest);
  }

  lemma Taken(text: string, n: int)
    requires 0 <= n <= |text|
    ensures text == text[..n] + text[n..]
  {
  }

  /** A match is an occurrence of a marker. */
  lemma ParsedIsThere(text: string)
    requires ParseMark(text).Some?
    ensures ValidMark(ParseMark(text).value) && Starts(text, IssueMark(ParseMark(text).value))
  {
    var m := ParseMark(text).value;
    var rest := ParsedPieces(text);
    MarkText(m);
    Regroup(HEAD, m.id, MIDDLE, m.version, CLOSE, rest);
    JoinStarts(IssueMark(m), rest);
  }

  lemma Regroup(a: string, b: string, c: string, d: string, e: string, rest: string)
    ensures a + (b + (c + (d + (e + rest)))) == (a + (b + (c + (d + e)))) + rest
  {
  }

  /** And every occurrence of a marker matches. */
  lemma ThereIsParsed(text: string, m: Mark)
    requires ValidMark(m) && Starts(text, IssueMark(m))
    ensures ParseMark(text) == Some(m)
  {
    var rest := text[|IssueMark(m)|..];
    StartsThen(text, IssueMark(m), rest);
    MarkText(m);
    Regroup(HEAD, m.id, MIDDLE, m.version, CLOSE, rest);
    var afterMiddle := m.version + (CLOSE + rest);
    var afterHead := m.id + (MIDDLE + afterMiddle);
    JoinStarts(HEAD, afterHead);
    SpanOf(m.id, MIDDLE + afterMiddle, IdLetter);
    JoinStarts(m.id, MIDDLE + afterMiddle);
    JoinStarts(MIDDLE, afterMiddle);
    SpanOf(m.version, CLOSE + rest, DigitLetter);
    JoinStarts(m.version, CLOSE + rest);
    JoinStarts(CLOSE, rest);
  }

  /** FindAllStringSubmatch: leftmost matches that do not overlap */
  function FindMarks(text: string): seq<Mark>
    decreases |text|
  {
    if text == "" then []
    else
      match ParseMark(text)
      case None => FindMarks(text[1..])
      case Some(m) =>
        ParsedIsThere(text);
        assert IssueMark(m) != "";
        [m] + FindMarks(text[|IssueMark(m)|..])
  }

  lemma StartsAt(text: string, p: string)
    ensures Starts(text, p) <==> At(text, p, 0)
  {
    if |p| <= |text| {
      assert text[0..|p|] == text[..|p|];
    }
  }

  lemma MarkShift(text: string, k: int, m: Mark, i: int)
    requires 0 <= k <= |text| && i >= 0
    ensures HasMark(text[k..], m, i) <==> HasMark(text, m, k + i)
  {
    AtShift(text, IssueMark(m), k, i);
  }

  lemma NoneAtStart(text: string, m: Mark)
    requires ParseMark(text).None?
    ensures !HasMark(text, m, 0)
  {
    StartsAt(text, IssueMark(m));
    if ValidMark(m) && Starts(text, IssueMark(m)) {
      ThereIsParsed(text, m);
    }
  }

  lemma NoMarkFirst(text: string)
    requires text != "" && ParseMark(text).None?
    ensures forall m, i :: HasMark(text, m, i) ==> i > 0 && HasMark(text[1..], m, i - 1)
    ensures forall m, i :: HasMark(text[1..], m, i) ==> HasMark(text, m, i + 1)
    ensures NoMark(text) <==> NoMark(text[1..])
  {
    forall m, i | HasMark(text, m, i)
      ensures i > 0 && HasMark(text[1..], m, i - 1)
    {
      NoneAtStart(text, m);
      MarkShift(text, 1, m, i - 1);
    }
    forall m, i | HasMark(text[1..], m, i)
      ensures HasMark(text, m, i + 1)
    {
      MarkShift(text, 1, m, i);
    }
  }

  lemma NextMark(text: string, m: Mark, n: Mark, j: int)
    requires HasMark(text, m, 0) && HasMark(text, n, j) && j != 0
    ensures j >= |IssueMark(m)|
  {
    IssueMarks(m);
    IssueMarks(n);
    NoOverlap(text, IssueMark(m), IssueMark(n), 0, j);
  }

  lemma MarkFirst(text: string, m: Mark)
    requires ParseMark(text) == Some(m)
    ensures HasMark(text, m, 0) && |IssueMark(m)| <= |text|
    ensures NoMark(text[|IssueMark(m)|..]) <==> OnlyMark(text, m, 0)
  {
    ParsedIsThere(text);
    StartsAt(text, IssueMark(m));
    var k := |IssueMark(m)|;
    forall n, j | HasMark(text, n, j) && j != 0
      ensures HasMark(text[k..], n, j - k)
    {
      NextMark(text, m, n, j);
      MarkShift(text, k, n, j - k);
    }
    forall n, j | HasMark(text[k..], n, j)
      ensures HasMark(text, n, k + j)
    {
      MarkShift(text, k, n, j);
    }
    if NoMark(text[k..]) {
      forall n, j | HasMark(text, n, j)
        ensures j == 0
      {
        assert !HasMark(text[k..], n, j - k);
      }
    }
    if OnlyMark(text, m, 0) {
      forall n, j
        ensures !HasMark(text[k..], n, j)
      {
        IssueMarks(m);
        assert HasMark(text[k..], n, j) ==> HasMark(text, n, k + j);
      }
    }
  }

  lemma {:induction false} FindsNone(text: string)
    ensures FindMarks(text) == [] <==> NoMark(text)
    decreases |text|
  {
    if text == "" {
      forall m, i
        ensures !HasMark(text, m, i)
      {
        IssueMarkNotEmpty(m);
      }
    } else {
      match ParseMark(text)
      case None =>
        NoMarkFirst(text);
        FindsNone(text[1..]);
      case Some(m) =>
        MarkFirst(text, m);
    }
  }

  /** Exactly one match is found exactly when there is exactly one marker. */
  lemma {:induction false} FindsOne(text: string, m: Mark)
    ensures FindMarks(text) == [m] <==> exists i :: OnlyMark(text, m, i)
    decreases |text|
  {
    if text == "" {
      IssueMarkNotEmpty(m);
    } else {
      match ParseMark(text)
      case None =>
        NoMarkFirst(text);
        FindsOne(text[1..], m);
        OnlyShift(text, m);
      case Some(first) =>
        MarkFirst(text, first);
        FindsNone(text[|IssueMark(first)|..]);
        FirstOnly(text, first, m);
        Single(first, FindMarks(text[|IssueMark(first)|..]), m);
    }
  }

  lemma Single<T>(first: T, rest: seq<T>, x: T)
    ensures [first] + rest == [x] <==> first == x && rest == []
  {
    assert ([first] + rest)[0] == first;
    if rest != [] {
      assert |[first] + rest| > 1;
    }
  }

  lemma IssueMarkNotEmpty(m: Mark)
    ensures forall i :: !At("", IssueMark(m), i)
  {
    MarkText(m);
  }

  lemma OnlyShift(text: string, m: Mark)
    requires text != "" && ParseMark(text).None?
    ensures (exists i :: OnlyMark(text, m, i)) <==> exists i :: OnlyMark(text[1..], m, i)
  {
    NoMarkFirst(text);
    forall i | OnlyMark(text, m, i)
      ensures OnlyMark(text[1..], m, i - 1)
    {
    }
    forall i | OnlyMark(text[1..], m, i)
      ensures OnlyMark(text, m, i + 1)
    {
    }
  }

  /** When the text starts with a marker, that is the only one that can be alone. */
  lemma FirstOnly(text: string, first: Mark, m: Mark)
    requires HasMark(text, first, 0)
    ensures (exists i :: OnlyMark(text, m, i)) <==> m == first && OnlyMark(text, first, 0)
  {
    forall i | OnlyMark(text, m, i)
      ensures i == 0 && m == first
    {
      IssueMarks(m);
      IssueMarks(first);
      SamePlace(text, IssueMark(m), IssueMark(first), 0);
      SameMark(m, first);
    }
  }

  lemma SameMark(m: Mark, n: Mark)
    requires ValidMark(m) && ValidMark(n) && IssueMark(m) == IssueMark(n)
    ensures m == n
  {
    assert IssueMark(m)[..|IssueMark(m)|] == IssueMark(m);
    ThereIsParsed(IssueMark(m), m);
    ThereIsParsed(IssueMark(m), n);
  }
}
