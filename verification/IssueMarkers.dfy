/**
 Finding markers in a text. A marker opens with "<!-- godo:", has its only '<' and '>' at
 its ends and no line break, so two of them never overlap, and where pieces of text meet
 at a marker or at a line break no marker comes about by accident.
 */
module IssueMarkers {
  const OPEN := "<!-- godo:"

  predicate At(text: string, p: string, i: int)
  {
    0 <= i && i + |p| <= |text| && text[i..i + |p|] == p
  }

  predicate IsMarker(m: string)
  {
    && |m| > |OPEN| && m[..|OPEN|] == OPEN
    && m[0] == '<' && m[|m| - 1] == '>'
    && (forall i :: 0 < i < |m| ==> m[i] != '<' && m[i] != '\n')
    && (forall i :: 0 <= i < |m| - 1 ==> m[i] != '>')
  }

  /** No marker, nor the beginning of one, is in the text. */
  ghost predicate Free(text: string)
  {
    forall i :: !At(text, OPEN, i)
  }

  /** Nothing that spans the two texts can be a marker. */
  predicate Fenced(a: string, b: string)
  {
    a == "" || b == "" || a[|a| - 1] == '\n' || a[|a| - 1] == '>' || b[0] == '\n' || b[0] == '<'
  }

  lemma AtChar(text: string, p: string, i: int, k: int)
    requires 0 <= k < |p| && 0 <= i && i + k < |text|
    ensures At(text, p, i) ==> text[i + k] == p[k]
  {
    if At(text, p, i) {
      assert text[i..i + |p|][k] == text[i + k];
    }
  }

  lemma AtPart(text: string, a: int, b: int, p: string, i: int)
    requires 0 <= a <= b <= |text| && 0 <= i && i + |p| <= b - a
    ensures At(text[a..b], p, i) <==> At(text, p, a + i)
  {
    var part := text[a..b];
    var x, y := part[i..i + |p|], text[a + i..a + i + |p|];
    forall k | 0 <= k < |p|
      ensures x[k] == y[k]
    {
      assert x[k] == part[i + k] && y[k] == text[a + i + k];
    }
    assert x == y;
  }

  lemma NotAcross(a: string, b: string, p: string, i: int)
    requires Fenced(a, b) && IsMarker(p) && 0 <= i < |a| < i + |p|
    ensures !At(a + b, p, i)
  {
    if b != "" {
      assert (a + b)[|a|] == b[0] && (a + b)[|a| - 1] == a[|a| - 1];
      AtChar(a + b, p, i, |a| - i);
      AtChar(a + b, p, i, |a| - i - 1);
    }
  }

  /** An occurrence in two fenced texts is in one of them. */
  lemma AtSplit(a: string, b: string, p: string, i: int)
    requires Fenced(a, b) && IsMarker(p)
    ensures At(a + b, p, i) <==> At(a, p, i) || At(b, p, i - |a|)
  {
    if 0 <= i && i + |p| <= |a| {
      assert (a + b)[i..i + |p|] == a[i..i + |p|];
    } else if |a| <= i && i + |p| <= |a| + |b| {
      assert (a + b)[i..i + |p|] == b[i - |a|..i - |a| + |p|];
    } else if 0 <= i < |a| < i + |p| {
      NotAcross(a, b, p, i);
    }
  }

  lemma OpensAt(text: string, p: string, i: int)
    requires IsMarker(p)
    ensures At(text, p, i) ==> At(text, OPEN, i)
  {
    if At(text, p, i) {
      assert text[i..i + |p|][..|OPEN|] == text[i..i + |OPEN|];
    }
  }

  lemma FreeHasNone(text: string, p: string, i: int)
    requires Free(text) && IsMarker(p)
    ensures !At(text, p, i)
  {
    OpensAt(text, p, i);
  }

  /** In a marker the only marker is itself. */
  lemma MarkerAt(m: string, p: string, i: int)
    requires IsMarker(m) && IsMarker(p)
    ensures At(m, p, i) <==> i == 0 && m == p
  {
    if At(m, p, i) {
      AtChar(m, p, i, 0);
      AtChar(m, p, i, |p| - 1);
      assert m[0..|p|] == p;
    }
  }

  lemma NoLessIsFree(text: string)
    requires '<' !in text
    ensures Free(text)
  {
    forall i
      ensures !At(text, OPEN, i)
    {
      if 0 <= i < |text| {
        AtChar(text, OPEN, i, 0);
      }
    }
  }

  /** Surrounding a text with line breaks adds no marker. */
  lemma FreeLines(text: string)
    requires Free(text)
    ensures Free("\n" + text + "\n")
  {
    var lines := "\n" + text + "\n";
    forall i
      ensures !At(lines, OPEN, i)
    {
      if 0 <= i && i + |OPEN| <= |lines| {
        AtChar(lines, OPEN, i, 0);
        AtChar(lines, OPEN, i, |OPEN| - 1);
        assert lines[1..|lines| - 1] == text;
        if 1 <= i && i + |OPEN| < |lines| {
          AtPart(lines, 1, |lines| - 1, OPEN, i - 1);
        }
      }
    }
  }

  lemma FreePart(text: string, a: int, b: int)
    requires Free(text) && 0 <= a <= b <= |text|
    ensures Free(text[a..b])
  {
    forall i
      ensures !At(text[a..b], OPEN, i)
    {
      if 0 <= i && i + |OPEN| <= b - a {
        AtPart(text, a, b, OPEN, i);
      }
    }
  }

  // ------------------------------------------------------------------ searching and counting

  /** strings.Index */
  function Index(text: string, p: string): (i: int)
    ensures -1 <= i <= |text|
    decreases |text|
  {
    if |text| < |p| then -1
    else if text[..|p|] == p then 0
    else if text == "" then -1
    else
      var i := Index(text[1..], p);
      if i < 0 then -1 else i + 1
  }

  lemma AtShift(text: string, p: string, k: int, i: int)
    requires 0 <= k <= |text| && i >= 0
    ensures At(text[k..], p, i) <==> At(text, p, k + i)
  {
    if i + |p| <= |text| - k {
      assert text[k..][i..i + |p|] == text[k + i..k + i + |p|];
    }
  }

  lemma {:induction false} IndexIsFirst(text: string, p: string)
    requires p != ""
    ensures Index(text, p) >= 0 ==> At(text, p, Index(text, p))
    ensures forall i :: At(text, p, i) ==> 0 <= Index(text, p) <= i
    decreases |text|
  {
    if |text| >= |p| && text[..|p|] != p {
      IndexIsFirst(text[1..], p);
      if Index(text, p) >= 0 {
        AtShift(text, p, 1, Index(text[1..], p));
      }
      forall i | At(text, p, i)
        ensures 0 <= Index(text, p) <= i
      {
        assert i != 0 by {
          assert text[0..|p|] == text[..|p|];
        }
        AtShift(text, p, 1, i - 1);
      }
    }
  }

  /** strings.Count of a nonempty pattern: occurrences that do not overlap */
  function Count(text: string, p: string): nat
    requires p != ""
    decreases |text|, 1
  {
    CountFrom(text, p, Index(text, p))
  }

  function CountFrom(text: string, p: string, i: int): nat
    requires p != ""
    decreases |text|, 0
  {
    if i < 0 || i + |p| > |text| then 0 else 1 + Count(text[i + |p|..], p)
  }

  /** The pattern occurs at i and nowhere else. */
  ghost predicate Once(text: string, p: string, i: int)
  {
    At(text, p, i) && forall j :: At(text, p, j) ==> j == i
  }

  ghost predicate Never(text: string, p: string)
  {
    forall j :: !At(text, p, j)
  }

  lemma CountNone(text: string, p: string)
    requires p != ""
    ensures Count(text, p) == 0 <==> Never(text, p)
    ensures Never(text, p) <==> Index(text, p) < 0
  {
    IndexIsFirst(text, p);
  }

  /** Markers, equal or not, never overlap. */
  lemma NoOverlap(text: string, p: string, q: string, i: int, j: int)
    requires IsMarker(p) && IsMarker(q) && At(text, p, i) && At(text, q, j) && i < j
    ensures i + |p| <= j
  {
    if j < i + |p| {
      AtChar(text, p, i, j - i);
      AtChar(text, q, j, 0);
    }
  }

  lemma SamePlace(text: string, p: string, q: string, i: int)
    requires IsMarker(p) && IsMarker(q) && At(text, p, i) && At(text, q, i)
    ensures p == q
  {
    AtChar(text, p, i, |p| - 1);
    AtChar(text, q, i, |q| - 1);
    if |p| <= |q| {
      AtChar(text, q, i, |p| - 1);
    } else {
      AtChar(text, p, i, |q| - 1);
    }
  }

  lemma AfterFirst(text: string, p: string, i: int)
    requires IsMarker(p) && At(text, p, i)
    requires forall j :: At(text, p, j) ==> i <= j
    ensures Never(text[i + |p|..], p) <==> Once(text, p, i)
  {
    var k := i + |p|;
    forall j | At(text, p, j)
      ensures j == i || (j >= k && At(text[k..], p, j - k))
    {
      if i < j {
        NoOverlap(text, p, p, i, j);
        AtShift(text, p, k, j - k);
      }
    }
    forall j | At(text[k..], p, j)
      ensures At(text, p, k + j)
    {
      AtShift(text, p, k, j);
    }
  }

  /** Counting finds exactly one occurrence when there is exactly one, which is then the one that is found. */
  lemma CountOnce(text: string, p: string)
    requires IsMarker(p)
    ensures Count(text, p) == 1 <==> Once(text, p, Index(text, p))
  {
    IndexIsFirst(text, p);
    var i := Index(text, p);
    if i >= 0 {
      AfterFirst(text, p, i);
      CountStep(text, p, i);
      CountNone(text[i + |p|..], p);
    } else {
      CountNone(text, p);
    }
  }

  lemma CountStep(text: string, p: string, i: int)
    requires p != "" && 0 <= i <= |text| - |p|
    ensures CountFrom(text, p, i) == 1 + Count(text[i + |p|..], p)
  {
  }

  lemma OnceIndex(text: string, p: string, i: int)
    requires IsMarker(p) && Once(text, p, i)
    ensures Index(text, p) == i && Count(text, p) == 1
  {
    IndexIsFirst(text, p);
    CountOnce(text, p);
  }

  // ------------------------------------------------------------------ texts made of pieces

  lemma OnceSplit(a: string, b: string, p: string, i: int)
    requires Fenced(a, b) && IsMarker(p)
    ensures Once(a, p, i) && Never(b, p) ==> Once(a + b, p, i)
    ensures Never(a, p) && Once(b, p, i) ==> Once(a + b, p, |a| + i)
    ensures Never(a + b, p) <==> Never(a, p) && Never(b, p)
  {
    forall j
      ensures At(a + b, p, j) <==> At(a, p, j) || At(b, p, j - |a|)
    {
      AtSplit(a, b, p, j);
    }
    forall j | At(b, p, j)
      ensures At(a + b, p, |a| + j)
    {
      AtSplit(a, b, p, |a| + j);
    }
  }

  /** Where two markers are in a text, each only once, with `mid` between them. */
  ghost predicate Placed(text: string, s: string, e: string, mid: string, at: int)
  {
    && 0 <= at && at + |s| + |mid| <= |text|
    && Once(text, s, at) && Once(text, e, at + |s| + |mid|)
    && text[at + |s|..at + |s| + |mid|] == mid
  }

  lemma PlacedAfter(front: string, text: string, s: string, e: string, mid: string, at: int)
    requires IsMarker(s) && IsMarker(e) && Fenced(front, text) && Placed(text, s, e, mid, at)
    requires Never(front, s) && Never(front, e)
    ensures Placed(front + text, s, e, mid, |front| + at)
  {
    var from := at + |s|;
    OnceSplit(front, text, s, at);
    OnceSplit(front, text, e, from + |mid|);
    SliceAfter(front, text, from, from + |mid|);
  }

  lemma SliceAfter(front: string, text: string, from: int, to: int)
    requires 0 <= from <= to <= |text|
    ensures (front + text)[|front| + from..|front| + to] == text[from..to]
  {
  }

  lemma PlacedBefore(text: string, back: string, s: string, e: string, mid: string, at: int)
    requires IsMarker(s) && IsMarker(e) && Fenced(text, back) && Placed(text, s, e, mid, at)
    requires Never(back, s) && Never(back, e)
    ensures Placed(text + back, s, e, mid, at)
  {
    var from := at + |s|;
    OnceSplit(text, back, s, at);
    OnceSplit(text, back, e, from + |mid|);
    assert (text + back)[from..from + |mid|] == text[from..from + |mid|];
  }

  // ---------------------------------------------------------------------- making markers

  const CLOSE := " -->"

  /** What may stand between the ends of a marker. */
  predicate Plain(x: string)
  {
    forall i :: 0 <= i < |x| ==> x[i] != '<' && x[i] != '>' && x[i] != '\n'
  }

  function Marker(x: string): string
  {
    OPEN + x + CLOSE
  }

  lemma MarkerIsMarker(x: string)
    requires Plain(x)
    ensures IsMarker(Marker(x))
  {
    var m := Marker(x);
    assert m[..|OPEN|] == OPEN;
    forall i | 0 < i < |m|
      ensures m[i] != '<' && m[i] != '\n'
    {
      assert m[i] == if i < |OPEN| then OPEN[i] else if i < |OPEN| + |x| then x[i - |OPEN|] else CLOSE[i - |OPEN| - |x|];
    }
    forall i | 0 <= i < |m| - 1
      ensures m[i] != '>'
    {
      assert m[i] == if i < |OPEN| then OPEN[i] else if i < |OPEN| + |x| then x[i - |OPEN|] else CLOSE[i - |OPEN| - |x|];
    }
  }

  lemma MarkerTells(x: string, y: string)
    ensures Marker(x) == Marker(y) <==> x == y
  {
    if Marker(x) == Marker(y) {
      assert Marker(x)[|OPEN|..|OPEN| + |x|] == x && Marker(y)[|OPEN|..|OPEN| + |y|] == y;
    }
  }
}
