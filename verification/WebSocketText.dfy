/**
 Which text is valid and which close frames are accepted: valid UTF-8 is exactly what
 encodes a sequence of Unicode scalar values (RFC 3629, section 3), and close codes are
 those of RFC 6455, section 7.4.
 */
module WebSocketText {
  import opened WebSocketFrames
  import opened WebSocketMessages

  /** A Unicode scalar value: any code point but the surrogates. */
  type Scalar = c: int | 0 <= c <= 0x10FFFF && !(0xD800 <= c <= 0xDFFF)

  function Encoded(c: Scalar): (bytes: Bytes)
    ensures 1 <= |bytes| <= 4
  {
    if c < 0x80 then [c]
    else if c < 0x800 then [0xC0 + c / 0x40, 0x80 + c % 0x40]
    else if c < 0x10000 then [0xE0 + c / 0x1000, 0x80 + c / 0x40 % 0x40, 0x80 + c % 0x40]
    else [0xF0 + c / 0x40000, 0x80 + c / 0x1000 % 0x40, 0x80 + c / 0x40 % 0x40, 0x80 + c % 0x40]
  }

  function AllEncoded(cs: seq<Scalar>): Bytes
    decreases |cs|
  {
    if cs == [] then [] else Encoded(cs[0]) + AllEncoded(cs[1..])
  }

  lemma OneOrTwo(c: Scalar, rest: Bytes)
    requires c < 0x800
    ensures RuneLength(Encoded(c) + rest) == |Encoded(c)|
  {
    var s := Encoded(c) + rest;
    assert s[0] == Encoded(c)[0] && (c >= 0x80 ==> s[1] == Encoded(c)[1]);
  }

  lemma Three(c: Scalar, rest: Bytes)
    requires 0x800 <= c < 0x10000
    ensures RuneLength(Encoded(c) + rest) == 3
  {
    var s := Encoded(c) + rest;
    assert s[0] == Encoded(c)[0] && s[1] == Encoded(c)[1] && s[2] == Encoded(c)[2];
    assert 0xE0 <= s[0] <= 0xEF && 0x80 <= s[1] <= 0xBF && 0x80 <= s[2] <= 0xBF;
    assert s[0] == 0xE0 ==> s[1] >= 0xA0;
    assert s[0] == 0xED ==> s[1] <= 0x9F;
  }

  lemma Four(c: Scalar, rest: Bytes)
    requires 0x10000 <= c
    ensures RuneLength(Encoded(c) + rest) == 4
  {
    var s := Encoded(c) + rest;
    assert s[0] == Encoded(c)[0] && s[1] == Encoded(c)[1] && s[2] == Encoded(c)[2] && s[3] == Encoded(c)[3];
    assert 0xF0 <= s[0] <= 0xF4 && 0x80 <= s[1] <= 0xBF && 0x80 <= s[2] <= 0xBF && 0x80 <= s[3] <= 0xBF;
    assert s[0] == 0xF0 ==> s[1] >= 0x90;
    assert s[0] == 0xF4 ==> s[1] <= 0x8F;
  }

  lemma EncodedIsRead(c: Scalar, rest: Bytes)
    ensures RuneLength(Encoded(c) + rest) == |Encoded(c)|
  {
    if c < 0x800 {
      OneOrTwo(c, rest);
    } else if c < 0x10000 {
      Three(c, rest);
    } else {
      Four(c, rest);
    }
  }

  function Number(x: int, y: int, z: int, w: int): int
  {
    ((x * 0x40 + y) * 0x40 + z) * 0x40 + w
  }

  lemma Digits(x: int, y: int, z: int, w: int)
    requires x >= 0 && 0 <= y < 0x40 && 0 <= z < 0x40 && 0 <= w < 0x40
    ensures var c := Number(x, y, z, w);
            c % 0x40 == w && c / 0x40 % 0x40 == z && c / 0x1000 % 0x40 == y && c / 0x1000 == x * 0x40 + y && c / 0x40000 == x
  {
    var c := Number(x, y, z, w);
    assert c / 0x40 == (x * 0x40 + y) * 0x40 + z;
    assert c / 0x1000 == x * 0x40 + y;
  }

  /** The scalar value at the start of a text. */
  function Decoded(s: Bytes): int
    requires s != [] && RuneLength(s) > 0
  {
    var n, a: int := RuneLength(s), s[0];
    if n == 1 then a
    else
      var b: int := s[1];
      if n == 2 then Number(0, 0, a - 0xC0, b - 0x80)
      else
        var c: int := s[2];
        if n == 3 then Number(0, a - 0xE0, b - 0x80, c - 0x80)
        else
          var d: int := s[3];
          Number(a - 0xF0, b - 0x80, c - 0x80, d - 0x80)
  }

  predicate IsScalar(c: int)
  {
    0 <= c <= 0x10FFFF && !(0xD800 <= c <= 0xDFFF)
  }

  lemma ReadTwo(s: Bytes)
    requires s != [] && RuneLength(s) == 2
    ensures IsScalar(Decoded(s)) && Encoded(Decoded(s)) == s[..2]
  {
    var a: int, b: int := s[0], s[1];
    Digits(0, 0, a - 0xC0, b - 0x80);
  }

  lemma ReadThree(s: Bytes)
    requires s != [] && RuneLength(s) == 3
    ensures IsScalar(Decoded(s)) && Encoded(Decoded(s)) == s[..3]
  {
    var a: int, b: int, c: int := s[0], s[1], s[2];
    Digits(0, a - 0xE0, b - 0x80, c - 0x80);
    assert 0x800 <= Decoded(s) < 0x10000;
  }

  lemma ReadFour(s: Bytes)
    requires s != [] && RuneLength(s) == 4
    ensures IsScalar(Decoded(s)) && Encoded(Decoded(s)) == s[..4]
  {
    var a: int, b: int, c: int, d: int := s[0], s[1], s[2], s[3];
    Digits(a - 0xF0, b - 0x80, c - 0x80, d - 0x80);
    assert 0x10000 <= Decoded(s) <= 0x10FFFF;
  }

  lemma ReadIsEncoded(s: Bytes)
    requires s != [] && RuneLength(s) > 0
    ensures IsScalar(Decoded(s)) && Encoded(Decoded(s)) == s[..RuneLength(s)]
  {
    match RuneLength(s)
    case 1 => assert s[..1] == [s[0]];
    case 2 => ReadTwo(s);
    case 3 => ReadThree(s);
    case _ => ReadFour(s);
  }

  /** A text is accepted exactly when it encodes some scalar values. */
  lemma {:induction false} EncodedIsValid(cs: seq<Scalar>)
    ensures Utf8(AllEncoded(cs))
    decreases |cs|
  {
    if cs != [] {
      var rest := AllEncoded(cs[1..]);
      EncodedIsRead(cs[0], rest);
      EncodedIsValid(cs[1..]);
      assert (Encoded(cs[0]) + rest)[|Encoded(cs[0])|..] == rest;
    }
  }

  lemma {:induction false} ValidIsEncoded(s: Bytes) returns (cs: seq<Scalar>)
    requires Utf8(s)
    ensures s == AllEncoded(cs)
    decreases |s|
  {
    if s == [] {
      cs := [];
    } else {
      var n := RuneLength(s);
      ReadIsEncoded(s);
      var rest := ValidIsEncoded(s[n..]);
      cs := [Decoded(s)] + rest;
      assert cs[1..] == rest && s == s[..n] + s[n..];
    }
  }

  lemma Utf8Exactly(s: Bytes)
    ensures Utf8(s) <==> exists cs :: s == AllEncoded(cs)
  {
    if Utf8(s) {
      var cs := ValidIsEncoded(s);
    }
    if cs :| s == AllEncoded(cs) {
      EncodedIsValid(cs);
    }
  }

  // -------------------------------------------------------------------------- close frames

  /** The number in the first two bytes. */
  function CodeOf(payload: Bytes): int
    requires |payload| >= 2
  {
    var high: int, low: int := payload[0], payload[1];
    high * 256 + low
  }

  /** The codes that must not be sent: below 1000, reserved, not assigned, or out of range. */
  predicate Unsendable(code: int)
  {
    || code < 1000 || code == 1004 || code == 1005 || code == 1006 || code == 1015
    || 1016 <= code <= 2999 || code >= 5000
  }

  /** Which close frames are accepted, with which code and reason, and what is wrong with the others. */
  lemma CloseAnswers(payload: Bytes)
    ensures ParseClose(payload)
            == if payload == [] then Closing(1000, [])
               else if |payload| == 1 then BadClosing(TooShort)
               else if Unsendable(CodeOf(payload)) then BadClosing(InvalidCode)
               else if Utf8(payload[2..]) then Closing(CodeOf(payload), payload[2..])
               else BadClosing(InvalidReason)
  {
    if |payload| >= 2 {
      var front, first := payload[..2], [payload[0]];
      assert first[..0] == [] && FromBigEndian([]) == 0 && FromBigEndian(first) == payload[0];
      assert front[..1] == first && front[1] == payload[1];
      assert FromBigEndian(front) == CodeOf(payload);
    }
  }
}
