/**
 WebSocket frames on the wire (RFC 6455, section 5.2): the encoder and decoder of
 websocket.go as functions, and that they are inverse to one another.
 */
module WebSocketFrames {
  datatype Option<T> = None | Some(value: T)

  type Byte = b: int | 0 <= b < 256

  type Bytes = seq<Byte>

  const CONTINUATION := 0
  const TEXT := 1
  const BINARY := 2
  const CLOSE := 8
  const PING := 9
  const PONG := 10

  const MAX_INT := 0x7fff_ffff_ffff_ffff

  /** `mask` is present on frames sent by a client; `payload` is always unmasked. */
  datatype Frame = Frame(fin: bool, opcode: int, mask: Option<Bytes>, payload: Bytes)

  predicate IsControl(opcode: int)
  {
    opcode >= 8
  }

  /** The frames either side may put on the wire. */
  predicate WellFormed(f: Frame)
  {
    && 0 <= f.opcode < 16
    && |f.payload| <= MAX_INT
    && (IsControl(f.opcode) ==> f.fin && |f.payload| <= 125)
    && (f.mask.Some? ==> |f.mask.value| == 4)
  }

  // ---------------------------------------------------------------- exclusive or

  function Xor(a: nat, b: nat): nat
    decreases a + b
  {
    if a == 0 && b == 0 then 0
    else 2 * Xor(a / 2, b / 2) + if a % 2 != b % 2 then 1 else 0
  }

  function Pow2(k: nat): (p: nat)
    ensures p > 0
  {
    if k == 0 then 1 else 2 * Pow2(k - 1)
  }

  lemma {:induction false} XorBounded(a: nat, b: nat, k: nat)
    requires a < Pow2(k) && b < Pow2(k)
    ensures Xor(a, b) < Pow2(k)
    decreases k
  {
    if k > 0 {
      XorBounded(a / 2, b / 2, k - 1);
    }
  }

  lemma {:induction false} XorInvolutive(a: nat, b: nat)
    ensures Xor(Xor(a, b), b) == a
    decreases a + b
  {
    if a != 0 || b != 0 {
      XorInvolutive(a / 2, b / 2);
      var x := Xor(a, b);
      assert x / 2 == Xor(a / 2, b / 2);
    }
  }

  function XorByte(a: Byte, b: Byte): Byte
  {
    assert Pow2(8) == 256 by { Pow2Of8(); }
    XorBounded(a, b, 8);
    Xor(a, b)
  }

  lemma Pow2Of8()
    ensures Pow2(8) == 256
  {
    assert Pow2(4) == 16;
  }

  function Masked(payload: Bytes, mask: Bytes): (masked: Bytes)
    requires |mask| == 4
    ensures |masked| == |payload|
    ensures forall i :: 0 <= i < |payload| ==> masked[i] == XorByte(payload[i], mask[i % 4])
  {
    seq(|payload|, i requires 0 <= i < |payload| => XorByte(payload[i], mask[i % 4]))
  }

  lemma MaskedTwice(payload: Bytes, mask: Bytes)
    requires |mask| == 4
    ensures Masked(Masked(payload, mask), mask) == payload
  {
    forall i | 0 <= i < |payload|
      ensures Masked(Masked(payload, mask), mask)[i] == payload[i]
    {
      XorInvolutive(payload[i], mask[i % 4]);
    }
  }

  // ---------------------------------------------------------- big-endian numbers

  function BigEndian(n: nat, width: nat): (bytes: Bytes)
    ensures |bytes| == width
  {
    if width == 0 then [] else BigEndian(n / 256, width - 1) + [n % 256]
  }

  function FromBigEndian(bytes: Bytes): nat
  {
    if bytes == [] then 0
    else FromBigEndian(bytes[..|bytes| - 1]) * 256 + bytes[|bytes| - 1]
  }

  function Pow256(k: nat): nat
  {
    if k == 0 then 1 else 256 * Pow256(k - 1)
  }

  lemma {:induction false} FromBigEndianOf(n: nat, width: nat)
    requires n < Pow256(width)
    ensures FromBigEndian(BigEndian(n, width)) == n
    decreases width
  {
    if width > 0 {
      FromBigEndianOf(n / 256, width - 1);
      var bytes := BigEndian(n, width);
      assert bytes[..width - 1] == BigEndian(n / 256, width - 1);
    }
  }

  lemma {:induction false} BigEndianOf(bytes: Bytes)
    ensures FromBigEndian(bytes) < Pow256(|bytes|)
    ensures BigEndian(FromBigEndian(bytes), |bytes|) == bytes
    decreases |bytes|
  {
    if bytes != [] {
      BigEndianOf(bytes[..|bytes| - 1]);
      var n := FromBigEndian(bytes);
      assert n / 256 == FromBigEndian(bytes[..|bytes| - 1]) && n % 256 == bytes[|bytes| - 1];
    }
  }

  lemma Pow256s()
    ensures Pow256(2) == 65536 && Pow256(8) == 0x1_0000_0000_0000_0000
  {
    assert Pow256(4) == 0x1_0000_0000;
    assert Pow256(6) == 0x1_0000_0000_0000;
  }

  // -------------------------------------------------------------------- encoding

  function LengthBytes(masked: bool, length: nat): Bytes
    requires length <= MAX_INT
  {
    var maskBit: int := if masked then 0x80 else 0;
    if length <= 125 then [maskBit + length]
    else if length <= 65535 then [maskBit + 126] + BigEndian(length, 2)
    else [maskBit + 127] + BigEndian(length, 8)
  }

  function MaskBytes(f: Frame): Bytes
  {
    if f.mask.Some? then f.mask.value else []
  }

  function Body(f: Frame): Bytes
    requires f.mask.Some? ==> |f.mask.value| == 4
  {
    if f.mask.Some? then Masked(f.payload, f.mask.value) else f.payload
  }

  function FirstByte(fin: bool, opcode: int): Byte
    requires 0 <= opcode < 16
  {
    opcode + if fin then 0x80 else 0
  }

  /** The bytes of a frame; writeFrame only ever writes final ones. */
  function Encode(f: Frame): Bytes
    requires WellFormed(f)
  {
    [FirstByte(f.fin, f.opcode)] + LengthBytes(f.mask.Some?, |f.payload|) + (MaskBytes(f) + Body(f))
  }

  // -------------------------------------------------------------------- decoding

  datatype Violation = ReservedBits | WrongMasking | NonMinimalLength | InvalidLength | InvalidControl

  datatype Decoded =
    | Read(frame: Frame, rest: Bytes)
    | EndOfInput
    | Violates(violation: Violation)
    | TooLarge

  datatype Length = Length(value: nat, rest: Bytes) | LengthEnds | LengthViolates(violation: Violation)

  /** The payload length after the first two bytes; `low` is the second one without its mask bit. */
  function DecodeLength(low: int, input: Bytes): Length
    requires 0 <= low < 128
  {
    if low == 126 then
      if |input| < 2 then LengthEnds
      else
        var value := FromBigEndian(input[..2]);
        if value < 126 then LengthViolates(NonMinimalLength) else Length(value, input[2..])
    else if low == 127 then
      if |input| < 8 then LengthEnds
      else
        var value := FromBigEndian(input[..8]);
        if value < 65536 || value > MAX_INT then LengthViolates(InvalidLength) else Length(value, input[8..])
    else Length(low, input)
  }

  datatype Header =
    | Header(fin: bool, opcode: int, length: nat, rest: Bytes)
    | HeaderEnds
    | HeaderViolates(violation: Violation)
    | HeaderTooLarge

  /** readFrame up to the size check */
  function DecodeHeader(input: Bytes, expectMasked: bool, limit: int): Header
  {
    if |input| < 2 then HeaderEnds
    else
      var fin, opcode := input[0] >= 0x80, input[0] % 16;
      if input[0] / 16 % 8 != 0 then HeaderViolates(ReservedBits)
      else if (input[1] >= 0x80) != expectMasked then HeaderViolates(WrongMasking)
      else
        match DecodeLength(input[1] % 128, input[2..])
        case LengthEnds => HeaderEnds
        case LengthViolates(violation) => HeaderViolates(violation)
        case Length(length, rest) =>
          if IsControl(opcode) && (!fin || length > 125) then HeaderViolates(InvalidControl)
          else if length > limit || length > MAX_INT then HeaderTooLarge
          else Header(fin, opcode, length, rest)
  }

  /** readFrame from the mask on */
  function DecodeBody(fin: bool, opcode: int, masked: bool, length: nat, input: Bytes): Decoded
  {
    if !masked then
      if |input| < length then EndOfInput
      else Read(Frame(fin, opcode, None, input[..length]), input[length..])
    else if |input| < 4 || |input| - 4 < length then EndOfInput
    else Read(Frame(fin, opcode, Some(input[..4]), Masked(input[4..4 + length], input[..4])), input[4 + length..])
  }

  function Decode(input: Bytes, expectMasked: bool, limit: int): Decoded
  {
    match DecodeHeader(input, expectMasked, limit)
    case HeaderEnds => EndOfInput
    case HeaderViolates(violation) => Violates(violation)
    case HeaderTooLarge => TooLarge
    case Header(fin, opcode, length, rest) => DecodeBody(fin, opcode, expectMasked, length, rest)
  }

  // ------------------------------------------------------------------ inverse both ways

  lemma LengthRoundTrip(masked: bool, length: nat, rest: Bytes)
    requires length <= MAX_INT
    ensures var bytes := LengthBytes(masked, length) + rest;
            && (bytes[0] >= 0x80 <==> masked)
            && DecodeLength(bytes[0] % 128, bytes[1..]) == Length(length, rest)
  {
    Pow256s();
    var first := LengthBytes(masked, length)[0];
    if length > 65535 {
      FromBigEndianOf(length, 8);
      Prefixed(first, BigEndian(length, 8), rest);
    } else if length > 125 {
      FromBigEndianOf(length, 2);
      Prefixed(first, BigEndian(length, 2), rest);
    } else {
      Prefixed(first, [], rest);
    }
  }

  lemma Prefixed(first: Byte, digits: Bytes, rest: Bytes)
    ensures var bytes := [first] + digits + rest;
            && bytes[0] == first && |bytes[1..]| >= |digits|
            && bytes[1..][..|digits|] == digits && bytes[1..][|digits|..] == rest
            && [first] + rest == [first] + [] + rest
  {
    var bytes := [first] + digits + rest;
    assert bytes[1..] == digits + rest;
    assert [first] + rest == [first] + [] + rest;
  }

  lemma HeaderRoundTrip(fin: bool, opcode: int, masked: bool, length: nat, rest: Bytes, limit: int)
    requires 0 <= opcode < 16 && length <= MAX_INT && length <= limit
    requires IsControl(opcode) ==> fin && length <= 125
    ensures DecodeHeader([FirstByte(fin, opcode)] + LengthBytes(masked, length) + rest, masked, limit)
            == Header(fin, opcode, length, rest)
  {
    FirstByteFields(fin, opcode);
    LengthRoundTrip(masked, length, rest);
    Shifted([FirstByte(fin, opcode)], LengthBytes(masked, length), rest);
  }

  lemma FirstByteFields(fin: bool, opcode: int)
    requires 0 <= opcode < 16
    ensures var b := FirstByte(fin, opcode); (b >= 0x80 <==> fin) && b % 16 == opcode && b / 16 % 8 == 0
  {
  }

  lemma Shifted(a: Bytes, b: Bytes, c: Bytes)
    requires |a| == 1 && |b| >= 1
    ensures (a + b + c)[0] == a[0] && (a + b + c)[1] == (b + c)[0] && (a + b + c)[2..] == (b + c)[1..]
  {
  }

  lemma BodyRoundTrip(f: Frame, rest: Bytes)
    requires WellFormed(f)
    ensures DecodeBody(f.fin, f.opcode, f.mask.Some?, |f.payload|, MaskBytes(f) + Body(f) + rest) == Read(f, rest)
  {
    var input := MaskBytes(f) + Body(f) + rest;
    if f.mask.Some? {
      MaskedTwice(f.payload, f.mask.value);
      assert input[..4] == f.mask.value && input[4..4 + |f.payload|] == Body(f) && input[4 + |f.payload|..] == rest;
    } else {
      assert input[..|f.payload|] == f.payload && input[|f.payload|..] == rest;
    }
  }

  /** Reading back a written frame gives its opcode and payload and stops at the next frame. */
  lemma DecodeEncode(f: Frame, rest: Bytes, limit: int)
    requires WellFormed(f) && |f.payload| <= limit
    ensures Decode(Encode(f) + rest, f.mask.Some?, limit) == Read(f, rest)
  {
    var header := [FirstByte(f.fin, f.opcode)] + LengthBytes(f.mask.Some?, |f.payload|);
    var tail := MaskBytes(f) + Body(f);
    assert header + tail + rest == header + (tail + rest);
    HeaderRoundTrip(f.fin, f.opcode, f.mask.Some?, |f.payload|, tail + rest, limit);
    BodyRoundTrip(f, rest);
  }

  lemma LengthCanonical(first: Byte, input: Bytes)
    requires DecodeLength(first % 128, input).Length?
    ensures var d := DecodeLength(first % 128, input);
            d.value <= MAX_INT && [first] + input == LengthBytes(first >= 0x80, d.value) + d.rest
  {
    var low := first % 128;
    Pow256s();
    if low == 126 {
      BigEndianOf(input[..2]);
      assert input == input[..2] + input[2..];
    } else if low == 127 {
      BigEndianOf(input[..8]);
      assert input == input[..8] + input[8..];
    }
  }

  lemma HeaderCanonical(input: Bytes, expectMasked: bool, limit: int)
    requires DecodeHeader(input, expectMasked, limit).Header?
    ensures var d := DecodeHeader(input, expectMasked, limit);
            && 0 <= d.opcode < 16 && d.length <= MAX_INT && d.length <= limit
            && (IsControl(d.opcode) ==> d.fin && d.length <= 125)
            && input == [FirstByte(d.fin, d.opcode)] + LengthBytes(expectMasked, d.length) + d.rest
  {
    LengthCanonical(input[1], input[2..]);
    var d := DecodeHeader(input, expectMasked, limit);
    assert input[0] == FirstByte(d.fin, d.opcode);
    Rejoined(input, LengthBytes(expectMasked, d.length), d.rest);
  }

  lemma Rejoined(input: Bytes, b: Bytes, c: Bytes)
    requires |input| >= 2 && [input[1]] + input[2..] == b + c
    ensures input == [input[0]] + b + c
  {
    assert input == [input[0]] + ([input[1]] + input[2..]);
    assert [input[0]] + (b + c) == [input[0]] + b + c;
  }

  lemma BodyCanonical(fin: bool, opcode: int, masked: bool, length: nat, input: Bytes)
    requires DecodeBody(fin, opcode, masked, length, input).Read?
    ensures var d := DecodeBody(fin, opcode, masked, length, input);
            && d.frame == Frame(fin, opcode, d.frame.mask, d.frame.payload)
            && d.frame.mask.Some? == masked && |d.frame.payload| == length && (masked ==> |d.frame.mask.value| == 4)
            && input == MaskBytes(d.frame) + Body(d.frame) + d.rest
  {
    var d := DecodeBody(fin, opcode, masked, length, input);
    if masked {
      MaskedTwice(input[4..4 + length], input[..4]);
      assert input == input[..4] + input[4..4 + length] + d.rest;
    } else {
      assert input == input[..length] + d.rest;
    }
  }

  /** Whatever the reader accepts is the one encoding of the frame it returns: only minimal lengths are accepted. */
  lemma EncodeDecode(input: Bytes, expectMasked: bool, limit: int)
    requires Decode(input, expectMasked, limit).Read?
    ensures var d := Decode(input, expectMasked, limit);
            && Sendable(d.frame, expectMasked, limit)
            && input == Encode(d.frame) + d.rest
  {
    HeaderCanonical(input, expectMasked, limit);
    var h := DecodeHeader(input, expectMasked, limit);
    BodyCanonical(h.fin, h.opcode, expectMasked, h.length, h.rest);
    var d := DecodeBody(h.fin, h.opcode, expectMasked, h.length, h.rest);
    Regrouped([FirstByte(h.fin, h.opcode)] + LengthBytes(expectMasked, h.length), MaskBytes(d.frame) + Body(d.frame), d.rest);
  }

  lemma Regrouped(a: Bytes, b: Bytes, c: Bytes)
    ensures a + (b + c) == a + b + c
  {
  }

  lemma DecodeShrinks(input: Bytes, expectMasked: bool, limit: int)
    requires Decode(input, expectMasked, limit).Read?
    ensures |Decode(input, expectMasked, limit).rest| < |input|
  {
    EncodeDecode(input, expectMasked, limit);
  }

  // --------------------------------------------------------------------- streams

  predicate Sendable(f: Frame, masked: bool, limit: int)
  {
    WellFormed(f) && f.mask.Some? == masked && |f.payload| <= limit
  }

  ghost predicate AllWellFormed(frames: seq<Frame>)
  {
    forall i :: 0 <= i < |frames| ==> WellFormed(frames[i])
  }

  ghost predicate AllSendable(frames: seq<Frame>, masked: bool, limit: int)
  {
    forall i :: 0 <= i < |frames| ==> Sendable(frames[i], masked, limit)
  }

  function EncodeAll(frames: seq<Frame>): Bytes
    requires AllWellFormed(frames)
  {
    if frames == [] then [] else Encode(frames[0]) + EncodeAll(frames[1..])
  }

  /** All frames of a byte stream, if it is nothing but acceptable frames. */
  function DecodeAll(input: Bytes, expectMasked: bool, limit: int): Option<seq<Frame>>
    decreases |input|
  {
    if input == [] then Some([])
    else
      match Decode(input, expectMasked, limit)
      case Read(frame, rest) =>
        DecodeShrinks(input, expectMasked, limit);
        (match DecodeAll(rest, expectMasked, limit)
         case Some(frames) => Some([frame] + frames)
         case None => None)
      case _ => None
  }

  /** Reading back any stream of written frames yields the same frames in order. */
  lemma {:induction false} DecodeAllEncodeAll(frames: seq<Frame>, masked: bool, limit: int)
    requires AllSendable(frames, masked, limit)
    ensures DecodeAll(EncodeAll(frames), masked, limit) == Some(frames)
    decreases |frames|
  {
    if frames != [] {
      DecodeAllEncodeAll(frames[1..], masked, limit);
      DecodeAllCons(frames[0], EncodeAll(frames[1..]), masked, limit);
      assert [frames[0]] + frames[1..] == frames;
    }
  }

  lemma DecodeAllCons(f: Frame, rest: Bytes, masked: bool, limit: int)
    requires Sendable(f, masked, limit) && DecodeAll(rest, masked, limit).Some?
    ensures DecodeAll(Encode(f) + rest, masked, limit) == Some([f] + DecodeAll(rest, masked, limit).value)
  {
    DecodeEncode(f, rest, limit);
    DecodeAllStep(f, Encode(f) + rest, rest, masked, limit);
  }

  lemma DecodeAllStep(f: Frame, input: Bytes, rest: Bytes, masked: bool, limit: int)
    requires Decode(input, masked, limit) == Read(f, rest) && DecodeAll(rest, masked, limit).Some?
    ensures DecodeAll(input, masked, limit) == Some([f] + DecodeAll(rest, masked, limit).value)
  {
    assert input != [];
  }

  /** And any stream that reads back is the encoding of its frames. */
  lemma {:induction false} EncodeAllDecodeAll(input: Bytes, masked: bool, limit: int)
    requires DecodeAll(input, masked, limit).Some?
    ensures AllSendable(DecodeAll(input, masked, limit).value, masked, limit)
    ensures EncodeAll(DecodeAll(input, masked, limit).value) == input
    decreases |input|
  {
    if input != [] {
      EncodeDecode(input, masked, limit);
      var d := Decode(input, masked, limit);
      EncodeAllDecodeAll(d.rest, masked, limit);
      var frames := DecodeAll(input, masked, limit).value;
      assert frames[1..] == DecodeAll(d.rest, masked, limit).value;
    }
  }

  lemma {:induction false} EncodeAllAppend(frames: seq<Frame>, f: Frame)
    requires WellFormed(f) && AllWellFormed(frames)
    ensures EncodeAll(frames + [f]) == EncodeAll(frames) + Encode(f)
    decreases |frames|
  {
    if frames == [] {
      assert [f][1..] == [] && EncodeAll([f]) == Encode(f) + [];
    } else {
      EncodeAllAppend(frames[1..], f);
      assert (frames + [f])[1..] == frames[1..] + [f];
      Regrouped(Encode(frames[0]), EncodeAll(frames[1..]), Encode(f));
    }
  }
}
