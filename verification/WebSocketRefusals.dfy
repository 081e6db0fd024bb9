/**
 What readFrame makes of bytes that are no frame it may accept: frames of the wrong role,
 frames beyond the limit, and frames that are cut off.
 */
module WebSocketRefusals {
  import opened WebSocketFrames

  function HeaderBytes(f: Frame): Bytes
    requires WellFormed(f)
  {
    [FirstByte(f.fin, f.opcode)] + LengthBytes(f.mask.Some?, |f.payload|)
  }

  lemma EncodedParts(f: Frame, rest: Bytes)
    requires WellFormed(f)
    ensures Encode(f) + rest == [FirstByte(f.fin, f.opcode)] + LengthBytes(f.mask.Some?, |f.payload|) + (MaskBytes(f) + Body(f) + rest)
  {
    Regrouped(HeaderBytes(f), MaskBytes(f) + Body(f), rest);
  }

  lemma FirstTwo(f: Frame, rest: Bytes)
    requires WellFormed(f)
    ensures var input := HeaderBytes(f) + rest;
            && |input| >= 2 && input[0] == FirstByte(f.fin, f.opcode) && (input[1] >= 0x80 <==> f.mask.Some?)
            && input[0] / 16 % 8 == 0 && input[0] % 16 == f.opcode && (input[0] >= 0x80 <==> f.fin)
            && DecodeLength(input[1] % 128, input[2..]) == Length(|f.payload|, rest)
  {
    FirstByteFields(f.fin, f.opcode);
    LengthRoundTrip(f.mask.Some?, |f.payload|, rest);
    Shifted([FirstByte(f.fin, f.opcode)], LengthBytes(f.mask.Some?, |f.payload|), rest);
  }

  /** A frame of the reader's own role is a protocol violation, whatever follows. */
  lemma WrongRoleRefused(f: Frame, rest: Bytes, limit: int)
    requires WellFormed(f)
    ensures Decode(Encode(f) + rest, f.mask.None?, limit) == Violates(WrongMasking)
  {
    EncodedParts(f, rest);
    FirstTwo(f, MaskBytes(f) + Body(f) + rest);
  }

  /** A frame beyond the limit is refused before its payload is read. */
  lemma TooLongRefused(f: Frame, rest: Bytes, limit: int)
    requires WellFormed(f) && |f.payload| > limit
    ensures Decode(HeaderBytes(f) + rest, f.mask.Some?, limit) == TooLarge
  {
    FirstTwo(f, rest);
  }

  lemma ReservedRefused(input: Bytes, masked: bool, limit: int)
    requires |input| >= 2 && input[0] / 16 % 8 != 0
    ensures Decode(input, masked, limit) == Violates(ReservedBits)
  {
  }

  lemma LengthCut(masked: bool, length: nat, k: nat)
    requires length <= MAX_INT && 1 <= k < |LengthBytes(masked, length)|
    ensures var cut := LengthBytes(masked, length)[..k]; DecodeLength(cut[0] % 128, cut[1..]) == LengthEnds
    ensures LengthBytes(masked, length)[0] >= 0x80 <==> masked
  {
  }

  lemma HeaderCut(f: Frame, k: nat, limit: int)
    requires WellFormed(f) && k < |HeaderBytes(f)|
    ensures DecodeHeader(HeaderBytes(f)[..k], f.mask.Some?, limit) == HeaderEnds
  {
    var cut, bytes := HeaderBytes(f)[..k], LengthBytes(f.mask.Some?, |f.payload|);
    if k >= 2 {
      FirstByteFields(f.fin, f.opcode);
      LengthCut(f.mask.Some?, |f.payload|, k - 1);
      assert cut[0] == FirstByte(f.fin, f.opcode) && cut[1] == bytes[0] && cut[2..] == bytes[..k - 1][1..];
    }
  }

  /** A frame within the limit that is cut off anywhere is an end of the input, not a frame. */
  lemma CutIsEnd(f: Frame, k: nat, limit: int)
    requires WellFormed(f) && |f.payload| <= limit && k < |Encode(f)|
    ensures Decode(Encode(f)[..k], f.mask.Some?, limit) == EndOfInput
  {
    var header, tail := HeaderBytes(f), MaskBytes(f) + Body(f);
    if k < |header| {
      assert Encode(f)[..k] == header[..k];
      HeaderCut(f, k, limit);
    } else {
      var rest := tail[..k - |header|];
      assert Encode(f)[..k] == header + rest;
      HeaderRoundTrip(f.fin, f.opcode, f.mask.Some?, |f.payload|, rest, limit);
    }
  }

  /** A fragmented or long control frame is a protocol violation. */
  lemma BadControlRefused(fin: bool, opcode: int, masked: bool, length: nat, rest: Bytes, limit: int)
    requires 8 <= opcode < 16 && length <= MAX_INT && (!fin || length > 125)
    ensures Decode([FirstByte(fin, opcode)] + LengthBytes(masked, length) + rest, masked, limit) == Violates(InvalidControl)
  {
    FirstByteFields(fin, opcode);
    LengthRoundTrip(masked, length, rest);
    Shifted([FirstByte(fin, opcode)], LengthBytes(masked, length), rest);
  }

  /** So is a length in more bytes than it needs. */
  lemma TwoByteLengthRefused(first: Byte, second: Byte, length: nat, rest: Bytes, limit: int)
    requires first / 16 % 8 == 0 && second % 128 == 126 && length < 126
    ensures Decode([first, second] + (BigEndian(length, 2) + rest), second >= 0x80, limit) == Violates(NonMinimalLength)
  {
    Pow256s();
    FromBigEndianOf(length, 2);
    TwoThen([first, second], BigEndian(length, 2), rest);
  }

  /** And one with the highest bit set. */
  lemma EightByteLengthRefused(first: Byte, second: Byte, length: nat, rest: Bytes, limit: int)
    requires first / 16 % 8 == 0 && second % 128 == 127
    requires length < 65536 || MAX_INT < length < 0x1_0000_0000_0000_0000
    ensures Decode([first, second] + (BigEndian(length, 8) + rest), second >= 0x80, limit) == Violates(InvalidLength)
  {
    Pow256s();
    FromBigEndianOf(length, 8);
    TwoThen([first, second], BigEndian(length, 8), rest);
  }

  lemma TwoThen(front: Bytes, digits: Bytes, rest: Bytes)
    requires |front| == 2
    ensures var input := front + (digits + rest);
            && input[0] == front[0] && input[1] == front[1] && |input[2..]| >= |digits|
            && input[2..][..|digits|] == digits
  {
    var input := front + (digits + rest);
    assert input[2..] == digits + rest;
  }
}
