/**
 A WebSocket connection (websocket.go): the bytes that arrive, the bytes it has put on the
 wire, and the close handshake. What it writes is described frame by frame by `sent`.
 */
module WebSocketConn {
  import opened WebSocketFrames
  import opened WebSocketMessages

  const DEFAULT_MAX_MESSAGE_SIZE := 0x10_0000

  datatype WriteResult = Wrote | WriteFailed | Suppressed | ClosingDown

  datatype FrameRead = Got(fin: bool, opcode: int, payload: Bytes) | Ended | Rejected(code: int)

  /** Why a connection is refused with a protocol error. */
  datatype Complaint = BadFrame(violation: Violation) | Interleaved | Stray | BadClose(problem: CloseProblem) | UnknownOpcode

  /** One turn of ReadMessage's loop: it goes on with what it has, ends, or could not write a pong. */
  datatype Step = Continue(partial: Partial, answered: seq<Bytes>) | Done(end: End) | Stuck(ping: Bytes)

  datatype MessageRead = Finished(end: End) | NotAnswered

  datatype MessageWrite = InvalidType | InvalidText | Tried(result: WriteResult)

  /** The frames are pongs with the payloads of the pings, in order. */
  predicate Pongs(frames: seq<Frame>, pings: seq<Bytes>)
  {
    && |frames| == |pings|
    && forall i :: 0 <= i < |frames| ==> frames[i].opcode == PONG && frames[i].payload == pings[i]
  }

  /** The last frame is the close frame that answers this end, if the end calls for one. */
  predicate Closes(f: Frame, end: End)
  {
    && f.opcode == CLOSE
    && match end
       case Closed(_, _, echo, _) => f.payload == echo
       case Refused(code) => |f.payload| >= 2 && FromBigEndian(f.payload[..2]) == code
       case _ => false
  }

  predicate CallsForClose(end: End)
  {
    end.Closed? || end.Refused?
  }

  /** What is written while reading one message: a pong per ping, and a close unless one was sent before. */
  predicate Replies(extra: seq<Frame>, o: Outcome, closeSent: bool)
  {
    if CallsForClose(o.end) && !closeSent then
      && |extra| == |o.pings| + 1
      && Pongs(extra[..|o.pings|], o.pings)
      && Closes(extra[|o.pings|], o.end)
    else Pongs(extra, o.pings)
  }

  function Summary(d: Decoded): FrameRead
  {
    match d
    case Read(f, _) => Got(f.fin, f.opcode, f.payload)
    case EndOfInput => Ended
    case Violates(_) => Rejected(PROTOCOL_ERROR)
    case TooLarge => Rejected(TOO_LARGE)
  }

  lemma RepliesOnly(extra: seq<Frame>, end: End, closeSent: bool)
    requires if CallsForClose(end) && !closeSent then |extra| == 1 && Closes(extra[0], end) else extra == []
    ensures Replies(extra, Outcome([], end), closeSent)
  {
  }

  lemma PongsAppend(a: seq<Frame>, b: seq<Frame>, before: seq<Bytes>, more: seq<Bytes>)
    requires Pongs(a, before) && Pongs(b, more)
    ensures Pongs(a + b, before + more)
  {
  }

  lemma RepliesAppend(a: seq<Frame>, b: seq<Frame>, before: seq<Bytes>, end: End, closeSent: bool)
    requires Pongs(a, before) && Replies(b, Outcome([], end), closeSent)
    ensures Replies(a + b, Outcome(before, end), closeSent)
  {
    if CallsForClose(end) && !closeSent {
      assert (a + b)[..|before|] == a;
    } else {
      assert a + b == a;
    }
  }

  lemma EmittedAppend(sent: seq<Frame>, f: Frame, masked: bool)
    requires AllEmitted(sent, masked) && Emitted(f, masked)
    ensures AllEmitted(sent + [f], masked) && AllWellFormed(sent)
  {
  }

  lemma DisciplineKept(sent: seq<Frame>, f: Frame)
    requires Disciplined(sent) && (HasClose(sent) ==> IsControl(f.opcode) && f.opcode != CLOSE)
    ensures Disciplined(sent + [f])
  {
    var more := sent + [f];
    forall i, j | 0 <= i < j < |more| && more[i].opcode == CLOSE
      ensures IsControl(more[j].opcode) && more[j].opcode != CLOSE
    {
      assert sent[i].opcode == CLOSE;
    }
  }

  lemma HasCloseAppend(sent: seq<Frame>, f: Frame)
    ensures HasClose(sent + [f]) <==> HasClose(sent) || f.opcode == CLOSE
  {
    var more := sent + [f];
    assert more[|sent|] == f;
    if HasClose(sent) {
      var i :| 0 <= i < |sent| && sent[i].opcode == CLOSE;
      assert more[i].opcode == CLOSE;
    }
  }

  lemma Associated<T>(a: seq<T>, b: seq<T>, c: seq<T>)
    ensures a + (b + c) == a + b + c
  {
  }

  lemma {:induction false} SentAppend(sent: seq<Frame>, f: Frame)
    requires IsData(f.opcode)
    ensures Sent(sent + [f]) == Sent(sent) + [(f.opcode, f.payload)]
    decreases |sent|
  {
    if sent == [] {
      assert [f][1..] == [];
    } else {
      SentAppend(sent[1..], f);
      assert (sent + [f])[1..] == sent[1..] + [f];
      Associated(if IsData(sent[0].opcode) then [(sent[0].opcode, sent[0].payload)] else [], Sent(sent[1..]),
                 [(f.opcode, f.payload)]);
    }
  }

  lemma {:induction false} FirstCloseFound(sent: seq<Frame>)
    ensures FirstClose(sent).Some? <==> HasClose(sent)
    decreases |sent|
  {
    if sent != [] {
      FirstCloseFound(sent[1..]);
      if HasClose(sent) && sent[0].opcode != CLOSE {
        var i :| 0 <= i < |sent| && sent[i].opcode == CLOSE;
        assert sent[1..][i - 1].opcode == CLOSE;
      }
    }
  }

  class Conn {
    const expectMasked: bool
    const maskWrites: bool
    const maxMessageSize: int
    var input: Bytes
    var output: Bytes
    var closeSent: bool
    var networkClosed: bool

    /** Every frame whose writing was begun, and whether all of them got through. */
    ghost var sent: seq<Frame>
    ghost var intact: bool

    ghost predicate Valid()
      reads this
    {
      && AllEmitted(sent, maskWrites)
      && Disciplined(sent)
      && (HasClose(sent) <==> closeSent)
      && AllWellFormed(sent)
      && (intact ==> output == EncodeAll(sent))
      && 0 <= maxMessageSize <= MAX_INT
    }

    constructor Upgraded(limit: int, arriving: Bytes)
      requires 0 <= limit <= MAX_INT
      ensures Valid() && intact && sent == [] && !closeSent && input == arriving && output == []
      ensures expectMasked && !maskWrites && maxMessageSize == if limit == 0 then DEFAULT_MAX_MESSAGE_SIZE else limit
    {
      expectMasked, maskWrites := true, false;
      maxMessageSize := if limit == 0 then DEFAULT_MAX_MESSAGE_SIZE else limit;
      input, output, closeSent, networkClosed := arriving, [], false, false;
      sent, intact := [], true;
    }

    constructor Dialed(arriving: Bytes)
      ensures Valid() && intact && sent == [] && !closeSent && input == arriving && output == []
      ensures !expectMasked && maskWrites && maxMessageSize == DEFAULT_MAX_MESSAGE_SIZE
    {
      expectMasked, maskWrites, maxMessageSize := false, true, DEFAULT_MAX_MESSAGE_SIZE;
      input, output, closeSent, networkClosed := arriving, [], false, false;
      sent, intact := [], true;
    }

    // ------------------------------------------------------------------- writing

    /** One call of the network connection's Write: it may take fewer bytes, and it may fail. */
    method WriteSome(payload: Bytes) returns (written: nat, ok: bool)
      modifies this`output
      ensures written <= |payload| && output == old(output) + payload[..written]
      ensures networkClosed ==> !ok
    {
      var taken: int := *;
      ok := *;
      ok := ok && !networkClosed;
      written := if !networkClosed && 0 <= taken <= |payload| then taken else 0;
      output := output + payload[..written];
    }

    /** Short writes are continued; a failure leaves a prefix on the wire. */
    method WriteAll(payload: Bytes) returns (ok: bool)
      modifies this`output
      ensures old(output) <= output <= old(output) + payload
      ensures ok ==> output == old(output) + payload
    {
      var rest := payload;
      ok := true;
      while ok && |rest| > 0
        invariant old(output) + payload == output + rest
        invariant old(output) <= output
        decreases ok, |rest|
      {
        var written, fine := WriteSome(rest);
        assert rest[..written] + rest[written..] == rest;
        ok := fine && written > 0;
        rest := rest[written..];
      }
    }

    /** The masking loop of writeFrame. */
    method MaskedCopy(payload: Bytes, mask: Bytes) returns (masked: Bytes)
      requires |mask| == 4
      ensures masked == Masked(payload, mask)
    {
      var copy := new Byte[|payload|];
      var i := 0;
      while i < |payload|
        invariant 0 <= i <= |payload|
        invariant copy[..i] == Masked(payload, mask)[..i]
      {
        copy[i] := XorByte(payload[i], mask[i % 4]);
        i := i + 1;
      }
      masked := copy[..];
    }

    method FrameBytes(opcode: int, payload: Bytes) returns (header: Bytes, body: Bytes, f: Frame)
      requires Emitted(Frame(true, opcode, None, payload), false)
      ensures f == Frame(true, opcode, f.mask, payload) && Emitted(f, maskWrites)
      ensures header + body == Encode(f)
    {
      header := [0x80 + opcode];
      var maskBit: int := if maskWrites then 0x80 else 0;
      var length := |payload|;
      if length <= 125 {
        header := header + [maskBit + length];
      } else if length <= 65535 {
        header := header + ([maskBit + 126] + BigEndian(length, 2));
      } else {
        header := header + ([maskBit + 127] + BigEndian(length, 8));
      }
      assert header == [FirstByte(true, opcode)] + LengthBytes(maskWrites, length);
      body := payload;
      f := Frame(true, opcode, None, payload);
      if maskWrites {
        var m0: Byte, m1: Byte, m2: Byte, m3: Byte := *, *, *, *;
        var mask := [m0, m1, m2, m3];
        f := Frame(true, opcode, Some(mask), payload);
        body := MaskedCopy(payload, mask);
        Regrouped(header, mask, body);
        header := header + mask;
      } else {
        NoBytesFirst(payload);
      }
    }

    /** Records an attempt to write `f`; `done` tells whether all of it reached the wire. */
    ghost method Record(f: Frame, before: Bytes, done: bool)
      requires AllEmitted(sent, maskWrites) && Disciplined(sent) && AllWellFormed(sent) && Emitted(f, maskWrites)
      requires HasClose(sent) ==> IsControl(f.opcode) && f.opcode != CLOSE
      requires HasClose(sent) || f.opcode == CLOSE <==> closeSent
      requires intact ==> before == EncodeAll(sent)
      requires done ==> output == before + Encode(f)
      requires 0 <= maxMessageSize <= MAX_INT
      modifies this`sent, this`intact
      ensures sent == old(sent) + [f] && intact == (old(intact) && done)
      ensures Valid()
    {
      EmittedAppend(sent, f, maskWrites);
      DisciplineKept(sent, f);
      HasCloseAppend(sent, f);
      EncodeAllAppend(sent, f);
      sent, intact := sent + [f], intact && done;
    }

    /** writeFrame from the header on */
    method Transmit(opcode: int, payload: Bytes) returns (ok: bool)
      requires AllEmitted(sent, maskWrites) && Disciplined(sent) && AllWellFormed(sent)
      requires Emitted(Frame(true, opcode, None, payload), false)
      requires HasClose(sent) ==> IsControl(opcode) && opcode != CLOSE
      requires HasClose(sent) || opcode == CLOSE <==> closeSent
      requires intact ==> output == EncodeAll(sent)
      requires 0 <= maxMessageSize <= MAX_INT
      modifies this`output, this`sent, this`intact
      ensures |sent| == |old(sent)| + 1 && AllWellFormed(sent)
      ensures sent == old(sent) + [Frame(true, opcode, sent[|old(sent)|].mask, payload)]
      ensures old(output) <= output <= old(output) + Encode(sent[|old(sent)|])
      ensures ok ==> output == old(output) + Encode(sent[|old(sent)|])
      ensures intact == (old(intact) && ok)
      ensures Valid()
    {
      ghost var before := output;
      var header, body, f := FrameBytes(opcode, payload);
      Regrouped(before, header, body);
      ok := WriteAll(header);
      if ok {
        ok := WriteAll(body);
      }
      Record(f, before, ok);
    }

    method WriteFrame(opcode: int, payload: Bytes) returns (result: WriteResult)
      requires Valid()
      requires Emitted(Frame(true, opcode, None, payload), false)
      modifies this`output, this`closeSent, this`sent, this`intact
      ensures closeSent == (old(closeSent) || opcode == CLOSE)
      ensures result.ClosingDown? <==> old(closeSent) && opcode < CLOSE
      ensures result.Suppressed? <==> old(closeSent) && opcode == CLOSE
      ensures result.ClosingDown? || result.Suppressed? ==>
                output == old(output) && sent == old(sent) && intact == old(intact)
      ensures result.Wrote? || result.WriteFailed? ==>
                && |sent| == |old(sent)| + 1
                && sent == old(sent) + [Frame(true, opcode, sent[|old(sent)|].mask, payload)]
                && AllWellFormed(sent)
                && old(output) <= output <= old(output) + Encode(sent[|old(sent)|])
      ensures result.Wrote? ==> intact == old(intact) && AllWellFormed(sent) && output == old(output) + Encode(sent[|old(sent)|])
      ensures result.WriteFailed? ==> !intact
      ensures Valid()
    {
      if closeSent && opcode < CLOSE {
        return ClosingDown;
      }
      if opcode == CLOSE {
        if closeSent {
          return Suppressed;
        }
        closeSent := true;
      }
      var ok := Transmit(opcode, payload);
      result := if ok then Wrote else WriteFailed;
    }

    method WriteClose(code: int, reason: Bytes) returns (result: WriteResult)
      requires Valid() && ValidCloseCode(code) && Ascii(reason)
      modifies this`output, this`closeSent, this`sent, this`intact
      ensures closeSent && (result.Suppressed? <==> old(closeSent)) && !result.ClosingDown?
      ensures old(closeSent) ==> output == old(output) && sent == old(sent) && intact == old(intact)
      ensures !old(closeSent) ==>
                && |sent| == |old(sent)| + 1 && sent[..|old(sent)|] == old(sent)
                && sent[|old(sent)|].opcode == CLOSE && sent[|old(sent)|].payload == ClosePayload(code, reason)
      ensures result.Wrote? ==> intact == old(intact)
      ensures Valid()
    {
      ClosePayloadParses(code, reason);
      result := WriteFrame(CLOSE, ClosePayload(code, reason));
    }

    /** Refuses the connection; failures to write are ignored. */
    method Refuse(code: int, reason: Bytes)
      requires Valid() && ValidCloseCode(code) && Ascii(reason)
      modifies this`output, this`closeSent, this`sent, this`intact
      ensures closeSent && old(sent) <= sent
      ensures Replies(sent[|old(sent)|..], Outcome([], Refused(code)), old(closeSent))
      ensures Valid()
    {
      var _ := WriteClose(code, reason);
      ghost var extra := sent[|old(sent)|..];
      if !old(closeSent) {
        Pow256s();
        FromBigEndianOf(code, 2);
        assert extra[0].payload[..2] == BigEndian(code, 2);
      }
      RepliesOnly(extra, Refused(code), old(closeSent));
    }

    /** The bytes of a text; all texts below are ASCII, anything else would become a question mark. */
    method Text(s: string) returns (bytes: Bytes)
      ensures Ascii(bytes)
    {
      bytes := [];
      for i := 0 to |s|
        invariant Ascii(bytes)
      {
        bytes := bytes + [if s[i] < 128 as char then s[i] as int else '?' as int];
      }
    }

    method Wording(complaint: Complaint) returns (reason: Bytes)
      ensures Ascii(reason)
    {
      match complaint
      case BadFrame(ReservedBits) => reason := Text("reserved frame bits are set");
      case BadFrame(WrongMasking) => reason := Text("frame masking does not match connection role");
      case BadFrame(NonMinimalLength) => reason := Text("non-minimal frame length");
      case BadFrame(InvalidLength) => reason := Text("invalid frame length");
      case BadFrame(InvalidControl) => reason := Text("invalid control frame");
      case Interleaved => reason := Text("new data frame before fragmented message completed");
      case Stray => reason := Text("continuation frame without fragmented message");
      case BadClose(TooShort) => reason := Text("close frame has an invalid payload");
      case BadClose(InvalidCode) => reason := Text("close frame has an invalid status code");
      case BadClose(InvalidReason) => reason := Text("close reason is not valid UTF-8");
      case UnknownOpcode => reason := Text("unknown opcode");
    }

    method ProtocolError(complaint: Complaint)
      requires Valid()
      modifies this`output, this`closeSent, this`sent, this`intact
      ensures closeSent && old(sent) <= sent
      ensures Replies(sent[|old(sent)|..], Outcome([], Refused(PROTOCOL_ERROR)), old(closeSent))
      ensures Valid()
    {
      var reason := Wording(complaint);
      Refuse(PROTOCOL_ERROR, reason);
    }

    method RefuseTooLarge()
      requires Valid()
      modifies this`output, this`closeSent, this`sent, this`intact
      ensures closeSent && old(sent) <= sent
      ensures Replies(sent[|old(sent)|..], Outcome([], Refused(TOO_LARGE)), old(closeSent))
      ensures Valid()
    {
      var reason := Text("message too large");
      Refuse(TOO_LARGE, reason);
    }

    // ------------------------------------------------------------------- reading

    method ReadFull(n: nat) returns (ok: bool, data: Bytes)
      modifies this`input
      ensures ok <==> |old(input)| >= n
      ensures ok ==> data == old(input)[..n] && input == old(input)[n..]
      ensures !ok ==> input == []
    {
      ok := |input| >= n;
      if ok {
        data, input := input[..n], input[n..];
      } else {
        data, input := input, [];
      }
    }

    method ReadLength(low: int) returns (length: Length)
      requires 0 <= low < 128
      modifies this`input
      ensures length == DecodeLength(low, old(input))
      ensures length.Length? ==> input == length.rest
    {
      if low == 126 {
        var ok, data := ReadFull(2);
        if !ok {
          return LengthEnds;
        }
        var value := FromBigEndian(data);
        length := if value < 126 then LengthViolates(NonMinimalLength) else Length(value, input);
      } else if low == 127 {
        var ok, data := ReadFull(8);
        if !ok {
          return LengthEnds;
        }
        var value := FromBigEndian(data);
        length := if value < 65536 || value > MAX_INT then LengthViolates(InvalidLength) else Length(value, input);
      } else {
        length := Length(low, input);
      }
    }

    method ReadHeader() returns (h: Header)
      modifies this`input
      ensures h == DecodeHeader(old(input), expectMasked, maxMessageSize)
      ensures h.Header? ==> input == h.rest
    {
      var ok, data := ReadFull(2);
      if !ok {
        return HeaderEnds;
      }
      var fin, opcode := data[0] >= 0x80, data[0] % 16;
      if data[0] / 16 % 8 != 0 {
        return HeaderViolates(ReservedBits);
      }
      if (data[1] >= 0x80) != expectMasked {
        return HeaderViolates(WrongMasking);
      }
      var length := ReadLength(data[1] % 128);
      match length
      case LengthEnds => h := HeaderEnds;
      case LengthViolates(violation) => h := HeaderViolates(violation);
      case Length(value, rest) =>
        if IsControl(opcode) && (!fin || value > 125) {
          h := HeaderViolates(InvalidControl);
        } else if value > maxMessageSize || value > MAX_INT {
          h := HeaderTooLarge;
        } else {
          h := Header(fin, opcode, value, rest);
        }
    }

    /** The unmasking loop of readFrame, in place. */
    method Unmask(payload: array<Byte>, mask: Bytes)
      requires |mask| == 4
      modifies payload
      ensures payload[..] == Masked(old(payload[..]), mask)
    {
      var i := 0;
      while i < payload.Length
        invariant 0 <= i <= payload.Length
        invariant payload[..i] == Masked(old(payload[..]), mask)[..i]
        invariant payload[i..] == old(payload[..])[i..]
      {
        assert payload[i] == payload[i..][0];
        payload[i] := XorByte(payload[i], mask[i % 4]);
        i := i + 1;
      }
    }

    method ReadBody(fin: bool, opcode: int, length: nat) returns (d: Decoded)
      modifies this`input
      ensures d == DecodeBody(fin, opcode, expectMasked, length, old(input))
      ensures d.Read? ==> input == d.rest
    {
      var mask: Bytes := [];
      if expectMasked {
        var ok, data := ReadFull(4);
        if !ok {
          return EndOfInput;
        }
        mask := data;
      }
      var ok, data := ReadFull(length);
      if !ok {
        return EndOfInput;
      }
      if expectMasked {
        assert data == old(input)[4..4 + length];
        var payload := new Byte[length](i requires 0 <= i < |data| => data[i]);
        assert payload[..] == data;
        Unmask(payload, mask);
        d := Read(Frame(fin, opcode, Some(mask), payload[..]), input);
      } else {
        d := Read(Frame(fin, opcode, None, data), input);
      }
    }

    method ReadFrame() returns (read: FrameRead)
      requires Valid()
      modifies this`input, this`output, this`closeSent, this`sent, this`intact
      ensures read == Summary(Decode(old(input), expectMasked, maxMessageSize))
      ensures read.Got? ==> input == Decode(old(input), expectMasked, maxMessageSize).rest
      ensures !read.Rejected? ==>
                output == old(output) && sent == old(sent) && intact == old(intact) && closeSent == old(closeSent)
      ensures read.Rejected? ==>
                && closeSent && old(sent) <= sent
                && Replies(sent[|old(sent)|..], Outcome([], Refused(read.code)), old(closeSent))
      ensures Valid()
    {
      var h := ReadHeader();
      match h
      case HeaderEnds => read := Ended;
      case HeaderViolates(violation) =>
        ProtocolError(BadFrame(violation));
        read := Rejected(PROTOCOL_ERROR);
      case HeaderTooLarge =>
        RefuseTooLarge();
        read := Rejected(TOO_LARGE);
      case Header(fin, opcode, length, _) =>
        var d := ReadBody(fin, opcode, length);
        read := Summary(d);
    }

    /** ReadMessage's switch on a frame that has just been read: data frames. */
    method TakeData(fin: bool, opcode: int, payload: Bytes, partial: Partial) returns (step: Step)
      requires Valid() && Fits(partial, maxMessageSize) && !IsControl(opcode)
      modifies this`output, this`closeSent, this`sent, this`intact
      ensures Taken(Frame(fin, opcode, None, payload), input, partial, step)
      ensures old(sent) <= sent && Answered(step, sent[|old(sent)|..], old(closeSent))
      ensures closeSent == (old(closeSent) || (step.Done? && CallsForClose(step.end)))
      ensures step.Continue? || (step.Done? && step.end.Message?) ==> intact == old(intact)
      ensures !step.Stuck? && Valid()
    {
      if !IsData(opcode) && opcode != CONTINUATION {
        step := Complain(UnknownOpcode);
      } else if IsData(opcode) && partial.Started? {
        step := Complain(Interleaved);
      } else if opcode == CONTINUATION && partial.Nothing? {
        step := Complain(Stray);
      } else {
        NoBytesFirst(payload);
        step := Collect(fin, if partial.Started? then partial.kind else opcode,
                        if partial.Started? then partial.data else [], payload);
      }
    }

    /** ReadMessage's switch on a frame that has just been read: control frames. */
    method TakeControl(opcode: int, payload: Bytes, partial: Partial) returns (step: Step)
      requires Valid() && Fits(partial, maxMessageSize)
      requires WellFormed(Frame(true, opcode, None, payload)) && IsControl(opcode)
      modifies this`output, this`closeSent, this`sent, this`intact, this`networkClosed
      ensures Taken(Frame(true, opcode, None, payload), input, partial, step)
      ensures old(sent) <= sent && Answered(step, sent[|old(sent)|..], old(closeSent))
      ensures closeSent == (old(closeSent) || (step.Done? && CallsForClose(step.end)))
      ensures step.Continue? ==> intact == old(intact)
      ensures step.Done? ==> CallsForClose(step.end) && (step.end.Closed? ==> networkClosed)
      ensures step.Stuck? ==> !intact
      ensures Valid()
    {
      if opcode == PING {
        var result := WriteFrame(PONG, payload);
        step := if result.Wrote? then Continue(partial, [payload]) else Stuck(payload);
      } else if opcode == PONG {
        step := Continue(partial, []);
      } else if opcode == CLOSE {
        if ParseClose(payload).Closing? {
          step := Echo(payload);
        } else {
          step := Complain(BadClose(ParseClose(payload).problem));
        }
      } else {
        step := Complain(UnknownOpcode);
      }
    }

    method Echo(payload: Bytes) returns (step: Step)
      requires Valid() && |payload| <= 125 && ParseClose(payload).Closing?
      modifies this`output, this`closeSent, this`sent, this`intact, this`networkClosed
      ensures var closing := ParseClose(payload); step == Done(Closed(closing.code, closing.reason, payload, input))
      ensures closeSent && networkClosed && old(sent) <= sent
      ensures Answered(step, sent[|old(sent)|..], old(closeSent))
      ensures Valid()
    {
      var _ := WriteFrame(CLOSE, payload);
      CloseNetwork();
      var closing := ParseClose(payload);
      step := Done(Closed(closing.code, closing.reason, payload, input));
      RepliesOnly(sent[|old(sent)|..], step.end, old(closeSent));
    }

    method Complain(complaint: Complaint) returns (step: Step)
      requires Valid()
      modifies this`output, this`closeSent, this`sent, this`intact
      ensures step == Done(Refused(PROTOCOL_ERROR)) && closeSent
      ensures old(sent) <= sent && Answered(step, sent[|old(sent)|..], old(closeSent))
      ensures Valid()
    {
      ProtocolError(complaint);
      step := Done(Refused(PROTOCOL_ERROR));
    }

    /** ReadMessage after the switch: the size check, the buffer, and the text check. */
    method Collect(fin: bool, kind: int, message: Bytes, payload: Bytes) returns (step: Step)
      requires Valid() && IsData(kind)
      modifies this`output, this`closeSent, this`sent, this`intact
      ensures step == if |message + payload| <= maxMessageSize && !fin then Continue(Started(kind, message + payload), [])
                      else Done(Verdict(kind, message + payload, input, maxMessageSize))
      ensures old(sent) <= sent && Answered(step, sent[|old(sent)|..], old(closeSent))
      ensures closeSent == (old(closeSent) || (step.Done? && CallsForClose(step.end)))
      ensures step.Continue? || step.end.Message? ==> intact == old(intact)
      ensures Valid()
    {
      if |message| + |payload| > maxMessageSize {
        RefuseTooLarge();
        return Done(Refused(TOO_LARGE));
      }
      var data := message + payload;
      if !fin {
        return Continue(Started(kind, data), []);
      }
      if kind == TEXT && !Utf8(data) {
        var reason := Text("invalid UTF-8");
        Refuse(INVALID_DATA, reason);
        return Done(Refused(INVALID_DATA));
      }
      step := Done(Message(kind, data, input));
    }

    /** How a turn that took frame `f`, with `rest` still to read, relates to the whole outcome. */
    ghost predicate Taken(f: Frame, rest: Bytes, partial: Partial, step: Step)
      requires Fits(partial, maxMessageSize)
    {
      var o := Advance(f, rest, expectMasked, maxMessageSize, partial);
      match step
      case Continue(more, answered) =>
        && Fits(more, maxMessageSize)
        && var now := Next(rest, expectMasked, maxMessageSize, more);
           o == Outcome(answered + now.pings, now.end)
      case Done(end) => o == Outcome([], end) && (end.Message? || end.Closed? ==> rest == end.rest)
      case Stuck(ping) => |o.pings| > 0 && o.pings[0] == ping
    }

    ghost predicate Answered(step: Step, extra: seq<Frame>, wasClosing: bool)
    {
      match step
      case Continue(_, answered) => Pongs(extra, answered)
      case Done(end) => Replies(extra, Outcome([], end), wasClosing)
      case Stuck(ping) => Pongs(extra, [ping])
    }

    method CloseNetwork()
      modifies this`networkClosed
      ensures networkClosed
    {
      networkClosed := true;
    }

    /** One turn of ReadMessage's loop. */
    method Turn(partial: Partial) returns (step: Step)
      requires Valid() && Fits(partial, maxMessageSize)
      modifies this`input, this`output, this`closeSent, this`sent, this`intact, this`networkClosed
      ensures Turned(old(input), input, partial, step)
      ensures old(sent) <= sent && Answered(step, sent[|old(sent)|..], old(closeSent))
      ensures closeSent == (old(closeSent) || (step.Done? && CallsForClose(step.end)))
      ensures step.Continue? || (step.Done? && step.end.Message?) ==> intact == old(intact)
      ensures step.Stuck? ==> !intact
      ensures Valid()
    {
      var read := ReadFrame();
      match read
      case Ended => step := Done(Broken);
      case Rejected(code) => step := Done(Refused(code));
      case Got(fin, opcode, payload) =>
        EncodeDecode(old(input), expectMasked, maxMessageSize);
        ghost var f := Decode(old(input), expectMasked, maxMessageSize).frame;
        step := TakeFrame(fin, opcode, payload, partial);
        TakenTurned(old(input), f, partial, step);
    }

    method TakeFrame(fin: bool, opcode: int, payload: Bytes, partial: Partial) returns (step: Step)
      requires Valid() && Fits(partial, maxMessageSize)
      requires WellFormed(Frame(fin, opcode, None, payload))
      modifies this`output, this`closeSent, this`sent, this`intact, this`networkClosed
      ensures Taken(Frame(fin, opcode, None, payload), input, partial, step)
      ensures old(sent) <= sent && Answered(step, sent[|old(sent)|..], old(closeSent))
      ensures closeSent == (old(closeSent) || (step.Done? && CallsForClose(step.end)))
      ensures step.Continue? || (step.Done? && step.end.Message?) ==> intact == old(intact)
      ensures step.Stuck? ==> !intact
      ensures Valid()
    {
      if IsControl(opcode) {
        step := TakeControl(opcode, payload, partial);
      } else {
        step := TakeData(fin, opcode, payload, partial);
      }
    }

    lemma TakenTurned(before: Bytes, f: Frame, partial: Partial, step: Step)
      requires Fits(partial, maxMessageSize)
      requires Decode(before, expectMasked, maxMessageSize) == Read(f, input)
      requires Taken(Frame(f.fin, f.opcode, None, f.payload), input, partial, step)
      ensures Turned(before, input, partial, step)
    {
      AdvanceSees(f, input, partial);
      DecodeShrinks(before, expectMasked, maxMessageSize);
    }

    /** How a turn relates to the outcome of the whole call. */
    ghost predicate Turned(before: Bytes, after: Bytes, partial: Partial, step: Step)
      requires Fits(partial, maxMessageSize)
    {
      var o := Next(before, expectMasked, maxMessageSize, partial);
      match step
      case Continue(more, answered) =>
        && |after| < |before| && Fits(more, maxMessageSize)
        && var now := Next(after, expectMasked, maxMessageSize, more);
           o == Outcome(answered + now.pings, now.end)
      case Done(end) => o == Outcome([], end) && (end.Message? || end.Closed? ==> after == end.rest)
      case Stuck(ping) => |o.pings| > 0 && o.pings[0] == ping
    }

    /** A frame's mask is of no consequence once it is removed. */
    lemma AdvanceSees(f: Frame, rest: Bytes, partial: Partial)
      requires Fits(partial, maxMessageSize)
      ensures Advance(f, rest, expectMasked, maxMessageSize, partial)
              == Advance(f.(mask := None), rest, expectMasked, maxMessageSize, partial)
    {
    }

    /** What ReadMessage reports and has written, given the outcome of the whole call. */
    ghost predicate Concluded(o: Outcome, read: MessageRead, extra: seq<Frame>, wasClosing: bool)
    {
      match read
      case Finished(end) => end == o.end && Replies(extra, o, wasClosing)
      case NotAnswered => 0 < |extra| <= |o.pings| && Pongs(extra, o.pings[..|extra|])
    }

    /** What remains to be read leads to the outcome of the whole call. */
    ghost predicate Leads(o: Outcome, answered: seq<Bytes>, rest: Bytes, partial: Partial)
      requires Fits(partial, maxMessageSize)
    {
      var now := Next(rest, expectMasked, maxMessageSize, partial);
      o == Outcome(answered + now.pings, now.end)
    }

    lemma LeadsOn(o: Outcome, answered: seq<Bytes>, before: Bytes, after: Bytes, partial: Partial, step: Step)
      requires Fits(partial, maxMessageSize) && Leads(o, answered, before, partial)
      requires Turned(before, after, partial, step) && step.Continue?
      ensures Leads(o, answered + step.answered, after, step.partial)
    {
      var now := Next(after, expectMasked, maxMessageSize, step.partial);
      assert answered + (step.answered + now.pings) == answered + step.answered + now.pings;
    }

    lemma LeadsToEnd(o: Outcome, answered: seq<Bytes>, before: Bytes, after: Bytes, partial: Partial, step: Step,
                     earlier: seq<Frame>, extra: seq<Frame>, wasClosing: bool)
      requires Fits(partial, maxMessageSize) && Leads(o, answered, before, partial)
      requires Turned(before, after, partial, step) && !step.Continue?
      requires Pongs(earlier, answered) && Answered(step, extra, wasClosing)
      ensures Concluded(o, if step.Done? then Finished(step.end) else NotAnswered, earlier + extra, wasClosing)
    {
      var now := Next(before, expectMasked, maxMessageSize, partial);
      if step.Done? {
        assert answered + [] == answered;
        RepliesAppend(earlier, extra, answered, step.end, wasClosing);
      } else {
        PongsAppend(earlier, extra, answered, [step.ping]);
        assert (answered + now.pings)[..|answered| + 1] == answered + [step.ping];
      }
    }

    method ReadMessage() returns (read: MessageRead)
      requires Valid()
      modifies this`input, this`output, this`closeSent, this`sent, this`intact, this`networkClosed
      ensures old(sent) <= sent
      ensures Concluded(Next(old(input), expectMasked, maxMessageSize, Nothing), read, sent[|old(sent)|..], old(closeSent))
      ensures Settled(read, old(closeSent), old(intact))
      ensures Valid()
    {
      ghost var o := Next(input, expectMasked, maxMessageSize, Nothing);
      ghost var answered: seq<Bytes>, written: seq<Frame> := [], [];
      var partial, running := Nothing, true;
      read := NotAnswered;
      while running
        invariant Valid() && sent == old(sent) + written
        invariant running ==> Fits(partial, maxMessageSize) && Leads(o, answered, input, partial) && Pongs(written, answered)
        invariant running ==> closeSent == old(closeSent) && intact == old(intact)
        invariant !running ==> Concluded(o, read, written, old(closeSent)) && Settled(read, old(closeSent), old(intact))
        decreases running, |input|
      {
        ghost var before, earlier := input, sent;
        var step := Turn(partial);
        ghost var extra := sent[|earlier|..];
        Extended(old(sent), written, sent);
        match step {
          case Continue(more, _) =>
            LeadsOn(o, answered, before, input, partial, step);
            PongsAppend(written, extra, answered, step.answered);
            answered := answered + step.answered;
            partial := more;
          case Done(end) =>
            LeadsToEnd(o, answered, before, input, partial, step, written, extra, old(closeSent));
            read, running := Finished(end), false;
          case Stuck(_) =>
            LeadsToEnd(o, answered, before, input, partial, step, written, extra, old(closeSent));
            read, running := NotAnswered, false;
        }
        written := written + extra;
      }
      assert sent[|old(sent)|..] == written;
    }

    /** The state ReadMessage leaves behind. */
    ghost predicate Settled(read: MessageRead, wasClosing: bool, wasIntact: bool)
      reads this
    {
      && closeSent == (wasClosing || (read.Finished? && CallsForClose(read.end)))
      && (read.Finished? && (read.end.Message? || read.end.Closed?) ==> input == read.end.rest)
      && (read.Finished? && read.end.Message? ==> intact == wasIntact)
      && (read.NotAnswered? ==> !intact)
    }

    lemma Extended(a: seq<Frame>, b: seq<Frame>, c: seq<Frame>)
      requires a + b <= c
      ensures c == a + (b + c[|a + b|..])
    {
    }

    /** Sends a complete message. */
    method WriteMessage(kind: int, payload: Bytes) returns (write: MessageWrite)
      requires Valid() && |payload| <= MAX_INT
      modifies this`output, this`closeSent, this`sent, this`intact
      ensures write.InvalidType? <==> !IsData(kind)
      ensures write.InvalidText? <==> kind == TEXT && !Utf8(payload)
      ensures write == Tried(ClosingDown) <==> IsData(kind) && (kind == TEXT ==> Utf8(payload)) && old(closeSent)
      ensures closeSent == old(closeSent) && write != Tried(Suppressed)
      ensures write.Tried? && write.result != ClosingDown ==>
                |sent| == |old(sent)| + 1 && sent[..|old(sent)|] == old(sent) && Sent(sent) == Sent(old(sent)) + [(kind, payload)]
      ensures write == Tried(Wrote) ==> intact == old(intact)
      ensures !write.Tried? || write.result == ClosingDown ==> sent == old(sent) && output == old(output) && intact == old(intact)
      ensures Valid()
    {
      if !IsData(kind) {
        return InvalidType;
      }
      if kind == TEXT && !Utf8(payload) {
        return InvalidText;
      }
      var result := WriteFrame(kind, payload);
      write := Tried(result);
      if result != ClosingDown {
        SentAppend(old(sent), sent[|old(sent)|]);
      }
    }

    /** Closes the network connection without sending a close frame. */
    method Abort()
      requires Valid()
      modifies this`networkClosed
      ensures networkClosed && Valid()
    {
      CloseNetwork();
    }

    method Close()
      requires Valid()
      modifies this`output, this`closeSent, this`sent, this`intact, this`networkClosed
      ensures closeSent && networkClosed && old(sent) <= sent
      ensures |sent| == |old(sent)| + if old(closeSent) then 0 else 1
      ensures !old(closeSent) ==> sent[|old(sent)|].opcode == CLOSE && ParseClose(sent[|old(sent)|].payload) == Closing(NORMAL, [])
      ensures Valid()
    {
      ClosePayloadParses(NORMAL, []);
      var _ := WriteClose(NORMAL, []);
      CloseNetwork();
    }

    /**
     As long as no write failed, a peer of the opposite role whose limit covers the messages
     reads exactly the messages written so far, in order, and then the close, if one was sent.
     */
    lemma PeerReads(limit: int)
      requires Valid() && intact && AllWithin(sent, limit)
      ensures DecodeAll(output, maskWrites, limit) == Some(sent)
      ensures var r := ReadAll(output, maskWrites, limit);
              r.messages == Sent(sent) && EndsAs(r.end, FirstClose(sent)) && (FirstClose(sent).Some? <==> closeSent)
    {
      PeerAcceptsFrames(sent, maskWrites, limit);
      PeerReadsAll(sent, maskWrites, limit);
      FirstCloseFound(sent);
    }
  }
}
