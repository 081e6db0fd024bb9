/**
 Messages over frames (RFC 6455, sections 5.4 and 5.5): what ReadMessage makes of the bytes
 it is given, how that relates to any fragmentation of a message, and what a peer reads
 from everything a connection wrote.
 */
module WebSocketMessages {
  import opened WebSocketFrames

  const NORMAL := 1000
  const PROTOCOL_ERROR := 1002
  const INVALID_DATA := 1007
  const TOO_LARGE := 1009

  // ----------------------------------------------------------------- UTF-8 validity

  predicate Within(b: Byte, low: int, high: int)
  {
    low <= b <= high
  }

  /** The length of the well-formed sequence at the start, or 0 (RFC 3629, section 4). */
  function RuneLength(s: Bytes): (n: nat)
    requires s != []
    ensures n <= |s|
  {
    var a := s[0];
    if a < 0x80 then 1
    else if Within(a, 0xC2, 0xDF) then
      if |s| >= 2 && Within(s[1], 0x80, 0xBF) then 2 else 0
    else if Within(a, 0xE0, 0xEF) then
      var low, high := if a == 0xE0 then 0xA0 else 0x80, if a == 0xED then 0x9F else 0xBF;
      if |s| >= 3 && Within(s[1], low, high) && Within(s[2], 0x80, 0xBF) then 3 else 0
    else if Within(a, 0xF0, 0xF4) then
      var low, high := if a == 0xF0 then 0x90 else 0x80, if a == 0xF4 then 0x8F else 0xBF;
      if |s| >= 4 && Within(s[1], low, high) && Within(s[2], 0x80, 0xBF) && Within(s[3], 0x80, 0xBF) then 4 else 0
    else 0
  }

  predicate Utf8(s: Bytes)
    decreases |s|
  {
    s == [] || (RuneLength(s) > 0 && Utf8(s[RuneLength(s)..]))
  }

  predicate Ascii(s: Bytes)
  {
    forall i :: 0 <= i < |s| ==> s[i] < 0x80
  }

  lemma {:induction false} AsciiIsUtf8(s: Bytes)
    requires Ascii(s)
    ensures Utf8(s)
    decreases |s|
  {
    if s != [] {
      AsciiIsUtf8(s[1..]);
    }
  }

  // ------------------------------------------------------------------- close frames

  datatype CloseProblem = TooShort | InvalidCode | InvalidReason

  datatype Closing = Closing(code: int, reason: Bytes) | BadClosing(problem: CloseProblem)

  predicate ValidCloseCode(code: int)
  {
    3000 <= code <= 4999 || 1000 <= code <= 1003 || 1007 <= code <= 1014
  }

  function ParseClose(payload: Bytes): Closing
  {
    if payload == [] then Closing(NORMAL, [])
    else if |payload| == 1 then BadClosing(TooShort)
    else
      var code := FromBigEndian(payload[..2]);
      if !ValidCloseCode(code) then BadClosing(InvalidCode)
      else if !Utf8(payload[2..]) then BadClosing(InvalidReason)
      else Closing(code, payload[2..])
  }

  function Truncated(reason: Bytes): Bytes
  {
    if |reason| > 123 then reason[..123] else reason
  }

  function ClosePayload(code: int, reason: Bytes): Bytes
    requires 0 <= code < 65536
  {
    BigEndian(code, 2) + Truncated(reason)
  }

  /** A close frame this side builds fits a control frame and is accepted by the other side. */
  lemma ClosePayloadParses(code: int, reason: Bytes)
    requires ValidCloseCode(code) && Ascii(reason)
    ensures |ClosePayload(code, reason)| <= 125
    ensures ParseClose(ClosePayload(code, reason)) == Closing(code, Truncated(reason))
  {
    Pow256s();
    FromBigEndianOf(code, 2);
    AsciiIsUtf8(Truncated(reason));
    var payload := ClosePayload(code, reason);
    assert payload[..2] == BigEndian(code, 2) && payload[2..] == Truncated(reason);
  }

  // ---------------------------------------------------------------- reading a message

  /** The fragments received so far of the message being read. */
  datatype Partial = Nothing | Started(kind: int, data: Bytes)

  predicate Fits(partial: Partial, limit: int)
  {
    partial.Started? ==> IsData(partial.kind) && |partial.data| <= limit
  }

  predicate IsData(opcode: int)
  {
    opcode == TEXT || opcode == BINARY
  }

  datatype End =
    | Message(kind: int, data: Bytes, rest: Bytes)
    | Closed(code: int, reason: Bytes, echo: Bytes, rest: Bytes)
    | Refused(code: int)
    | Broken

  /** `pings` are the payloads to answer before the end, in order. */
  datatype Outcome = Outcome(pings: seq<Bytes>, end: End)

  /** One call of ReadMessage on the bytes that arrive, when its answers can be written. */
  function Next(input: Bytes, masked: bool, limit: int, partial: Partial): Outcome
    requires Fits(partial, limit)
    decreases |input|, 0
  {
    match Decode(input, masked, limit)
    case EndOfInput => Outcome([], Broken)
    case Violates(_) => Outcome([], Refused(PROTOCOL_ERROR))
    case TooLarge => Outcome([], Refused(TOO_LARGE))
    case Read(f, rest) =>
      DecodeShrinks(input, masked, limit);
      Advance(f, rest, masked, limit, partial)
  }

  function Advance(f: Frame, rest: Bytes, masked: bool, limit: int, partial: Partial): Outcome
    requires Fits(partial, limit)
    decreases |rest|, 2
  {
    if IsData(f.opcode) then
      if partial.Started? then Outcome([], Refused(PROTOCOL_ERROR))
      else Absorb(f, f.opcode, f.payload, rest, masked, limit)
    else if f.opcode == CONTINUATION then
      if partial.Nothing? then Outcome([], Refused(PROTOCOL_ERROR))
      else Absorb(f, partial.kind, partial.data + f.payload, rest, masked, limit)
    else if f.opcode == PING then
      var o := Next(rest, masked, limit, partial);
      Outcome([f.payload] + o.pings, o.end)
    else if f.opcode == PONG then
      Next(rest, masked, limit, partial)
    else if f.opcode == CLOSE && ParseClose(f.payload).Closing? then
      var closing := ParseClose(f.payload);
      Outcome([], Closed(closing.code, closing.reason, f.payload, rest))
    else
      Outcome([], Refused(PROTOCOL_ERROR))
  }

  function Absorb(f: Frame, kind: int, data: Bytes, rest: Bytes, masked: bool, limit: int): Outcome
    requires IsData(kind)
    decreases |rest|, 1
  {
    if |data| > limit then Outcome([], Refused(TOO_LARGE))
    else if !f.fin then Next(rest, masked, limit, Started(kind, data))
    else if kind == TEXT && !Utf8(data) then Outcome([], Refused(INVALID_DATA))
    else Outcome([], Message(kind, data, rest))
  }

  lemma NextOnFrame(f: Frame, rest: Bytes, masked: bool, limit: int, partial: Partial)
    requires Sendable(f, masked, limit) && Fits(partial, limit)
    ensures Next(Encode(f) + rest, masked, limit, partial) == Advance(f, rest, masked, limit, partial)
  {
    DecodeEncode(f, rest, limit);
  }

  // -------------------------------------------------------------------- fragmentation

  /** The frames of one message: fragments in order, the last one final, with pings and pongs anywhere before it. */
  predicate Fragmented(frames: seq<Frame>, started: bool, kind: int)
    decreases |frames|
  {
    && frames != []
    && if frames[0].opcode == PING || frames[0].opcode == PONG then Fragmented(frames[1..], started, kind)
       else
         && frames[0].opcode == (if started then CONTINUATION else kind)
         && if frames[0].fin then |frames| == 1 else Fragmented(frames[1..], true, kind)
  }

  function Payloads(frames: seq<Frame>): Bytes
    decreases |frames|
  {
    if frames == [] then []
    else (if IsControl(frames[0].opcode) then [] else frames[0].payload) + Payloads(frames[1..])
  }

  function Pings(frames: seq<Frame>): seq<Bytes>
    decreases |frames|
  {
    if frames == [] then []
    else (if frames[0].opcode == PING then [frames[0].payload] else []) + Pings(frames[1..])
  }

  function DataOf(partial: Partial): Bytes
  {
    if partial.Started? then partial.data else []
  }

  predicate Conveys(frames: seq<Frame>, partial: Partial, kind: int, data: Bytes)
  {
    && IsData(kind)
    && (partial.Started? ==> partial.kind == kind)
    && Fragmented(frames, partial.Started?, kind)
    && data == DataOf(partial) + Payloads(frames)
  }

  /** What becomes of a completely received message. */
  function Verdict(kind: int, data: Bytes, rest: Bytes, limit: int): End
  {
    if |data| > limit then Refused(TOO_LARGE)
    else if kind == TEXT && !Utf8(data) then Refused(INVALID_DATA)
    else Message(kind, data, rest)
  }

  function After(f: Frame, partial: Partial): Partial
  {
    if IsControl(f.opcode) then partial
    else if partial.Started? then Started(partial.kind, partial.data + f.payload)
    else Started(f.opcode, f.payload)
  }

  /**
   Any fragmentation of a message, with any pings and pongs between the fragments, reads as
   the message exactly when it is within the limit and, for text, valid UTF-8; every ping is
   then answered in order, and reading stops at the next frame.
   */
  lemma {:induction false} FragmentsRead(frames: seq<Frame>, rest: Bytes, masked: bool, limit: int, partial: Partial,
                                         kind: int, data: Bytes)
    requires AllSendable(frames, masked, limit) && Fits(partial, limit)
    requires Conveys(frames, partial, kind, data)
    ensures Next(EncodeAll(frames) + rest, masked, limit, partial).end == Verdict(kind, data, rest, limit)
    ensures |data| <= limit ==> Next(EncodeAll(frames) + rest, masked, limit, partial).pings == Pings(frames)
    decreases |frames|
  {
    var f, more := frames[0], frames[1..];
    var tail := EncodeAll(more) + rest;
    Regrouped(Encode(f), EncodeAll(more), rest);
    NextOnFrame(f, tail, masked, limit, partial);
    PayloadsFirst(frames, partial);
    if IsControl(f.opcode) {
      FragmentsRead(more, rest, masked, limit, partial, kind, data);
      NoBytesFirst(f.payload);
    } else if f.fin {
      NoBytesFirst(DataOf(After(f, partial)));
      LastFragment(f, tail, masked, limit, partial, kind, data);
      NoBytesFirst(rest);
    } else if |DataOf(After(f, partial))| <= limit {
      FragmentsRead(more, rest, masked, limit, After(f, partial), kind, data);
    }
  }

  lemma LastFragment(f: Frame, rest: Bytes, masked: bool, limit: int, partial: Partial, kind: int, data: Bytes)
    requires Fits(partial, limit) && f.fin && (partial.Started? ==> partial.kind == kind)
    requires IsData(kind) && f.opcode == (if partial.Started? then CONTINUATION else kind)
    requires data == DataOf(After(f, partial))
    ensures Advance(f, rest, masked, limit, partial) == Outcome([], Verdict(kind, data, rest, limit))
  {
  }

  lemma PayloadsFirst(frames: seq<Frame>, partial: Partial)
    requires frames != []
    ensures DataOf(partial) + Payloads(frames) == DataOf(After(frames[0], partial)) + Payloads(frames[1..])
  {
    var f, more := frames[0], Payloads(frames[1..]);
    if IsControl(f.opcode) {
      NoBytesFirst(more);
    } else {
      Regrouped(DataOf(partial), f.payload, more);
      NoBytesFirst(f.payload);
    }
  }

  lemma NoBytesFirst(s: Bytes)
    ensures [] + s == s && s + [] == s
  {
  }

  /** Conversely, what reads as a message is exactly the frames of one fragmentation of it. */
  lemma {:induction false} MessageIsFragments(input: Bytes, masked: bool, limit: int, partial: Partial)
      returns (frames: seq<Frame>)
    requires Fits(partial, limit) && Next(input, masked, limit, partial).end.Message?
    ensures var o := Next(input, masked, limit, partial);
            && AllSendable(frames, masked, limit)
            && Conveys(frames, partial, o.end.kind, o.end.data)
            && o.end == Verdict(o.end.kind, o.end.data, o.end.rest, limit)
            && input == EncodeAll(frames) + o.end.rest
            && o.pings == Pings(frames)
    decreases |input|
  {
    EncodeDecode(input, masked, limit);
    var d := Decode(input, masked, limit);
    var f, o := d.frame, Next(input, masked, limit, partial);
    MessageStep(f, d.rest, masked, limit, partial);
    if IsControl(f.opcode) || !f.fin {
      var more := MessageIsFragments(d.rest, masked, limit, After(f, partial));
      frames := [f] + more;
      FragmentFirst(f, more, partial, o.end.kind, o.end.data);
      Regrouped(Encode(f), EncodeAll(more), o.end.rest);
    } else {
      frames := [f];
      assert frames[1..] == [];
      PayloadsFirst(frames, partial);
      NoBytesFirst(o.end.data);
      NoBytesFirst(Encode(f));
    }
  }

  /** What one frame contributes when a message comes of it. */
  lemma MessageStep(f: Frame, rest: Bytes, masked: bool, limit: int, partial: Partial)
    requires Fits(partial, limit) && Advance(f, rest, masked, limit, partial).end.Message?
    ensures var o := Advance(f, rest, masked, limit, partial);
            && (IsControl(f.opcode) ==> f.opcode == PING || f.opcode == PONG)
            && (!IsControl(f.opcode) ==> if partial.Started? then f.opcode == CONTINUATION else IsData(f.opcode))
            && (if IsControl(f.opcode) || !f.fin then
                  && Fits(After(f, partial), limit)
                  && var more := Next(rest, masked, limit, After(f, partial));
                     o == Outcome((if f.opcode == PING then [f.payload] else []) + more.pings, more.end)
                else
                  var whole := After(f, partial);
                  && |whole.data| <= limit && (whole.kind == TEXT ==> Utf8(whole.data))
                  && IsData(whole.kind) && o == Outcome([], Message(whole.kind, whole.data, rest)))
  {
  }

  lemma FragmentFirst(f: Frame, more: seq<Frame>, partial: Partial, kind: int, data: Bytes)
    requires Conveys(more, After(f, partial), kind, data)
    requires IsControl(f.opcode) ==> f.opcode == PING || f.opcode == PONG
    requires !IsControl(f.opcode) ==> !f.fin && if partial.Started? then f.opcode == CONTINUATION else f.opcode == kind
    ensures Conveys([f] + more, partial, kind, data)
    ensures Pings([f] + more) == (if f.opcode == PING then [f.payload] else []) + Pings(more)
  {
    assert ([f] + more)[1..] == more;
    PayloadsFirst([f] + more, partial);
  }

  // -------------------------------------------------- what the peer makes of a whole connection

  /** The frames a connection writes: whole messages, pongs and closes, all acceptable to the other role. */
  predicate Emitted(f: Frame, masked: bool)
  {
    && WellFormed(f) && f.fin && f.mask.Some? == masked
    && (IsData(f.opcode) || f.opcode == PONG || f.opcode == CLOSE)
    && (f.opcode == TEXT ==> Utf8(f.payload))
    && (f.opcode == CLOSE ==> ParseClose(f.payload).Closing?)
  }

  ghost predicate AllEmitted(frames: seq<Frame>, masked: bool)
  {
    forall i {:trigger frames[i]} :: 0 <= i < |frames| ==> Emitted(frames[i], masked)
  }

  ghost predicate AllWithin(frames: seq<Frame>, limit: int)
  {
    forall i {:trigger frames[i]} :: 0 <= i < |frames| ==> |frames[i].payload| <= limit
  }

  /** At most one close frame, and nothing but control frames after it. */
  ghost predicate Disciplined(frames: seq<Frame>)
  {
    forall i, j {:trigger frames[i], frames[j]} :: 0 <= i < j < |frames| && frames[i].opcode == CLOSE
      ==> IsControl(frames[j].opcode) && frames[j].opcode != CLOSE
  }

  predicate HasClose(frames: seq<Frame>)
  {
    exists i :: 0 <= i < |frames| && frames[i].opcode == CLOSE
  }

  /** The data messages among the frames, in order. */
  function Sent(frames: seq<Frame>): seq<(int, Bytes)>
    decreases |frames|
  {
    if frames == [] then []
    else (if IsData(frames[0].opcode) then [(frames[0].opcode, frames[0].payload)] else []) + Sent(frames[1..])
  }

  function FirstClose(frames: seq<Frame>): Option<Closing>
    decreases |frames|
  {
    if frames == [] then None
    else if frames[0].opcode == CLOSE then Some(ParseClose(frames[0].payload))
    else FirstClose(frames[1..])
  }

  datatype Reading = Reading(messages: seq<(int, Bytes)>, end: End)

  /** A peer that reads messages until it gets none. */
  function ReadAll(input: Bytes, masked: bool, limit: int): Reading
    decreases |input|
  {
    var o := Next(input, masked, limit, Nothing);
    if o.end.Message? then
      MessageShrinks(input, masked, limit);
      var more := ReadAll(o.end.rest, masked, limit);
      Reading([(o.end.kind, o.end.data)] + more.messages, more.end)
    else Reading([], o.end)
  }

  lemma MessageShrinks(input: Bytes, masked: bool, limit: int)
    requires Next(input, masked, limit, Nothing).end.Message?
    ensures |Next(input, masked, limit, Nothing).end.rest| < |input|
  {
    var frames := MessageIsFragments(input, masked, limit, Nothing);
    assert EncodeAll(frames) != [];
  }

  /** Whether a reader's end is that of a stream with this close frame, or with none. */
  predicate EndsAs(end: End, close: Option<Closing>)
  {
    match close
    case None => end == Broken
    case Some(c) => c.Closing? && end.Closed? && end.code == c.code && end.reason == c.reason
  }

  lemma Unmessaged(f: Frame, rest: Bytes, masked: bool, limit: int)
    requires Emitted(f, masked) && |f.payload| <= limit && f.opcode == PONG
    ensures ReadAll(Encode(f) + rest, masked, limit) == ReadAll(rest, masked, limit)
  {
    NextOnFrame(f, rest, masked, limit, Nothing);
    assert Next(Encode(f) + rest, masked, limit, Nothing) == Next(rest, masked, limit, Nothing);
  }

  lemma Messaged(f: Frame, rest: Bytes, masked: bool, limit: int)
    requires Emitted(f, masked) && |f.payload| <= limit && IsData(f.opcode)
    ensures var more := ReadAll(rest, masked, limit);
            ReadAll(Encode(f) + rest, masked, limit) == Reading([(f.opcode, f.payload)] + more.messages, more.end)
  {
    NextOnFrame(f, rest, masked, limit, Nothing);
    assert Next(Encode(f) + rest, masked, limit, Nothing) == Outcome([], Message(f.opcode, f.payload, rest));
  }

  lemma CloseEnds(f: Frame, rest: Bytes, masked: bool, limit: int)
    requires Emitted(f, masked) && |f.payload| <= limit && f.opcode == CLOSE
    ensures var r := ReadAll(Encode(f) + rest, masked, limit);
            r.messages == [] && EndsAs(r.end, Some(ParseClose(f.payload)))
  {
    NextOnFrame(f, rest, masked, limit, Nothing);
    assert Next(Encode(f) + rest, masked, limit, Nothing).end.Closed?;
  }

  lemma {:induction false} NoDataAfterClose(frames: seq<Frame>)
    requires forall i {:trigger frames[i]} :: 0 <= i < |frames| ==> IsControl(frames[i].opcode)
    ensures Sent(frames) == []
    decreases |frames|
  {
    if frames != [] {
      NoDataAfterClose(frames[1..]);
    }
  }

  /**
   A peer of the opposite role reads exactly the messages that were written, in order, and
   then the close, if one was written.
   */
  lemma {:induction false} PeerReadsAll(frames: seq<Frame>, masked: bool, limit: int)
    requires AllEmitted(frames, masked) && AllWithin(frames, limit) && Disciplined(frames)
    ensures AllWellFormed(frames)
    ensures var r := ReadAll(EncodeAll(frames), masked, limit);
            r.messages == Sent(frames) && EndsAs(r.end, FirstClose(frames))
    decreases |frames|
  {
    if frames == [] {
      assert Next([], masked, limit, Nothing).end == Broken;
    } else {
      var f, more := frames[0], frames[1..];
      PeerReadsAll(more, masked, limit);
      if f.opcode == CLOSE {
        CloseEnds(f, EncodeAll(more), masked, limit);
        NoDataAfterClose(more);
      } else if f.opcode == PONG {
        Unmessaged(f, EncodeAll(more), masked, limit);
      } else {
        Messaged(f, EncodeAll(more), masked, limit);
      }
    }
  }

  /** And frame by frame: nothing it was sent fails its checks. */
  lemma PeerAcceptsFrames(frames: seq<Frame>, masked: bool, limit: int)
    requires AllEmitted(frames, masked) && AllWithin(frames, limit)
    ensures AllWellFormed(frames) && DecodeAll(EncodeAll(frames), masked, limit) == Some(frames)
  {
    DecodeAllEncodeAll(frames, masked, limit);
  }
}
