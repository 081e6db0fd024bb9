/**
 What ReadMessage answers when the frames are not those of one message: in the middle of
 any message, with pings and pongs around, one more frame decides.
 */
module WebSocketAnswers {
  import opened WebSocketFrames
  import opened WebSocketMessages
  import opened WebSocketText

  /** The data of a message after one more frame. */
  function Gather(f: Frame, partial: Partial): Partial
  {
    if f.opcode >= 8 then partial
    else if partial.Started? then Started(partial.kind, partial.data + f.payload)
    else Started(f.opcode, f.payload)
  }

  function Gathered(frames: seq<Frame>, partial: Partial): Partial
    decreases |frames|
  {
    if frames == [] then partial else Gathered(frames[1..], Gather(frames[0], partial))
  }

  /** A frame that can come in the middle of a message: one more fragment within the limit, a ping or a pong. */
  predicate Middle(f: Frame, partial: Partial, limit: int)
  {
    if f.opcode == 9 || f.opcode == 10 then true
    else
      && !f.fin && (if partial.Started? then f.opcode == 0 else f.opcode == 1 || f.opcode == 2)
      && |Gather(f, partial).data| <= limit
  }

  predicate Underway(frames: seq<Frame>, partial: Partial, limit: int)
    decreases |frames|
  {
    frames == [] || (Middle(frames[0], partial, limit) && Underway(frames[1..], Gather(frames[0], partial), limit))
  }

  lemma GoesOnOnce(f: Frame, rest: Bytes, masked: bool, limit: int, partial: Partial)
    requires Sendable(f, masked, limit) && Fits(partial, limit) && Middle(f, partial, limit)
    ensures Fits(Gather(f, partial), limit)
    ensures var o := Next(rest, masked, limit, Gather(f, partial));
            Next(Encode(f) + rest, masked, limit, partial) == Outcome((if f.opcode == 9 then [f.payload] else []) + o.pings, o.end)
  {
    NextOnFrame(f, rest, masked, limit, partial);
    var o := Next(rest, masked, limit, Gather(f, partial));
    assert [] + o.pings == o.pings;
  }

  lemma PingsFirst(frames: seq<Frame>, later: seq<Bytes>)
    requires frames != []
    ensures (if frames[0].opcode == 9 then [frames[0].payload] else []) + (Pings(frames[1..]) + later) == Pings(frames) + later
  {
    Grouped(if frames[0].opcode == 9 then [frames[0].payload] else [], Pings(frames[1..]), later);
  }

  lemma Grouped(a: seq<Bytes>, b: seq<Bytes>, c: seq<Bytes>)
    ensures a + (b + c) == a + b + c
  {
  }

  /** Reading goes on with what has been gathered, and answers every ping on the way. */
  lemma {:induction false} GoesOn(frames: seq<Frame>, rest: Bytes, masked: bool, limit: int, partial: Partial)
    requires AllSendable(frames, masked, limit) && Fits(partial, limit) && Underway(frames, partial, limit)
    ensures Fits(Gathered(frames, partial), limit)
    ensures var o := Next(rest, masked, limit, Gathered(frames, partial));
            Next(EncodeAll(frames) + rest, masked, limit, partial) == Outcome(Pings(frames) + o.pings, o.end)
    decreases |frames|
  {
    if frames == [] {
      NoBytesFirst(rest);
      var o := Next(rest, masked, limit, partial);
      assert [] + o.pings == o.pings;
    } else {
      var f, more := frames[0], frames[1..];
      var next := Gather(f, partial);
      Regrouped(Encode(f), EncodeAll(more), rest);
      GoesOnOnce(f, EncodeAll(more) + rest, masked, limit, partial);
      GoesOn(more, rest, masked, limit, next);
      PingsFirst(frames, Next(rest, masked, limit, Gathered(more, next)).pings);
    }
  }

  /** What one frame makes of what was gathered, if it ends the call. */
  function Answer(f: Frame, partial: Partial, limit: int, rest: Bytes): Option<End>
  {
    if f.opcode == 8 then
      Some(if f.payload == [] then Closed(1000, [], [], rest)
           else if |f.payload| == 1 || Unsendable(CodeOf(f.payload)) || !Utf8(f.payload[2..]) then Refused(1002)
           else Closed(CodeOf(f.payload), f.payload[2..], f.payload, rest))
    else if f.opcode == 9 || f.opcode == 10 then None
    else if f.opcode > 2 || (f.opcode == 0) != partial.Started? then Some(Refused(1002))
    else
      var kind, data := if partial.Started? then partial.kind else f.opcode,
                        (if partial.Started? then partial.data else []) + f.payload;
      if |data| > limit then Some(Refused(1009))
      else if !f.fin then None
      else if kind == 1 && !Utf8(data) then Some(Refused(1007))
      else Some(Message(kind, data, rest))
  }

  lemma FrameAnswers(f: Frame, rest: Bytes, masked: bool, limit: int, partial: Partial)
    requires Sendable(f, masked, limit) && Fits(partial, limit) && Answer(f, partial, limit, rest).Some?
    ensures Next(Encode(f) + rest, masked, limit, partial) == Outcome([], Answer(f, partial, limit, rest).value)
  {
    NextOnFrame(f, rest, masked, limit, partial);
    CloseAnswers(f.payload);
    NoBytesFirst(f.payload);
  }

  /**
   For any part of a message followed by a frame that ends the call: every ping is answered
   in order, and the frame decides between a message, a close, and a refusal with the code
   for protocol errors, too large messages or invalid text.
   */
  lemma FrameDecides(frames: seq<Frame>, f: Frame, rest: Bytes, masked: bool, limit: int)
    requires AllSendable(frames, masked, limit) && Sendable(f, masked, limit) && Underway(frames, Nothing, limit)
    requires Answer(f, Gathered(frames, Nothing), limit, rest).Some?
    ensures Next(EncodeAll(frames) + (Encode(f) + rest), masked, limit, Nothing)
            == Outcome(Pings(frames), Answer(f, Gathered(frames, Nothing), limit, rest).value)
  {
    GoesOn(frames, Encode(f) + rest, masked, limit, Nothing);
    FrameAnswers(f, rest, masked, limit, Gathered(frames, Nothing));
    assert Pings(frames) + [] == Pings(frames);
  }
}
