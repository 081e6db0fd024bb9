/**
 How connections end, and what the client does then: which turn of the read loop ends a
 connection, when that stops the client for good, and when and with what it resumes. All of
 it is stated over what the connection received.
 */
module GatewayEndings {
  import opened Gateway

  // -------------------------------------------------------------------- one turn

  predicate IsReady(data: Option<ReadyData>)
  {
    && data.Some? && data.value.sessionId != "" && data.value.resumeUrl != ""
    && data.value.applicationId != "" && data.value.userId != ""
  }

  /** With so many events still queued, this turn is the connection's last. */
  predicate Last(waiting: nat, incoming: Incoming)
  {
    match incoming
    case Read(Dispatch(kind, _)) => waiting >= 128 || (kind.Ready? && !IsReady(kind.data))
    case Read(Heartbeat(written)) => !written
    case Read(HeartbeatAck) => false
    case Read(Reconnect) => true
    case Read(InvalidSession(_)) => true
    case Read(Ignored) => false
    case _ => true
  }

  /** How many events are queued after the dispatcher took some. */
  function Left(waiting: nat, taken: nat): nat
  {
    if taken < waiting then waiting - taken else 0
  }

  /** The number of turns before the last one; all of them if the script runs out. */
  function Turns(waiting: nat, script: seq<Input>): (n: nat)
    ensures n <= |script|
    decreases |script|
  {
    if script == [] then 0
    else
      var left := Left(waiting, script[0].taken);
      if Last(left, script[0].incoming) then 0
      else 1 + Turns(left + if Queued(script[0].incoming) then 1 else 0, script[1..])
  }

  predicate Queued(incoming: Incoming)
  {
    incoming.Read? && incoming.payload.Dispatch?
  }

  /** The session name after some turns: that of the latest Ready event. */
  function NameAfter(name: string, turns: seq<Input>): string
    decreases |turns|
  {
    if turns == [] then name
    else
      var last := turns[|turns| - 1].incoming;
      if Queued(last) && last.payload.kind.Ready? && IsReady(last.payload.kind.data) then last.payload.kind.data.value.sessionId
      else NameAfter(name, turns[..|turns| - 1])
  }

  /** The latest sequence number among the events that were queued. */
  function SequenceAfter(sequence: Option<int>, turns: seq<Input>): Option<int>
    decreases |turns|
  {
    if turns == [] then sequence
    else
      var last := turns[|turns| - 1].incoming;
      if Queued(last) && last.payload.sequence.Some? then last.payload.sequence
      else SequenceAfter(sequence, turns[..|turns| - 1])
  }

  /** Whether a Ready or Resumed event has come. */
  predicate Established(turns: seq<Input>)
  {
    exists i :: 0 <= i < |turns| && Establishes(turns[i].incoming)
  }

  predicate Establishes(incoming: Incoming)
  {
    Queued(incoming) && (incoming.payload.kind.Resumed? || (incoming.payload.kind.Ready? && IsReady(incoming.payload.kind.data)))
  }

  // ----------------------------------------------------------------- the last turn

  /** Ends that no new connection can repair. */
  predicate Hopeless(incoming: Incoming)
  {
    match incoming
    case Cancelled => true
    case CloseFrame(code) => code == 4004 || code == 4010 || code == 4011 || code == 4012 || code == 4013 || code == 4014
    case Read(Dispatch(Ready(data), _)) => !IsReady(data)
    case _ => false
  }

  /** Ends after which the session is given up. */
  predicate Forgets(incoming: Incoming)
  {
    match incoming
    case CloseFrame(code) => code == 4003 || code == 4005 || code == 4007 || code == 4009
    case Read(InvalidSession(canResume)) => !canResume
    case _ => false
  }

  /** Ends after which the client connects again without backing off longer. */
  predicate Prompt(incoming: Incoming)
  {
    match incoming
    case Read(Reconnect) => true
    case Read(InvalidSession(_)) => true
    case Read(Dispatch(kind, _)) => kind.Interaction?
    case _ => false
  }

  function StoredSequence(session: Session): Option<int>
  {
    if session.hasSeq then Some(session.sequence) else None
  }

  /** One turn, in these terms. */
  lemma TurnEnds(client: Client, incoming: Incoming, identified: bool)
    requires |client.queue| <= 128
    ensures var (client', result) := Turn(client, incoming, identified);
            && (result.Some? <==> Last(|client.queue|, incoming))
            && (result.None? ==> |client'.queue| == |client.queue| + if Queued(incoming) then 1 else 0)
            && (result.Some? ==> client'.queue == client.queue)
            && client'.session.id == NameAfter(client.session.id, [Input(0, incoming)])
            && StoredSequence(client'.session)
               == (if result.None? then SequenceAfter(StoredSequence(client.session), [Input(0, incoming)])
                   else StoredSequence(client.session))
            && client'.session.established == (client.session.established || Establishes(incoming))
            && (result.Some? ==>
                  && (result.value.fatal <==> Hopeless(incoming))
                  && (!Hopeless(incoming) ==>
                        && (client'.session.id != "" ==> (result.value.resume <==> !Forgets(incoming)))
                        && (result.value.immediate || result.value.delayed <==> Prompt(incoming))))
  {
    assert [Input(0, incoming)][..0] == [];
    assert NameAfter(client.session.id, []) == client.session.id;
  }

  // ------------------------------------------------------------------ the read loop

  lemma {:induction false} NameFirst(name: string, turns: seq<Input>)
    requires turns != []
    ensures NameAfter(name, turns) == NameAfter(NameAfter(name, [turns[0]]), turns[1..])
    decreases |turns|
  {
    var last := |turns| - 1;
    if last == 0 {
      assert turns == [turns[0]] && turns[1..] == [];
    } else {
      assert turns[1..][..last - 1] == turns[..last][1..] && turns[..last][0] == turns[0];
      NameFirst(name, turns[..last]);
    }
  }

  lemma {:induction false} SequenceFirst(sequence: Option<int>, turns: seq<Input>)
    requires turns != []
    ensures SequenceAfter(sequence, turns) == SequenceAfter(SequenceAfter(sequence, [turns[0]]), turns[1..])
    decreases |turns|
  {
    var last := |turns| - 1;
    if last == 0 {
      assert turns == [turns[0]] && turns[1..] == [];
    } else {
      assert turns[1..][..last - 1] == turns[..last][1..] && turns[..last][0] == turns[0];
      SequenceFirst(sequence, turns[..last]);
    }
  }

  lemma EstablishedFirst(turns: seq<Input>)
    requires turns != []
    ensures Established(turns) <==> Establishes(turns[0].incoming) || Established(turns[1..])
  {
    if Established(turns[1..]) {
      var i :| 0 <= i < |turns| - 1 && Establishes(turns[1..][i].incoming);
      assert Establishes(turns[i + 1].incoming);
    }
    if Established(turns) {
      var i :| 0 <= i < |turns| && Establishes(turns[i].incoming);
      assert i > 0 ==> turns[1..][i - 1] == turns[i];
    }
  }

  /** What the turns of a connection leave of a session, its last one apart. */
  ghost predicate Leaves(before: Session, turns: seq<Input>, last: seq<Input>, after: Session)
  {
    && after.id == NameAfter(before.id, turns + last)
    && StoredSequence(after) == SequenceAfter(StoredSequence(before), turns)
    && after.established == (before.established || Established(turns + last))
  }

  lemma LeavesNothing(session: Session)
    ensures Leaves(session, [], [], session)
  {
  }

  lemma LeavesLast(before: Session, input: Input, after: Session)
    requires after.id == NameAfter(before.id, [Input(0, input.incoming)]) && StoredSequence(after) == StoredSequence(before)
    requires after.established == (before.established || Establishes(input.incoming))
    ensures Leaves(before, [], [input], after)
  {
    assert [] + [input] == [input] && [input][..0] == [] && [Input(0, input.incoming)][..0] == [];
    assert [input][0] == input;
  }

  lemma LeavesFirst(before: Session, input: Input, next: Session, turns: seq<Input>, last: seq<Input>, after: Session)
    requires next.id == NameAfter(before.id, [Input(0, input.incoming)])
    requires StoredSequence(next) == SequenceAfter(StoredSequence(before), [Input(0, input.incoming)])
    requires next.established == (before.established || Establishes(input.incoming))
    requires Leaves(next, turns, last, after)
    ensures Leaves(before, [input] + turns, last, after)
  {
    var all := [input] + turns + last;
    assert all[0] == input && all[1..] == turns + last && ([input] + turns)[1..] == turns;
    assert [input][..0] == [] && [Input(0, input.incoming)][..0] == [];
    assert NameAfter(before.id, [input]) == NameAfter(before.id, [Input(0, input.incoming)]);
    assert SequenceAfter(StoredSequence(before), [input]) == SequenceAfter(StoredSequence(before), [Input(0, input.incoming)]);
    NameFirst(before.id, all);
    SequenceFirst(StoredSequence(before), [input] + turns);
    EstablishedFirst(all);
  }

  /** The last turn of a connection, if its script does not run out. */
  function Final(n: nat, script: seq<Input>): seq<Input>
    requires n <= |script|
  {
    if n < |script| then [script[n]] else []
  }

  /** What ended a connection; a script that runs out is a client that is stopped. */
  function Ending(n: nat, script: seq<Input>): Incoming
    requires n <= |script|
  {
    if n < |script| then script[n].incoming else Cancelled
  }

  predicate Fits(result: Result, name: string, ending: Incoming)
  {
    && (result.fatal <==> Hopeless(ending))
    && (!Hopeless(ending) ==>
          && (name != "" ==> (result.resume <==> !Forgets(ending)))
          && (result.immediate || result.delayed <==> Prompt(ending)))
  }

  /** How a read loop ended, of a client with so many events queued. */
  ghost predicate Ended(before: Session, waiting: nat, script: seq<Input>, after: Session, result: Result)
  {
    var n := Turns(waiting, script);
    Leaves(before, script[..n], Final(n, script), after) && Fits(result, after.id, Ending(n, script))
  }

  lemma EndedAtOnce(before: Session, waiting: nat, script: seq<Input>, after: Session, result: Result)
    requires script != [] && Last(Left(waiting, script[0].taken), script[0].incoming)
    requires after.id == NameAfter(before.id, [Input(0, script[0].incoming)]) && StoredSequence(after) == StoredSequence(before)
    requires after.established == (before.established || Establishes(script[0].incoming))
    requires Fits(result, after.id, script[0].incoming)
    ensures Ended(before, waiting, script, after, result)
  {
    LeavesLast(before, script[0], after);
    assert script[..0] == [];
  }

  lemma EndedLater(before: Session, waiting: nat, script: seq<Input>, next: Session, left: nat, after: Session, result: Result)
    requires script != [] && !Last(Left(waiting, script[0].taken), script[0].incoming)
    requires left == Left(waiting, script[0].taken) + if Queued(script[0].incoming) then 1 else 0
    requires next.id == NameAfter(before.id, [Input(0, script[0].incoming)])
    requires StoredSequence(next) == SequenceAfter(StoredSequence(before), [Input(0, script[0].incoming)])
    requires next.established == (before.established || Establishes(script[0].incoming))
    requires Ended(next, left, script[1..], after, result)
    ensures Ended(before, waiting, script, after, result)
  {
    var rest := script[1..];
    var m := Turns(left, rest);
    LeavesFirst(before, script[0], next, rest[..m], Final(m, rest), after);
    assert [script[0]] + rest[..m] == script[..m + 1];
  }

  lemma {:induction false} ReadLoopEnds(client: Client, script: seq<Input>, identified: bool)
    requires |client.queue| <= 128
    ensures var (after, result) := ReadLoop(client, script, identified);
            Ended(client.session, |client.queue|, script, after.session, result)
    decreases |script|
  {
    if script == [] {
      LeavesNothing(client.session);
      assert script[..0] == [];
    } else {
      var drained := Drain(client, script[0].taken);
      assert |drained.queue| == Left(|client.queue|, script[0].taken) && drained.session == client.session;
      var (next, result) := Turn(drained, script[0].incoming, identified);
      TurnEnds(drained, script[0].incoming, identified);
      if result.Some? {
        EndedAtOnce(client.session, |client.queue|, script, next.session, result.value);
      } else {
        ReadLoopEnds(next, script[1..], identified);
        var (after, last) := ReadLoop(next, script[1..], identified);
        EndedLater(client.session, |client.queue|, script, next.session, |next.queue|, after.session, last);
      }
    }
  }

  // ------------------------------------------------------------- one pass of Run's loop

  /** What stops the client before it listens. */
  predicate HopelessOpening(opening: Opening)
  {
    match opening
    case DialCancelled => true
    case HelloInvalid => true
    case HelloFailed(incoming) => !incoming.Read? && Hopeless(incoming)
    case _ => false
  }

  predicate ForgetsOpening(opening: Opening)
  {
    opening.HelloFailed? && !opening.incoming.Read? && Forgets(opening.incoming)
  }

  function TurnsOf(loop: Loop, c: Connection): (n: nat)
    ensures n <= |c.script|
  {
    Turns(|loop.client.queue|, c.script)
  }

  predicate UsedUp(loop: Loop, c: Connection)
  {
    !loop.resume && (if c.refreshed.Some? then c.refreshed.value else loop.remaining) <= 0
  }

  function Fresh(session: Session): Session
  {
    session.(established := false)
  }

  /** How one connection ends, listening or before. */
  lemma SessionEnds(loop: Loop, c: Connection)
    requires |loop.client.queue| <= 128
    ensures var (after, result) := RunSession(loop.client, c.opening, c.script, loop.resume);
            if c.opening == Opened then Ended(Fresh(loop.client.session), |loop.client.queue|, c.script, after.session, result)
            else
              && after.session == Fresh(loop.client.session) && (result.fatal <==> HopelessOpening(c.opening))
              && (!result.fatal ==>
                    && (result.resume <==> (loop.resume || c.opening == HelloReconnect) && !ForgetsOpening(c.opening))
                    && (result.immediate || result.delayed <==> c.opening == HelloReconnect))
  {
    if c.opening == Opened {
      ReadLoopEnds(loop.client.(session := Fresh(loop.client.session)), c.script, !loop.resume);
    }
  }

  /** The client stops exactly when it may not identify, or when the connection's end is hopeless. */
  lemma StopsExactly(loop: Loop, c: Connection)
    requires LoopOk(loop) && !loop.stopped
    ensures Iterate(loop, c).stopped
            <==> || UsedUp(loop, c) || HopelessOpening(c.opening)
                 || (c.opening == Opened && Hopeless(Ending(TurnsOf(loop, c), c.script)))
  {
    SessionEnds(loop, c);
  }

  /** What the client knows of its session when a connection is over. */
  function NameThen(loop: Loop, c: Connection): string
  {
    var n, id := TurnsOf(loop, c), loop.client.session.id;
    if c.opening == Opened then NameAfter(id, c.script[..n] + Final(n, c.script)) else id
  }

  function SequenceThen(loop: Loop, c: Connection): Option<int>
  {
    var sequence := StoredSequence(loop.client.session);
    if c.opening == Opened then SequenceAfter(sequence, c.script[..TurnsOf(loop, c)]) else sequence
  }

  predicate ForgetsThen(loop: Loop, c: Connection)
  {
    if c.opening == Opened then Forgets(Ending(TurnsOf(loop, c), c.script)) else ForgetsOpening(c.opening)
  }

  /**
   Otherwise it resumes exactly when it has a session's name and a sequence and the end did
   not give the session up; RESUME then carries that name and that sequence.
   */
  lemma ResumesExactly(loop: Loop, c: Connection)
    requires LoopOk(loop) && !loop.stopped && !Iterate(loop, c).stopped
    ensures var after := Iterate(loop, c);
            && (after.resume <==> NameThen(loop, c) != "" && SequenceThen(loop, c).Some? && !ForgetsThen(loop, c))
            && (after.resume ==> Greeting(after) == Resume(NameThen(loop, c), SequenceThen(loop, c).value))
            && (!after.resume ==> Greeting(after) == Identify && after.client.session.id == "")
  {
    SessionEnds(loop, c);
    SequenceIgnoresEstablished(loop.client.session);
  }

  lemma SequenceIgnoresEstablished(session: Session)
    ensures StoredSequence(Fresh(session)) == StoredSequence(session)
  {
  }

  predicate EstablishedThen(loop: Loop, c: Connection)
  {
    var n := TurnsOf(loop, c);
    c.opening == Opened && Established(c.script[..n] + Final(n, c.script))
  }

  predicate PromptThen(loop: Loop, c: Connection)
  {
    if c.opening == Opened then Prompt(Ending(TurnsOf(loop, c), c.script)) else c.opening == HelloReconnect
  }

  /** The back-off starts over after an established session, and doubles up to 32 seconds unless the end asked for a prompt return. */
  lemma BacksOff(loop: Loop, c: Connection)
    requires LoopOk(loop) && !loop.stopped && !Iterate(loop, c).stopped
    ensures var base := if EstablishedThen(loop, c) then 1 else loop.backoff;
            Iterate(loop, c).backoff == if PromptThen(loop, c) || base == 32 then base else 2 * base
  {
    SessionEnds(loop, c);
  }
}
