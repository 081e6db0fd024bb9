/**
 The client against a server that keeps a log per session and, when a session is resumed,
 replays it after the acknowledged sequence. Connections break at any point, the queue is
 drained at any pace, and the server may refuse to resume.
 */
module GatewayProtocol {
  import opened Gateway

  /** An accepted event with the session it was accepted for. */
  datatype Tagged = Tagged(session: string, payload: Payload)

  /** The session a connection serves and the next log position to send. */
  datatype Attached = Attached(session: string, next: nat)

  datatype System = System(
    client: Client, resume: bool, stopped: bool, connected: bool,
    history: seq<Tagged>, delivered: seq<Payload>,
    logs: map<string, seq<Payload>>, attached: Option<Attached>, wire: seq<Payload>)

  datatype Action =
    | Append(session: string, kind: Kind)       // something happens in a session
    | Transmit                                  // the server sends the next event of the log
    | Control(payload: Payload)                 // the server sends something that is not in the log
    | Connect(accepted: bool, newSession: string, ready: ReadyData)
    | OpenFails(opening: Opening)
    | Receive
    | Break(incoming: Incoming)
    | Dequeue

  /** Dispatches without a sequence number and gateway operations are not part of a session's log. */
  predicate Unlogged(payload: Payload)
  {
    payload.Dispatch? ==> payload.sequence.None? && !payload.kind.Ready?
  }

  ghost predicate Enabled(s: System, a: Action)
  {
    match a
    case Append(session, kind) => session in s.logs && !kind.Ready?
    case Transmit => s.connected && s.attached.Some? && s.attached.value.session in s.logs
                     && s.attached.value.next < |s.logs[s.attached.value.session]|
    case Control(payload) => s.connected && Unlogged(payload)
    case Connect(_, newSession, ready) =>
      !s.connected && !s.stopped
      && (!s.resume ==> newSession !in s.logs && newSession == ready.sessionId && ValidReady(Some(ready)))
    case OpenFails(opening) => !s.connected && !s.stopped && opening != Opened
    case Receive => s.connected && s.wire != []
    case Break(incoming) => s.connected && !incoming.Read?
    case Dequeue => s.client.queue != []
  }

  function ReadyEvent(ready: ReadyData): Payload
  {
    Dispatch(Ready(Some(ready)), Some(1))
  }

  ghost function Disconnected(s: System, client: Client, result: Result): System
  {
    s.(client := client.(session := Settled(client.session, result)),
       resume := Resumes(client.session, result),
       stopped := result.fatal, connected := false, attached := None, wire := [])
  }

  ghost function AfterTurn(s: System, incoming: Incoming): System
  {
    var (client, result) := Turn(s.client, incoming, !s.resume);
    var s' := s.(client := client,
                 history := s.history + if |client.enqueued| > |s.client.enqueued|
                                        then [Tagged(client.session.id, client.enqueued[|client.enqueued| - 1])] else []);
    if result.Some? then Disconnected(s', client, result.value) else s'
  }

  ghost function Apply(s: System, a: Action): System
    requires Enabled(s, a)
  {
    match a
    case Append(session, kind) =>
      s.(logs := s.logs[session := s.logs[session] + [Dispatch(kind, Some(|s.logs[session]| + 1))]])
    case Transmit =>
      var at := s.attached.value;
      s.(wire := s.wire + [s.logs[at.session][at.next]], attached := Some(Attached(at.session, at.next + 1)))
    case Control(payload) => s.(wire := s.wire + [payload])
    case Connect(accepted, newSession, ready) =>
      var client := s.client.(session := s.client.session.(established := false));
      if s.resume then
        s.(client := client, connected := true, wire := [],
           attached := if accepted && s.client.session.sequence >= 0
                       then Some(Attached(s.client.session.id, s.client.session.sequence)) else None)
      else
        s.(client := client, connected := true, wire := [],
           logs := s.logs[newSession := [ReadyEvent(ready)]], attached := Some(Attached(newSession, 0)))
    case OpenFails(opening) =>
      Disconnected(s, s.client.(session := s.client.session.(established := false)), OpenResult(opening, s.resume))
    case Receive => AfterTurn(s.(wire := s.wire[1..]), Read(s.wire[0]))
    case Break(incoming) => AfterTurn(s, incoming)
    case Dequeue =>
      s.(client := Drain(s.client, 1), delivered := s.delivered + [s.client.queue[0]])
  }

  // ------------------------------------------------------------------ invariant

  predicate Numbered(payload: Payload)
  {
    payload.Dispatch? && payload.sequence.Some?
  }

  /** The numbered payloads, in order. */
  function Logged(payloads: seq<Payload>): seq<Payload>
  {
    if payloads == [] then []
    else Logged(payloads[..|payloads| - 1])
         + if Numbered(payloads[|payloads| - 1]) then [payloads[|payloads| - 1]] else []
  }

  /** The numbered events ever enqueued for a session, in order. */
  function Got(history: seq<Tagged>, session: string): seq<Payload>
  {
    if history == [] then []
    else
      var last := history[|history| - 1];
      Got(history[..|history| - 1], session)
      + if last.session == session && Numbered(last.payload) then [last.payload] else []
  }

  ghost predicate LogOk(session: string, log: seq<Payload>)
  {
    && session != "" && |log| >= 1
    && (forall i :: 0 <= i < |log| ==> log[i].Dispatch? && log[i].sequence == Some(i + 1) && (log[i].kind.Ready? <==> i == 0))
    && ValidReady(log[0].kind.data) && log[0].kind.data.value.sessionId == session
  }

  ghost predicate Logs(s: System)
  {
    && (forall session :: session in s.logs ==> LogOk(session, s.logs[session]))
    && (s.client.session.id != "" ==> s.client.session.id in s.logs)
  }

  ghost predicate IsPrefix(s: System, session: string)
  {
    if session in s.logs then Got(s.history, session) <= s.logs[session]
    else session != "" ==> Got(s.history, session) == []
  }

  /** Whatever the connections did, a session's accepted events are a prefix of its log. */
  ghost predicate Prefixes(s: System)
  {
    forall session {:trigger IsPrefix(s, session)} :: IsPrefix(s, session)
  }

  /** A named session's stored sequence counts the events accepted for it. */
  ghost predicate Position(s: System)
  {
    && (s.client.session.hasSeq ==> s.client.session.id != "" && s.client.session.sequence == |Got(s.history, s.client.session.id)| > 0)
    && (!s.stopped ==> (s.client.session.hasSeq <==> s.client.session.id != ""))
    && (!s.connected && !s.stopped ==> (s.resume <==> s.client.session.id != ""))
  }

  /** What is on the wire continues exactly where the client is. */
  ghost predicate Wire(s: System)
  {
    && (forall i :: 0 <= i < |s.wire| ==> Unlogged(s.wire[i]) || Numbered(s.wire[i]))
    && (s.connected ==> !s.stopped)
    && (s.attached.None? ==> Logged(s.wire) == [])
    && (s.attached.Some? ==>
          var at := s.attached.value;
          && s.connected && at.session in s.logs && at.next <= |s.logs[at.session]|
          && (s.client.session.id == at.session || (s.client.session.id == "" && Got(s.history, at.session) == []))
          && |Got(s.history, at.session)| <= at.next
          && Logged(s.wire) == s.logs[at.session][|Got(s.history, at.session)|..at.next])
  }

  ghost predicate Queue(s: System)
  {
    && |s.client.queue| <= QUEUE_SIZE
    && s.delivered + s.client.queue == s.client.enqueued
    && |s.history| == |s.client.enqueued|
    && (forall i :: 0 <= i < |s.history| ==> s.history[i].payload == s.client.enqueued[i])
  }

  ghost predicate Good(s: System)
  {
    Logs(s) && Prefixes(s) && Position(s) && Wire(s) && Queue(s)
  }

  // -------------------------------------------------------------- small algebra

  lemma LoggedAppend(payloads: seq<Payload>, payload: Payload)
    ensures Logged(payloads + [payload]) == Logged(payloads) + if Numbered(payload) then [payload] else []
  {
    assert (payloads + [payload])[..|payloads|] == payloads;
  }

  lemma {:induction false} LoggedFirst(payloads: seq<Payload>)
    requires payloads != []
    ensures Logged(payloads) == (if Numbered(payloads[0]) then [payloads[0]] else []) + Logged(payloads[1..])
  {
    var last := |payloads| - 1;
    if last > 0 {
      LoggedFirst(payloads[..last]);
      assert payloads[..last][1..] == payloads[1..][..last - 1];
    }
  }

  lemma GotAppend(history: seq<Tagged>, tagged: Tagged, session: string)
    ensures Got(history + [tagged], session) ==
              Got(history, session) + if tagged.session == session && Numbered(tagged.payload) then [tagged.payload] else []
  {
    assert (history + [tagged])[..|history|] == history;
  }

  // ----------------------------------------------------------------- receiving

  /** The next numbered event on the wire is the one after those already accepted. */
  lemma NextOnWire(s: System)
    requires Logs(s) && Prefixes(s) && Wire(s) && s.wire != []
    ensures Numbered(s.wire[0]) ==>
              && s.attached.Some?
              && var at := s.attached.value;
                 var got := Got(s.history, at.session);
                 && |got| < at.next && s.wire[0] == s.logs[at.session][|got|]
                 && Logged(s.wire[1..]) == s.logs[at.session][|got| + 1..at.next]
                 && got + [s.wire[0]] <= s.logs[at.session]
                 && (s.wire[0].kind.Ready? <==> got == [])
    ensures !Numbered(s.wire[0]) ==> Logged(s.wire[1..]) == Logged(s.wire)
  {
    LoggedFirst(s.wire);
    if Numbered(s.wire[0]) {
      var at := s.attached.value;
      var got := Got(s.history, at.session);
      var log := s.logs[at.session];
      assert IsPrefix(s, at.session);
      assert Logged(s.wire)[0] == s.wire[0];
      assert Logged(s.wire[1..]) == Logged(s.wire)[1..];
      assert log[|got|..at.next][1..] == log[|got| + 1..at.next];
      assert got + [log[|got|]] == log[..|got| + 1];
    }
  }

  /** What one turn may do to the client, as far as the log is concerned. */
  lemma TurnEffect(client: Client, incoming: Incoming, identified: bool)
    requires incoming.Read? ==> Numbered(incoming.payload) || Unlogged(incoming.payload)
    ensures var (client', result) := Turn(client, incoming, identified);
            || (client'.enqueued == client.enqueued && client'.queue == client.queue && client'.session.hasSeq == client.session.hasSeq
                && client'.session.sequence == client.session.sequence
                && (client'.session.id == client.session.id
                    || (incoming.Read? && incoming.payload.Dispatch? && incoming.payload.kind.Ready? && result.Some?)))
            || (incoming.Read? && incoming.payload.Dispatch? && result.None?
                && client'.enqueued == client.enqueued + [incoming.payload]
                && client'.queue == client.queue + [incoming.payload] && |client.queue| < QUEUE_SIZE
                && client'.session == Enqueued(Accepted(client.session, incoming.payload.kind), incoming.payload.sequence))
  {
  }

  /** The state after an event was accepted and the connection goes on. */
  lemma AcceptKeeps(s: System)
    requires Good(s) && Enabled(s, Receive) && Numbered(s.wire[0]) && Apply(s, Receive).connected
    ensures s.attached.Some?
    ensures var at := s.attached.value;
            && Apply(s, Receive) == s.(client := Apply(s, Receive).client, wire := s.wire[1..],
                                       history := s.history + [Tagged(at.session, s.wire[0])])
            && Apply(s, Receive).client.session.id == at.session
            && Apply(s, Receive).client.session.hasSeq
            && Apply(s, Receive).client.session.sequence == |Got(s.history, at.session)| + 1
  {
    NextOnWire(s);
  }

  lemma NumberedKeepsPrefixes(s: System)
    requires Good(s) && Enabled(s, Receive) && Numbered(s.wire[0]) && Apply(s, Receive).connected
    ensures Prefixes(Apply(s, Receive))
  {
    NextOnWire(s);
    AcceptKeeps(s);
    var at := s.attached.value;
    forall session
      ensures IsPrefix(Apply(s, Receive), session)
    {
      assert IsPrefix(s, session);
      GotAppend(s.history, Tagged(at.session, s.wire[0]), session);
    }
  }

  lemma NumberedKeeps(s: System)
    requires Good(s) && Enabled(s, Receive) && Numbered(s.wire[0]) && Apply(s, Receive).connected
    ensures Position(Apply(s, Receive)) && Wire(Apply(s, Receive)) && Logs(Apply(s, Receive))
  {
    NextOnWire(s);
    AcceptKeeps(s);
    GotAppend(s.history, Tagged(s.attached.value.session, s.wire[0]), s.attached.value.session);
    MovedOn(s, Apply(s, Receive), s.attached.value.session);
  }

  lemma MovedOn(s: System, s': System, session: string)
    requires Logs(s) && Wire(s) && s.connected && s.wire != [] && s.attached.Some? && s.attached.value.session == session
    requires s' == s.(client := s'.client, wire := s.wire[1..], history := s'.history)
    requires s'.client.session.id == session && s'.client.session.hasSeq
    requires Got(s'.history, session) == Got(s.history, session) + [s.wire[0]]
    requires s'.client.session.sequence == |Got(s.history, session)| + 1
    requires |Got(s.history, session)| < s.attached.value.next
    requires Logged(s.wire[1..]) == s.logs[session][|Got(s.history, session)| + 1..s.attached.value.next]
    ensures Position(s') && Wire(s') && Logs(s')
  {
  }

  lemma UnnumberedTurn(s: System)
    requires Wire(s) && Enabled(s, Receive) && !Numbered(s.wire[0]) && Apply(s, Receive).connected
    ensures var s' := Apply(s, Receive);
            && s' == s.(client := s'.client, history := s'.history, wire := s.wire[1..])
            && s'.client.session == s.client.session.(established := s'.client.session.established)
            && (s'.history == s.history || s'.history == s.history + [Tagged(s'.client.session.id, s.wire[0])])
  {
    TurnEffect(s.client, Read(s.wire[0]), !s.resume);
  }

  /** Neither gateway operations nor unnumbered dispatches move any session forward. */
  lemma UnnumberedMovesNothing(s: System)
    requires Wire(s) && Enabled(s, Receive) && !Numbered(s.wire[0]) && Apply(s, Receive).connected
    ensures var s' := Apply(s, Receive);
            && s' == s.(client := s'.client, history := s'.history, wire := s.wire[1..])
            && s'.client.session == s.client.session.(established := s'.client.session.established)
            && forall session :: Got(s'.history, session) == Got(s.history, session)
  {
    UnnumberedTurn(s);
    forall session
      ensures Got(Apply(s, Receive).history, session) == Got(s.history, session)
    {
      GotAppend(s.history, Tagged(Apply(s, Receive).client.session.id, s.wire[0]), session);
    }
  }

  lemma UnnumberedKeeps(s: System)
    requires Good(s) && Enabled(s, Receive) && !Numbered(s.wire[0]) && Apply(s, Receive).connected
    ensures Prefixes(Apply(s, Receive)) && Position(Apply(s, Receive)) && Wire(Apply(s, Receive)) && Logs(Apply(s, Receive))
  {
    LoggedFirst(s.wire);
    UnnumberedMovesNothing(s);
    SamePrefixes(s, Apply(s, Receive));
  }

  lemma SamePrefixes(s: System, s': System)
    requires Prefixes(s) && s'.logs == s.logs
    requires forall session :: Got(s'.history, session) == Got(s.history, session)
    ensures Prefixes(s')
  {
    forall session
      ensures IsPrefix(s', session)
    {
      assert IsPrefix(s, session);
    }
  }

  /** Losing a connection loses nothing that was accepted. */
  lemma DisconnectKeeps(s: System, client: Client, result: Result)
    requires Logs(s) && Prefixes(s) && Position(s)
    requires client.session.hasSeq == s.client.session.hasSeq && client.session.sequence == s.client.session.sequence
    requires client.session.id == s.client.session.id || !s.client.session.hasSeq
    ensures var s' := Disconnected(s, client, result);
            Logs(s') && Prefixes(s') && Position(s') && Wire(s')
  {
    SamePrefixes(s, Disconnected(s, client, result));
  }

  /** A turn that ends the connection leaves the client where it was, or with a session it never acknowledged. */
  lemma EndEffect(s: System, incoming: Incoming)
    requires Logs(s) && Prefixes(s) && Position(s) && Wire(s) && s.connected
    requires incoming.Read? ==> s.wire != [] && incoming.payload == s.wire[0]
    requires Turn(s.client, incoming, !s.resume).1.Some?
    ensures var client := Turn(s.client, incoming, !s.resume).0;
            && client.enqueued == s.client.enqueued
            && client.session.hasSeq == s.client.session.hasSeq && client.session.sequence == s.client.session.sequence
            && (client.session.id == s.client.session.id || !s.client.session.hasSeq)
  {
    TurnEffect(s.client, incoming, !s.resume);
    if incoming.Read? && incoming.payload.Dispatch? && incoming.payload.kind.Ready? {
      NextOnWire(s);
    }
  }

  lemma EndKeeps(s: System, incoming: Incoming, wire: seq<Payload>)
    requires Good(s) && s.connected && !AfterTurn(s.(wire := wire), incoming).connected
    requires incoming.Read? ==> s.wire != [] && incoming.payload == s.wire[0]
    ensures var s' := AfterTurn(s.(wire := wire), incoming);
            Logs(s') && Prefixes(s') && Position(s') && Wire(s')
  {
    EndEffect(s, incoming);
    var (client, result) := Turn(s.client, incoming, !s.resume);
    assert s.history + [] == s.history;
    assert AfterTurn(s.(wire := wire), incoming) == Disconnected(s.(wire := wire), client, result.value);
    SamePrefixes(s, s.(wire := wire));
    DisconnectKeeps(s.(wire := wire), client, result.value);
  }

  lemma TurnKeepsQueue(s: System, incoming: Incoming)
    requires Queue(s) && (incoming.Read? ==> Numbered(incoming.payload) || Unlogged(incoming.payload))
    ensures Queue(AfterTurn(s, incoming))
  {
    TurnEffect(s.client, incoming, !s.resume);
  }

  // -------------------------------------------------------------- the other steps

  lemma AppendKeeps(s: System, session: string, kind: Kind)
    requires Good(s) && Enabled(s, Append(session, kind))
    ensures Good(Apply(s, Append(session, kind)))
  {
    var s' := Apply(s, Append(session, kind));
    forall other
      ensures IsPrefix(s', other)
    {
      assert IsPrefix(s, other);
    }
    if s.attached.Some? {
      var at := s.attached.value;
      var c := |Got(s.history, at.session)|;
      assert s'.logs[at.session][c..at.next] == s.logs[at.session][c..at.next];
    }
  }

  lemma TransmitKeeps(s: System)
    requires Good(s) && Enabled(s, Transmit)
    ensures Good(Apply(s, Transmit))
  {
    SamePrefixes(s, Apply(s, Transmit));
    var at := s.attached.value;
    var c := |Got(s.history, at.session)|;
    LoggedAppend(s.wire, s.logs[at.session][at.next]);
    assert s.logs[at.session][c..at.next + 1] == s.logs[at.session][c..at.next] + [s.logs[at.session][at.next]];
  }

  lemma ControlKeeps(s: System, payload: Payload)
    requires Good(s) && Enabled(s, Control(payload))
    ensures Good(Apply(s, Control(payload)))
  {
    SamePrefixes(s, Apply(s, Control(payload)));
    LoggedAppend(s.wire, payload);
  }

  lemma ConnectKeeps(s: System, a: Action)
    requires Good(s) && a.Connect? && Enabled(s, a)
    ensures Good(Apply(s, a))
  {
    var s' := Apply(s, a);
    forall session
      ensures IsPrefix(s', session)
    {
      assert IsPrefix(s, session);
    }
    if s.resume {
      assert IsPrefix(s, s.client.session.id);
    } else {
      assert IsPrefix(s, a.newSession);
    }
  }

  lemma OpenFailsKeeps(s: System, a: Action)
    requires Good(s) && a.OpenFails? && Enabled(s, a)
    ensures Good(Apply(s, a))
  {
    DisconnectKeeps(s, s.client.(session := s.client.session.(established := false)), OpenResult(a.opening, s.resume));
  }

  lemma DequeueKeeps(s: System)
    requires Good(s) && Enabled(s, Dequeue)
    ensures Good(Apply(s, Dequeue))
  {
    SamePrefixes(s, Apply(s, Dequeue));
  }

  /** Every step of the client, the server and the network keeps the invariant. */
  lemma StepKeepsGood(s: System, a: Action)
    requires Good(s) && Enabled(s, a)
    ensures Good(Apply(s, a))
  {
    match a
    case Append(session, kind) => AppendKeeps(s, session, kind);
    case Transmit => TransmitKeeps(s);
    case Control(payload) => ControlKeeps(s, payload);
    case Connect(_, _, _) => ConnectKeeps(s, a);
    case OpenFails(_) => OpenFailsKeeps(s, a);
    case Dequeue => DequeueKeeps(s);
    case Break(incoming) =>
      TurnKeepsQueue(s, incoming);
      EndKeeps(s, incoming, s.wire);
    case Receive =>
      TurnKeepsQueue(s.(wire := s.wire[1..]), Read(s.wire[0]));
      if !Apply(s, Receive).connected {
        EndKeeps(s, Read(s.wire[0]), s.wire[1..]);
      } else if Numbered(s.wire[0]) {
        NumberedKeepsPrefixes(s);
        NumberedKeeps(s);
      } else {
        UnnumberedKeeps(s);
      }
  }

  // ----------------------------------------------------------------------- runs

  ghost predicate Init(s: System)
  {
    && s.client == Client(NoSession, [], []) && !s.resume && !s.stopped && !s.connected
    && s.history == [] && s.delivered == [] && s.logs == map[] && s.attached == None && s.wire == []
  }

  ghost predicate Reaches(actions: seq<Action>, s: System)
    decreases |actions|, 1
  {
    if actions == [] then Init(s)
    else exists before :: StepsTo(actions, before, s)
  }

  ghost predicate StepsTo(actions: seq<Action>, before: System, s: System)
    requires actions != []
    decreases |actions|, 0
  {
    var last := |actions| - 1;
    Reaches(actions[..last], before) && Enabled(before, actions[last]) && s == Apply(before, actions[last])
  }

  lemma {:induction false} ReachableIsGood(actions: seq<Action>, s: System)
    requires Reaches(actions, s)
    ensures Good(s)
  {
    if actions == [] {
    } else {
      var before :| StepsTo(actions, before, s);
      ReachableIsGood(actions[..|actions| - 1], before);
      StepKeepsGood(before, actions[|actions| - 1]);
    }
  }

  /**
   No gap, no duplicate, no reordering: over any run the numbered events accepted for a session
   are a prefix of its log, and for the current session exactly the prefix up to the stored sequence.
   */
  lemma AcceptedIsLogPrefix(actions: seq<Action>, s: System, session: string)
    requires Reaches(actions, s) && session in s.logs
    ensures Got(s.history, session) <= s.logs[session]
    ensures s.client.session.id == session && s.client.session.hasSeq ==>
              && 0 < s.client.session.sequence <= |s.logs[session]|
              && Got(s.history, session) == s.logs[session][..s.client.session.sequence]
  {
    ReachableIsGood(actions, s);
    assert IsPrefix(s, session);
  }

  /** RESUME names an existing session and the position up to which its events were accepted. */
  lemma ResumeIsSound(actions: seq<Action>, s: System)
    requires Reaches(actions, s) && !s.connected && !s.stopped && s.resume
    ensures var session := s.client.session;
            && session.hasSeq && session.id != "" && session.id in s.logs && 0 < session.sequence <= |s.logs[session.id]|
            && Got(s.history, session.id) == s.logs[session.id][..session.sequence]
  {
    ReachableIsGood(actions, s);
    AcceptedIsLogPrefix(actions, s, s.client.session.id);
  }

  /** Handlers see every accepted event once and in order; at most the bounded queue is outstanding. */
  lemma DeliveredInOrder(actions: seq<Action>, s: System)
    requires Reaches(actions, s)
    ensures s.delivered + s.client.queue == s.client.enqueued && |s.client.queue| <= QUEUE_SIZE
    ensures |s.history| == |s.client.enqueued|
    ensures forall i :: 0 <= i < |s.history| ==> s.history[i].payload == s.client.enqueued[i]
  {
    ReachableIsGood(actions, s);
  }
}
