/**
 The client side of the Discord Gateway: one connection's read loop and the reconnect loop
 around it. Sockets, JSON and timers are replaced by the values they produce.
 */
module Gateway {
  datatype Option<T> = None | Some(value: T)

  const QUEUE_SIZE := 128

  /** The fields of a Ready event that acceptReady insists on. */
  datatype ReadyData = ReadyData(sessionId: string, resumeUrl: string, applicationId: string, userId: string)

  /** `Ready(None)` is a Ready event whose data does not decode. */
  datatype Kind = Ready(data: Option<ReadyData>) | Resumed | Interaction(id: string) | OtherEvent(name: string)

  datatype Payload =
    | Dispatch(kind: Kind, sequence: Option<int>)
    | Heartbeat(written: bool)                 // the server asks for one; `written` is whether it could be sent
    | HeartbeatAck
    | Reconnect
    | InvalidSession(canResume: bool)
    | Ignored                                  // an operation the client has no case for

  /** What one turn of the read loop meets. */
  datatype Incoming =
    | Read(payload: Payload)
    | ReadError                                // a broken connection or undecodable message
    | CloseFrame(code: int)
    | HeartbeatFailed
    | Cancelled

  datatype Session = Session(id: string, resumeUrl: string, sequence: int, hasSeq: bool, established: bool)

  datatype Result = Result(resume: bool, fatal: bool, immediate: bool, identified: bool, delayed: bool)

  /** Events accepted by one connection go to a bounded queue; `enqueued` remembers them all. */
  datatype Client = Client(session: Session, queue: seq<Payload>, enqueued: seq<Payload>)

  const NoSession := Session("", "", 0, false, false)

  function Ends(resume: bool, identified: bool): Result
  {
    Result(resume, false, false, identified, false)
  }

  function Fatal(identified: bool): Result
  {
    Result(false, true, false, identified, false)
  }

  // ----------------------------------------------------------------- one payload

  predicate ValidReady(data: Option<ReadyData>)
  {
    data.Some? && data.value.sessionId != "" && data.value.resumeUrl != "" && data.value.applicationId != "" && data.value.userId != ""
  }

  /** acceptReady and the established flag: what a dispatch changes before it is enqueued. */
  function Accepted(session: Session, kind: Kind): Session
  {
    match kind
    case Ready(data) =>
      if ValidReady(data) then session.(id := data.value.sessionId, resumeUrl := data.value.resumeUrl, established := true)
      else session
    case Resumed => session.(established := true)
    case _ => session
  }

  /** The sequence is stored only once the event is in the queue. */
  function Enqueued(session: Session, sequence: Option<int>): Session
  {
    if sequence.Some? then session.(sequence := sequence.value, hasSeq := true) else session
  }

  function Handle(client: Client, payload: Payload, identified: bool): (Client, Option<Result>)
  {
    match payload
    case Dispatch(kind, sequence) =>
      if kind.Ready? && !ValidReady(kind.data) then (client, Some(Fatal(identified)))
      else
        var session := Accepted(client.session, kind);
        if |client.queue| < QUEUE_SIZE then
          (Client(Enqueued(session, sequence), client.queue + [payload], client.enqueued + [payload]), None)
        else
          (client.(session := session),
           Some(Result(session.id != "", false, kind.Interaction?, identified, false)))
    case Heartbeat(written) =>
      if written then (client, None) else (client, Some(Ends(client.session.id != "", identified)))
    case HeartbeatAck => (client, None)
    case Reconnect => (client, Some(Result(true, false, true, identified, false)))
    case InvalidSession(canResume) => (client, Some(Result(canResume, false, false, identified, true)))
    case Ignored => (client, None)
  }

  predicate FatalClose(code: int)
  {
    code == 4004 || 4010 <= code <= 4014
  }

  predicate ForgetfulClose(code: int)
  {
    code == 4003 || code == 4005 || code == 4007 || code == 4009
  }

  /** gatewayReadResult */
  function ReadResult(incoming: Incoming, resumable: bool, identified: bool): Result
  {
    match incoming
    case Cancelled => Fatal(identified)
    case CloseFrame(code) =>
      if FatalClose(code) then Fatal(identified)
      else Ends(if ForgetfulClose(code) then false else resumable, identified)
    case _ => Ends(resumable, identified)
  }

  /** One turn of the read loop. */
  function Turn(client: Client, incoming: Incoming, identified: bool): (Client, Option<Result>)
  {
    if incoming.Read? then Handle(client, incoming.payload, identified)
    else (client, Some(ReadResult(incoming, client.session.id != "", identified)))
  }

  // -------------------------------------------------------------- one connection

  /** Before the turn the dispatcher may have taken `taken` events off the queue. */
  datatype Input = Input(taken: nat, incoming: Incoming)

  function Drain(client: Client, taken: nat): Client
  {
    client.(queue := client.queue[if taken < |client.queue| then taken else |client.queue|..])
  }

  /** The read loop; a script that runs out is a client that is stopped while it reads. */
  function ReadLoop(client: Client, script: seq<Input>, identified: bool): (Client, Result)
    decreases |script|
  {
    if script == [] then (client, Fatal(identified))
    else
      var (next, result) := Turn(Drain(client, script[0].taken), script[0].incoming, identified);
      if result.Some? then (next, result.value) else ReadLoop(next, script[1..], identified)
  }

  /** How far opening a connection got before RESUME or IDENTIFY was on the wire. */
  datatype Opening =
    | DialFailed
    | DialCancelled
    | HelloFailed(incoming: Incoming)
    | HelloReconnect
    | HelloInvalid
    | SendFailed
    | Opened

  function OpenResult(opening: Opening, resume: bool): Result
  {
    match opening
    case DialFailed => Ends(resume, false)
    case DialCancelled => Fatal(false)
    case HelloFailed(incoming) => ReadResult(incoming, resume, false)
    case HelloReconnect => Result(true, false, true, false, false)
    case HelloInvalid => Fatal(false)
    case SendFailed => Ends(resume, false)
    case Opened => Ends(resume, false)
  }

  /** runGatewaySession */
  function RunSession(client: Client, opening: Opening, script: seq<Input>, resume: bool): (Client, Result)
  {
    var started := client.(session := client.session.(established := false));
    if opening != Opened then (started, OpenResult(opening, resume))
    else ReadLoop(started, script, !resume)
  }

  // ----------------------------------------------------------- the reconnect loop

  /** Run's decision after a connection: resume only a named session with a stored sequence. */
  function Resumes(session: Session, result: Result): bool
  {
    result.resume && session.id != "" && session.hasSeq
  }

  function Settled(session: Session, result: Result): Session
  {
    if Resumes(session, result) then session else session.(id := "", resumeUrl := "", hasSeq := false)
  }

  /** `refreshed` is the identify allowance if its window has passed and it was fetched again. */
  datatype Connection = Connection(refreshed: Option<int>, opening: Opening, script: seq<Input>)

  datatype Sent = Resume(id: string, sequence: int) | Identify

  datatype Loop = Loop(client: Client, resume: bool, remaining: int, backoff: nat, sent: seq<Sent>, stopped: bool)

  function Allowance(loop: Loop, connection: Connection): int
  {
    if !loop.resume && connection.refreshed.Some? then connection.refreshed.value else loop.remaining
  }

  function Greeting(loop: Loop): Sent
  {
    if loop.resume then Resume(loop.client.session.id, loop.client.session.sequence) else Identify
  }

  /** One iteration of Run. */
  function Iterate(loop: Loop, connection: Connection): Loop
  {
    var allowed := Allowance(loop, connection);
    if !loop.resume && allowed <= 0 then loop.(remaining := allowed, stopped := true)
    else
      var (client, result) := RunSession(loop.client, connection.opening, connection.script, loop.resume);
      var sent := loop.sent + if connection.opening == Opened then [Greeting(loop)] else [];
      var left := if result.identified then allowed - 1 else allowed;
      if result.fatal then loop.(client := client, remaining := left, sent := sent, stopped := true)
      else
        var base := if client.session.established then 1 else loop.backoff;
        Loop(client.(session := Settled(client.session, result)), Resumes(client.session, result), left,
             if result.immediate || result.delayed || base >= 30 then base else 2 * base, sent, false)
  }

  function RunFrom(loop: Loop, connections: seq<Connection>): Loop
    decreases |connections|
  {
    if connections == [] || loop.stopped then loop else RunFrom(Iterate(loop, connections[0]), connections[1..])
  }

  // ------------------------------------------------------- the loop's own promises

  predicate LoopOk(loop: Loop)
  {
    && |loop.client.queue| <= QUEUE_SIZE
    && (!loop.stopped ==> (loop.resume <==> loop.client.session.id != "") && (loop.resume <==> loop.client.session.hasSeq))
    && (loop.backoff == 1 || loop.backoff == 2 || loop.backoff == 4 || loop.backoff == 8 || loop.backoff == 16 || loop.backoff == 32)
    && (forall i :: 0 <= i < |loop.sent| && loop.sent[i].Resume? ==> loop.sent[i].id != "")
  }

  lemma {:induction false} ReadLoopKeepsQueue(client: Client, script: seq<Input>, identified: bool)
    requires |client.queue| <= QUEUE_SIZE
    ensures |ReadLoop(client, script, identified).0.queue| <= QUEUE_SIZE
    ensures ReadLoop(client, script, identified).1.identified == identified
    decreases |script|
  {
    if script != [] {
      var (next, result) := Turn(Drain(client, script[0].taken), script[0].incoming, identified);
      if result.None? {
        ReadLoopKeepsQueue(next, script[1..], identified);
      }
    }
  }

  lemma IterateKeeps(loop: Loop, connection: Connection)
    requires LoopOk(loop) && !loop.stopped
    ensures LoopOk(Iterate(loop, connection))
  {
    ReadLoopKeepsQueue(loop.client.(session := loop.client.session.(established := false)), connection.script, !loop.resume);
  }

  function Identifies(sent: seq<Sent>): nat
  {
    if sent == [] then 0 else Identifies(sent[..|sent| - 1]) + if sent[|sent| - 1].Identify? then 1 else 0
  }

  lemma SessionIdentifies(client: Client, opening: Opening, script: seq<Input>, resume: bool)
    requires |client.queue| <= QUEUE_SIZE
    ensures RunSession(client, opening, script, resume).1.identified <==> opening == Opened && !resume
  {
    ReadLoopKeepsQueue(client.(session := client.session.(established := false)), script, !resume);
  }

  lemma SentExtends(sent: seq<Sent>, greeting: Sent)
    ensures Identifies(sent + [greeting]) == Identifies(sent) + if greeting.Identify? then 1 else 0
    ensures sent + [] == sent
  {
    assert (sent + [greeting])[..|sent|] == sent;
  }

  lemma IterateSpends(loop: Loop, connection: Connection)
    requires |loop.client.queue| <= QUEUE_SIZE && connection.refreshed.None?
    ensures Iterate(loop, connection).remaining + Identifies(Iterate(loop, connection).sent) == loop.remaining + Identifies(loop.sent)
    ensures loop.remaining >= 0 ==> Iterate(loop, connection).remaining >= 0
  {
    SessionIdentifies(loop.client, connection.opening, connection.script, loop.resume);
    SentExtends(loop.sent, Greeting(loop));
  }

  /**
   Over any number of connections RESUME is sent only for a named session, the queue stays
   bounded, and while the allowance is not refreshed the client identifies at most that often.
   */
  lemma {:induction false} RunKeepsPromises(loop: Loop, connections: seq<Connection>)
    requires LoopOk(loop)
    ensures LoopOk(RunFrom(loop, connections))
    ensures loop.remaining >= 0 && (forall c :: c in connections ==> c.refreshed.None?) ==>
              Identifies(RunFrom(loop, connections).sent) <= Identifies(loop.sent) + loop.remaining
              && RunFrom(loop, connections).remaining >= 0
    decreases |connections|
  {
    if connections != [] && !loop.stopped {
      IterateKeeps(loop, connections[0]);
      RunKeepsPromises(Iterate(loop, connections[0]), connections[1..]);
      if connections[0].refreshed.None? {
        IterateSpends(loop, connections[0]);
      }
    }
  }

  // -------------------------------------------------------------------- the class

  class GatewayClient {
    var id: string
    var resumeUrl: string
    var sequence: int
    var hasSeq: bool
    var established: bool
    var queue: seq<Payload>
    ghost var enqueued: seq<Payload>

    function SessionState(): Session
      reads this
    {
      Session(id, resumeUrl, sequence, hasSeq, established)
    }

    ghost function State(): Client
      reads this
    {
      Client(SessionState(), queue, enqueued)
    }

    constructor ()
      ensures State() == Client(NoSession, [], [])
    {
      id, resumeUrl, sequence, hasSeq, established := "", "", 0, false, false;
      queue, enqueued := [], [];
    }

    method AcceptReady(data: Option<ReadyData>) returns (ok: bool)
      modifies this`id, this`resumeUrl
      ensures ok == ValidReady(data)
      ensures id == if ok then data.value.sessionId else old(id)
      ensures resumeUrl == if ok then data.value.resumeUrl else old(resumeUrl)
    {
      if data.None? || data.value.sessionId == "" || data.value.resumeUrl == "" || data.value.applicationId == "" || data.value.userId == "" {
        return false;
      }
      id, resumeUrl := data.value.sessionId, data.value.resumeUrl;
      return true;
    }

    method HandlePayload(payload: Payload, identified: bool) returns (result: Option<Result>)
      modifies this
      ensures (State(), result) == Handle(old(State()), payload, identified)
    {
      match payload {
        case Dispatch(kind, number) =>
          if kind.Ready? {
            var ok := AcceptReady(kind.data);
            if !ok {
              return Some(Fatal(identified));
            }
          }
          if kind.Ready? || kind.Resumed? {
            established := true;
          }
          if |queue| < QUEUE_SIZE {
            queue := queue + [payload];
            enqueued := enqueued + [payload];
            if number.Some? {
              sequence := number.value;
              hasSeq := true;
            }
            return None;
          }
          return Some(Result(id != "", false, kind.Interaction?, identified, false));
        case Heartbeat(written) =>
          return if written then None else Some(Ends(id != "", identified));
        case HeartbeatAck =>
          return None;
        case Reconnect =>
          return Some(Result(true, false, true, identified, false));
        case InvalidSession(canResume) =>
          return Some(Result(canResume, false, false, identified, true));
        case Ignored =>
          return None;
      }
    }

    /** The read loop of runGatewaySession. */
    method ReadAll(script: seq<Input>, identified: bool) returns (result: Result)
      modifies this
      ensures (State(), result) == ReadLoop(old(State()), script, identified)
    {
      var i := 0;
      while i < |script|
        invariant 0 <= i <= |script|
        invariant ReadLoop(State(), script[i..], identified) == ReadLoop(old(State()), script, identified)
      {
        ghost var rest := script[i..];
        assert rest[0] == script[i] && rest[1..] == script[i + 1..];
        queue := queue[if script[i].taken < |queue| then script[i].taken else |queue|..];
        if !script[i].incoming.Read? {
          return ReadResult(script[i].incoming, id != "", identified);
        }
        var stop := HandlePayload(script[i].incoming.payload, identified);
        if stop.Some? {
          return stop.value;
        }
        i := i + 1;
      }
      return Fatal(identified);
    }

    method RunOne(opening: Opening, script: seq<Input>, resume: bool) returns (result: Result)
      modifies this
      ensures (State(), result) == RunSession(old(State()), opening, script, resume)
    {
      established := false;
      if opening != Opened {
        return OpenResult(opening, resume);
      }
      result := ReadAll(script, !resume);
    }

    /** One iteration of Run's loop, with its local variables. */
    method Iteration(connection: Connection, resume: bool, remaining: int, backoff: nat, sent: seq<Sent>)
      returns (resume': bool, remaining': int, backoff': nat, sent': seq<Sent>, stopped: bool)
      modifies this
      ensures Loop(State(), resume', remaining', backoff', sent', stopped)
              == Iterate(Loop(old(State()), resume, remaining, backoff, sent, false), connection)
    {
      resume', remaining', backoff', sent', stopped := resume, remaining, backoff, sent, false;
      if !resume && connection.refreshed.Some? {
        remaining' := connection.refreshed.value;
      }
      if !resume && remaining' <= 0 {
        stopped := true;
        return;
      }
      if connection.opening == Opened {
        sent' := sent + [if resume then Resume(id, sequence) else Identify];
      }
      var result := RunOne(connection.opening, connection.script, resume);
      if result.identified {
        remaining' := remaining' - 1;
      }
      if result.fatal {
        stopped := true;
        return;
      }
      resume' := result.resume && id != "" && hasSeq;
      if !resume' {
        id, resumeUrl, hasSeq := "", "", false;
      }
      if established {
        backoff' := 1;
      }
      if !result.immediate && !result.delayed && backoff' < 30 {
        backoff' := 2 * backoff';
      }
    }

    /** Run, from the first connection on. */
    method Run(connections: seq<Connection>, allowance: int) returns (sent: seq<Sent>, stopped: bool)
      requires State() == Client(NoSession, [], [])
      modifies this
      ensures var final := RunFrom(Loop(old(State()), false, allowance, 1, [], false), connections);
              sent == final.sent && stopped == final.stopped && State() == final.client
    {
      var resume, remaining, backoff: nat := false, allowance, 1;
      sent, stopped := [], false;
      ghost var first := Loop(State(), false, allowance, 1, [], false);
      var i := 0;
      while i < |connections| && !stopped
        invariant 0 <= i <= |connections|
        invariant RunFrom(Loop(State(), resume, remaining, backoff, sent, stopped), connections[i..]) == RunFrom(first, connections)
      {
        assert connections[i..][0] == connections[i] && connections[i..][1..] == connections[i + 1..];
        resume, remaining, backoff, sent, stopped := Iteration(connections[i], resume, remaining, backoff, sent);
        i := i + 1;
      }
    }
  }
}
