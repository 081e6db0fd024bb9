/**
 The client comes back: after a broken connection it resumes where it was, and the events
 that follow in the session's log reach it.
 */
module GatewayProgress {
  import opened Gateway
  import opened GatewayProtocol
  import opened GatewayEndings

  /**
   A connection that breaks stops the client only if the end is hopeless. Otherwise the
   client resumes exactly when it has accepted an event of its session and the end did not
   give the session up; then name and sequence are kept.
   */
  lemma BreakResumes(actions: seq<Action>, s: System, incoming: Incoming)
    requires Reaches(actions, s) && Enabled(s, Break(incoming))
    ensures var s' := Apply(s, Break(incoming));
            && !s'.connected && (s'.stopped <==> Hopeless(incoming))
            && (!s'.stopped ==> (s'.resume <==> s.client.session.hasSeq && !Forgets(incoming)))
            && (s'.resume ==> s'.client.session.id == s.client.session.id && s'.client.session.sequence == s.client.session.sequence)
  {
    ReachableIsGood(actions, s);
    TurnEnds(s.client, incoming, !s.resume);
  }

  lemma ReadErrorResumes(actions: seq<Action>, s: System)
    requires Reaches(actions, s) && s.connected && s.client.session.hasSeq
    ensures var s' := Apply(s, Break(ReadError));
            && s'.resume && !s'.stopped && s'.client.session.id == s.client.session.id
            && s'.client.session.sequence == s.client.session.sequence
            && forall id, ready :: Enabled(s', Connect(true, id, ready))
  {
    BreakResumes(actions, s, ReadError);
  }

  lemma Extended(actions: seq<Action>, s: System, a: Action) returns (more: seq<Action>)
    requires Reaches(actions, s) && Enabled(s, a)
    ensures more == actions + [a] && Reaches(more, Apply(s, a))
  {
    more := actions + [a];
    assert more[..|actions|] == actions;
    assert StepsTo(more, s, Apply(s, a));
  }

  /** Connecting to resume, the server sends from the stored sequence on. */
  lemma ResumeAttaches(actions: seq<Action>, s: System, id: string, ready: ReadyData)
    requires Reaches(actions, s) && !s.connected && !s.stopped && s.resume
    ensures Enabled(s, Connect(true, id, ready))
    ensures var s', session := Apply(s, Connect(true, id, ready)), s.client.session;
            && s'.connected && s'.wire == [] && s'.logs == s.logs && s'.history == s.history
            && s'.client.queue == s.client.queue && s'.client.session.id == session.id && s'.resume
            && session.sequence > 0 && s'.attached == Some(Attached(session.id, session.sequence))
  {
    ResumeIsSound(actions, s);
  }

  /** A numbered event other than Ready is accepted if there is room for it. */
  lemma NumberedArrives(s: System)
    requires Good(s) && Enabled(s, Receive) && Numbered(s.wire[0]) && !s.wire[0].kind.Ready? && |s.client.queue| < QUEUE_SIZE
    ensures Apply(s, Receive).connected && Apply(s, Receive).client.queue == s.client.queue + [s.wire[0]]
  {
    TurnEnds(s.client, Read(s.wire[0]), !s.resume);
    TurnEffect(s.client, Read(s.wire[0]), !s.resume);
  }

  /** The server can send the next event of the log to a client that waits for it. */
  ghost predicate Awaits(s: System)
  {
    && s.connected && s.wire == [] && |s.client.queue| < QUEUE_SIZE
    && s.attached.Some? && s.client.session.id == s.attached.value.session && s.attached.value.session in s.logs
    && s.attached.value.next == |Got(s.history, s.attached.value.session)|
    && 0 < s.attached.value.next < |s.logs[s.attached.value.session]|
  }

  lemma NextIsSent(actions: seq<Action>, s: System)
    requires Reaches(actions, s) && Awaits(s)
    ensures Enabled(s, Transmit)
    ensures var at, sent := s.attached.value, Apply(s, Transmit);
            && sent == s.(wire := [s.logs[at.session][at.next]], attached := Some(Attached(at.session, at.next + 1)))
            && Good(sent) && Enabled(sent, Receive) && Numbered(sent.wire[0]) && !sent.wire[0].kind.Ready?
            && Got(s.history, at.session) == s.logs[at.session][..at.next]
  {
    ReachableIsGood(actions, s);
    StepKeepsGood(s, Transmit);
    var at := s.attached.value;
    assert LogOk(at.session, s.logs[at.session]) && IsPrefix(s, at.session);
  }

  /** The next event of the log, sent and received, is accepted. */
  lemma NextArrives(actions: seq<Action>, s: System)
    requires Reaches(actions, s) && Awaits(s)
    ensures Enabled(s, Transmit) && Enabled(Apply(s, Transmit), Receive)
    ensures var at, s' := s.attached.value, Apply(Apply(s, Transmit), Receive);
            && s'.connected && Got(s'.history, at.session) == s.logs[at.session][..at.next + 1]
            && s'.client.session.sequence == at.next + 1 && s'.client.queue == s.client.queue + [s.logs[at.session][at.next]]
  {
    var at, sent := s.attached.value, Apply(s, Transmit);
    NextIsSent(actions, s);
    NumberedArrives(sent);
    AcceptKeeps(sent);
    GotAppend(sent.history, Tagged(at.session, sent.wire[0]), at.session);
    assert s.logs[at.session][..at.next] + [s.logs[at.session][at.next]] == s.logs[at.session][..at.next + 1];
  }

  /**
   After any break that is neither hopeless nor gives the session up, three steps bring the
   client the event after the last one it accepted: it connects, the server sends, it receives.
   */
  lemma ComesBack(actions: seq<Action>, s: System, incoming: Incoming, id: string, ready: ReadyData)
    requires Reaches(actions, s) && Enabled(s, Break(incoming)) && !Hopeless(incoming) && !Forgets(incoming)
    requires s.client.session.hasSeq && |s.client.queue| < QUEUE_SIZE && s.client.session.id in s.logs
    requires s.client.session.sequence < |s.logs[s.client.session.id]|
    ensures var s1 := Apply(s, Break(incoming));
            && Enabled(s1, Connect(true, id, ready))
            && var s2 := Apply(s1, Connect(true, id, ready));
               && Enabled(s2, Transmit) && Enabled(Apply(s2, Transmit), Receive)
               && var s3, session := Apply(Apply(s2, Transmit), Receive), s.client.session;
                  && session.sequence > 0 && Got(s3.history, session.id) == s.logs[session.id][..session.sequence + 1]
                  && s3.client.session.sequence == session.sequence + 1
  {
    BreakResumes(actions, s, incoming);
    BreakKeeps(actions, s, incoming);
    var s1 := Apply(s, Break(incoming));
    var more := Extended(actions, s, Break(incoming));
    ResumeAttaches(more, s1, id, ready);
    var s2 := Apply(s1, Connect(true, id, ready));
    more := Extended(more, s1, Connect(true, id, ready));
    ReachableIsGood(actions, s);
    NextArrives(more, s2);
  }

  lemma BreakKeeps(actions: seq<Action>, s: System, incoming: Incoming)
    requires Reaches(actions, s) && Enabled(s, Break(incoming))
    ensures var s' := Apply(s, Break(incoming));
            s'.logs == s.logs && s'.history == s.history && s'.client.queue == s.client.queue
  {
    ReachableIsGood(actions, s);
    TurnEffect(s.client, incoming, !s.resume);
    assert s.history + [] == s.history;
  }
}
