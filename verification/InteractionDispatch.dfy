/**
 Interactions that arrive over the Gateway: each is claimed in the duplicate filter before
 it is put on the queue, and dispatched if the claim succeeds. A full queue aborts the
 connection after the claim, and the server replays the event when the session is resumed.
 */
module InteractionDispatch {
  import opened Gateway
  import opened GatewayProtocol
  import opened Interactions

  /** The identifier that an event claims; empty if it is no interaction or has none. */
  function ClaimedId(payload: Payload): string
  {
    if payload.Dispatch? && payload.kind.Interaction? then payload.kind.id else ""
  }

  /** What a step hands to the interaction handlers: the identifiers dispatched so far, in order. */
  ghost function Dispatched(s: System, a: Action, dispatched: seq<string>): seq<string>
    requires Enabled(s, a)
  {
    if a.Receive? then Remember(dispatched, ClaimedId(s.wire[0])) else dispatched
  }

  /** An interaction outside of every session's log. */
  predicate Stray(a: Action)
  {
    a.Control? && ClaimedId(a.payload) != ""
  }

  ghost predicate Runs(actions: seq<Action>, s: System, dispatched: seq<string>)
    decreases |actions|, 1
  {
    if actions == [] then Init(s) && dispatched == []
    else exists before, earlier :: RunsTo(actions, before, earlier, s, dispatched)
  }

  ghost predicate RunsTo(actions: seq<Action>, before: System, earlier: seq<string>, s: System, dispatched: seq<string>)
    requires actions != []
    decreases |actions|, 0
  {
    var last := |actions| - 1;
    && Runs(actions[..last], before, earlier) && Enabled(before, actions[last])
    && s == Apply(before, actions[last]) && dispatched == Dispatched(before, actions[last], earlier)
  }

  /** Over any run whatever, an interaction is dispatched again only after 4096 others. */
  lemma {:induction false} DispatchesAreSpaced(actions: seq<Action>, s: System, dispatched: seq<string>)
    requires Runs(actions, s, dispatched)
    ensures Spaced(dispatched) && Good(s)
  {
    if actions != [] {
      var before, earlier :| RunsTo(actions, before, earlier, s, dispatched);
      DispatchesAreSpaced(actions[..|actions| - 1], before, earlier);
      StepKeepsGood(before, actions[|actions| - 1]);
      if actions[|actions| - 1].Receive? {
        RememberSpaced(earlier, ClaimedId(before.wire[0]));
      }
    }
  }

  // ------------------------------------------------------------- identifiers in the logs

  function IdAt(s: System, session: string, i: int): string
  {
    if session in s.logs && 0 <= i < |s.logs[session]| then ClaimedId(s.logs[session][i]) else ""
  }

  ghost predicate SameId(s: System, session1: string, i1: int, session2: string, i2: int)
  {
    IdAt(s, session1, i1) != "" && IdAt(s, session1, i1) == IdAt(s, session2, i2)
  }

  /** No identifier is given to two interactions. */
  ghost predicate UniqueIds(s: System)
  {
    forall session1, i1, session2, i2 {:trigger SameId(s, session1, i1, session2, i2)} ::
      SameId(s, session1, i1, session2, i2) ==> session1 == session2 && i1 == i2
  }

  /** A dispatched interaction was accepted, or is the session's next event and was the last one dispatched. */
  ghost predicate ClaimOk(s: System, dispatched: seq<string>, session: string, i: int)
  {
    var id, got := IdAt(s, session, i), |Got(s.history, session)|;
    id != "" && id in dispatched ==>
      i < got || (i == got && (session == s.client.session.id ==> dispatched[|dispatched| - 1] == id))
  }

  ghost predicate Claims(s: System, dispatched: seq<string>)
  {
    forall session, i {:trigger ClaimOk(s, dispatched, session, i)} :: ClaimOk(s, dispatched, session, i)
  }

  ghost predicate InLog(s: System, id: string)
  {
    id != "" && exists session, i :: IdAt(s, session, i) == id
  }

  ghost predicate AllInLogs(s: System, dispatched: seq<string>)
  {
    forall k {:trigger dispatched[k]} :: 0 <= k < |dispatched| ==> InLog(s, dispatched[k])
  }

  /** Every interaction on the queue, now or earlier, was dispatched. */
  ghost predicate AllDispatched(s: System, dispatched: seq<string>)
  {
    forall k {:trigger s.history[k]} :: 0 <= k < |s.history| && ClaimedId(s.history[k].payload) != "" ==>
      ClaimedId(s.history[k].payload) in dispatched
  }

  ghost predicate NoStrays(s: System)
  {
    forall k {:trigger s.wire[k]} :: 0 <= k < |s.wire| && ClaimedId(s.wire[k]) != "" ==> Numbered(s.wire[k])
  }

  ghost predicate NoneTwice(dispatched: seq<string>)
  {
    forall i, j :: 0 <= i < j < |dispatched| ==> dispatched[i] != dispatched[j]
  }

  ghost predicate Once(s: System, dispatched: seq<string>)
  {
    && Claims(s, dispatched) && AllInLogs(s, dispatched) && AllDispatched(s, dispatched)
    && NoStrays(s) && NoneTwice(dispatched)
  }

  // -------------------------------------------------------------------------- logs only grow

  lemma LogsGrow(s: System, a: Action, session: string, i: int)
    requires Enabled(s, a) && Logs(s)
    ensures IdAt(s, session, i) != "" ==> IdAt(Apply(s, a), session, i) == IdAt(s, session, i)
    ensures !a.Append? ==> IdAt(Apply(s, a), session, i) == IdAt(s, session, i)
    ensures a.Append? && IdAt(Apply(s, a), session, i) != IdAt(s, session, i) ==>
              session == a.session && session in s.logs && i == |s.logs[session]|
  {
  }

  lemma UniqueBefore(s: System, a: Action)
    requires Enabled(s, a) && Logs(s) && UniqueIds(Apply(s, a))
    ensures UniqueIds(s)
  {
    forall session1, i1, session2, i2 | SameId(s, session1, i1, session2, i2)
      ensures session1 == session2 && i1 == i2
    {
      LogsGrow(s, a, session1, i1);
      LogsGrow(s, a, session2, i2);
      assert SameId(Apply(s, a), session1, i1, session2, i2);
    }
  }

  lemma StayInLogs(s: System, a: Action, dispatched: seq<string>)
    requires Enabled(s, a) && Logs(s) && AllInLogs(s, dispatched)
    ensures AllInLogs(Apply(s, a), dispatched)
  {
    forall k | 0 <= k < |dispatched|
      ensures InLog(Apply(s, a), dispatched[k])
    {
      assert InLog(s, dispatched[k]);
      var session, i :| IdAt(s, session, i) == dispatched[k];
      LogsGrow(s, a, session, i);
    }
  }

  // ------------------------------------------------------------------- steps without a claim

  /** A step that accepts no numbered event and leaves the client in its session, or without one, moves no claim. */
  lemma ClaimsStay(s: System, a: Action, dispatched: seq<string>)
    requires Enabled(s, a) && Logs(s) && Claims(s, dispatched) && AllInLogs(s, dispatched) && UniqueIds(Apply(s, a))
    requires forall session :: Got(Apply(s, a).history, session) == Got(s.history, session)
    requires Apply(s, a).client.session.id == s.client.session.id || Apply(s, a).client.session.id == ""
    ensures Claims(Apply(s, a), dispatched)
  {
    forall session, i
      ensures ClaimOk(Apply(s, a), dispatched, session, i)
    {
      ClaimStays(s, a, dispatched, session, i);
    }
  }

  lemma ClaimStays(s: System, a: Action, dispatched: seq<string>, session: string, i: int)
    requires Enabled(s, a) && Logs(s) && Claims(s, dispatched) && AllInLogs(s, dispatched) && UniqueIds(Apply(s, a))
    requires Got(Apply(s, a).history, session) == Got(s.history, session)
    requires Apply(s, a).client.session.id == s.client.session.id || Apply(s, a).client.session.id == ""
    ensures ClaimOk(Apply(s, a), dispatched, session, i)
  {
    var s' := Apply(s, a);
    var id := IdAt(s', session, i);
    assert ClaimOk(s, dispatched, session, i);
    LogsGrow(s, a, session, i);
    if id != "" && id in dispatched {
      if IdAt(s, session, i) != id {
        var other, j := WhereLogged(s, dispatched, id);
        LogsGrow(s, a, other, j);
        assert SameId(s', session, i, other, j);
      }
      SessionsAreNamed(s, a, session);
    }
  }

  lemma SessionsAreNamed(s: System, a: Action, session: string)
    requires Enabled(s, a) && Logs(s)
    ensures session in s.logs ==> session != ""
  {
    assert session in s.logs ==> LogOk(session, s.logs[session]);
  }

  lemma WhereLogged(s: System, dispatched: seq<string>, id: string) returns (session: string, i: int)
    requires AllInLogs(s, dispatched) && id in dispatched
    ensures IdAt(s, session, i) == id && id != ""
  {
    var k :| 0 <= k < |dispatched| && dispatched[k] == id;
    assert InLog(s, dispatched[k]);
    session, i :| IdAt(s, session, i) == id;
  }

  lemma SilentStep(s: System, a: Action)
    requires Good(s) && Enabled(s, a) && !a.Receive?
    ensures Apply(s, a).history == s.history
    ensures Apply(s, a).client.session.id == s.client.session.id || Apply(s, a).client.session.id == ""
  {
    if a.Break? {
      TurnEffect(s.client, a.incoming, !s.resume);
    }
  }

  lemma WireStep(s: System, a: Action)
    requires Good(s) && Enabled(s, a) && NoStrays(s) && !Stray(a)
    ensures NoStrays(Apply(s, a))
  {
    var s' := Apply(s, a);
    if a.Transmit? {
      var at := s.attached.value;
      assert LogOk(at.session, s.logs[at.session]);
      assert Numbered(s.logs[at.session][at.next]);
    }
    forall k | 0 <= k < |s'.wire| && ClaimedId(s'.wire[k]) != ""
      ensures Numbered(s'.wire[k])
    {
      if a.Receive? {
        assert s'.wire[k] == s.wire[1..][k] == s.wire[k + 1];
      } else if k < |s.wire| {
        assert s'.wire[k] == s.wire[k];
      }
    }
  }

  lemma SilentKeeps(s: System, a: Action, dispatched: seq<string>)
    requires Good(s) && Enabled(s, a) && !a.Receive? && !Stray(a) && Once(s, dispatched) && UniqueIds(Apply(s, a))
    ensures Once(Apply(s, a), dispatched)
  {
    SilentStep(s, a);
    ClaimsStay(s, a, dispatched);
    StayInLogs(s, a, dispatched);
    WireStep(s, a);
  }

  // ----------------------------------------------------------------------------- receiving

  /** What is received is either no interaction, or the session's next event. */
  lemma NextClaim(s: System)
    requires Good(s) && Enabled(s, Receive) && NoStrays(s) && ClaimedId(s.wire[0]) != ""
    ensures Numbered(s.wire[0]) && s.attached.Some?
    ensures var session := s.attached.value.session;
            && session != "" && session == s.client.session.id && s.wire[0].sequence == Some(|Got(s.history, session)| + 1)
            && IdAt(s, session, |Got(s.history, session)|) == ClaimedId(s.wire[0])
  {
    NextOnWire(s);
    var session := s.attached.value.session;
    assert LogOk(session, s.logs[session]);
  }

  lemma RememberLast(dispatched: seq<string>, id: string)
    requires id != "" && (id in dispatched ==> dispatched[|dispatched| - 1] == id)
    ensures Remember(dispatched, id) == if id in dispatched then dispatched else dispatched + [id]
    ensures Remember(dispatched, id) != [] && Remember(dispatched, id)[|Remember(dispatched, id)| - 1] == id
  {
    var recent := Recent(dispatched);
    if id in dispatched {
      assert recent[|recent| - 1] == id;
    } else {
      assert forall k :: 0 <= k < |recent| ==> recent[k] in dispatched;
    }
  }

  /** If the identifier was dispatched before, it was so just now, and the filter still knows it. */
  lemma ClaimDecides(s: System, dispatched: seq<string>)
    requires Good(s) && Enabled(s, Receive) && NoStrays(s) && Claims(s, dispatched) && ClaimedId(s.wire[0]) != ""
    ensures var id, after := ClaimedId(s.wire[0]), Remember(dispatched, ClaimedId(s.wire[0]));
            && after == (if id in dispatched then dispatched else dispatched + [id])
            && after != [] && after[|after| - 1] == id
  {
    NextClaim(s);
    var session := s.attached.value.session;
    assert ClaimOk(s, dispatched, session, |Got(s.history, session)|);
    RememberLast(dispatched, ClaimedId(s.wire[0]));
  }

  /** How a received interaction moves its session `own` on, if it does. */
  ghost predicate Moves(s: System, s': System, own: string, session: string, i: int)
  {
    && own == s.client.session.id != "" && (s'.client.session.id == own || s'.client.session.id == "")
    && IdAt(s', session, i) == IdAt(s, session, i) && (session in s.logs ==> session != "")
    && (|Got(s'.history, session)| == |Got(s.history, session)|
        || (session == own && |Got(s'.history, session)| == |Got(s.history, session)| + 1))
  }

  /** The session's next event was dispatched last, whether it is accepted or aborted. */
  lemma ClaimMoves(s: System, s': System, dispatched: seq<string>, after: seq<string>, own: string, id: string, session: string, i: int)
    requires ClaimOk(s, dispatched, session, i) && Moves(s, s', own, session, i)
    requires IdAt(s, own, |Got(s.history, own)|) == id
    requires IdAt(s, session, i) == id ==> session == own && i == |Got(s.history, own)|
    requires after == (if id in dispatched then dispatched else dispatched + [id]) && after != [] && after[|after| - 1] == id
    requires id in dispatched ==> dispatched[|dispatched| - 1] == id
    ensures ClaimOk(s', after, session, i)
  {
  }

  lemma ClaimedHere(s: System, dispatched: seq<string>, session: string, i: int)
    requires Good(s) && Enabled(s, Receive) && NoStrays(s) && Claims(s, dispatched) && ClaimedId(s.wire[0]) != "" && UniqueIds(s)
    ensures var own, id := s.client.session.id, ClaimedId(s.wire[0]);
            && own != "" && IdAt(s, own, |Got(s.history, own)|) == id
            && (IdAt(s, session, i) == id ==> session == own && i == |Got(s.history, own)|)
            && (id in dispatched ==> dispatched[|dispatched| - 1] == id)
  {
    var own, id := s.client.session.id, ClaimedId(s.wire[0]);
    NextClaim(s);
    assert ClaimOk(s, dispatched, own, |Got(s.history, own)|);
    if IdAt(s, session, i) == id {
      assert SameId(s, session, i, own, |Got(s.history, own)|);
    }
  }

  lemma ReceivedMoves(s: System, session: string, i: int)
    requires Good(s) && Enabled(s, Receive) && NoStrays(s) && ClaimedId(s.wire[0]) != ""
    ensures Moves(s, Apply(s, Receive), s.client.session.id, session, i)
  {
    NextClaim(s);
    LogsGrow(s, Receive, session, i);
    SessionsAreNamed(s, Receive, session);
    ReceivedGot(s, session);
  }

  lemma ClaimedNext(s: System, dispatched: seq<string>, session: string, i: int)
    requires Good(s) && Enabled(s, Receive) && NoStrays(s) && Claims(s, dispatched) && ClaimedId(s.wire[0]) != "" && UniqueIds(s)
    ensures ClaimOk(Apply(s, Receive), Remember(dispatched, ClaimedId(s.wire[0])), session, i)
  {
    ClaimedHere(s, dispatched, session, i);
    RememberLast(dispatched, ClaimedId(s.wire[0]));
    ReceivedMoves(s, session, i);
    assert ClaimOk(s, dispatched, session, i);
    ClaimMoves(s, Apply(s, Receive), dispatched, Remember(dispatched, ClaimedId(s.wire[0])), s.client.session.id,
               ClaimedId(s.wire[0]), session, i);
  }

  /** Receiving an interaction adds it to the history if the connection goes on, and nothing otherwise. */
  lemma ReceivedHistory(s: System)
    requires Good(s) && Enabled(s, Receive) && NoStrays(s) && ClaimedId(s.wire[0]) != ""
    ensures var s' := Apply(s, Receive);
            && (s'.client.session.id == s.client.session.id || s'.client.session.id == "")
            && s'.history == if s'.connected then s.history + [Tagged(s.client.session.id, s.wire[0])] else s.history
  {
    NextClaim(s);
    if Apply(s, Receive).connected {
      AcceptKeeps(s);
    } else {
      TurnEffect(s.client, Read(s.wire[0]), !s.resume);
      assert s.history + [] == s.history;
    }
  }

  lemma ReceivedGot(s: System, session: string)
    requires Good(s) && Enabled(s, Receive) && NoStrays(s) && ClaimedId(s.wire[0]) != ""
    ensures var s' := Apply(s, Receive);
            && (s'.client.session.id == s.client.session.id || s'.client.session.id == "")
            && (|Got(s'.history, session)| == |Got(s.history, session)|
                || (session == s.client.session.id && |Got(s'.history, session)| == |Got(s.history, session)| + 1))
  {
    ReceivedHistory(s);
    GotAppend(s.history, Tagged(s.client.session.id, s.wire[0]), session);
  }

  lemma RememberKeeps(s: System, s': System, dispatched: seq<string>, after: seq<string>, id: string)
    requires Once(s, dispatched) && InLog(s, id) && after == (if id in dispatched then dispatched else dispatched + [id])
    requires s'.history == s.history || exists tagged: Tagged :: ClaimedId(tagged.payload) == id && s'.history == s.history + [tagged]
    ensures NoneTwice(after) && AllInLogs(s, after) && AllDispatched(s', after)
  {
    forall k | 0 <= k < |s'.history| && ClaimedId(s'.history[k].payload) != ""
      ensures ClaimedId(s'.history[k].payload) in after
    {
      assert k < |s.history| ==> s'.history[k] == s.history[k];
    }
  }

  lemma ClaimedKeeps(s: System, dispatched: seq<string>)
    requires Good(s) && Enabled(s, Receive) && Once(s, dispatched) && ClaimedId(s.wire[0]) != "" && UniqueIds(Apply(s, Receive))
    ensures Once(Apply(s, Receive), Remember(dispatched, ClaimedId(s.wire[0])))
  {
    var after := Remember(dispatched, ClaimedId(s.wire[0]));
    UniqueBefore(s, Receive);
    forall session, i
      ensures ClaimOk(Apply(s, Receive), after, session, i)
    {
      ClaimedNext(s, dispatched, session, i);
    }
    NextClaim(s);
    ClaimDecides(s, dispatched);
    ReceivedHistory(s);
    assert ClaimedId(Tagged(s.client.session.id, s.wire[0]).payload) == ClaimedId(s.wire[0]);
    RememberKeeps(s, Apply(s, Receive), dispatched, after, ClaimedId(s.wire[0]));
    StayInLogs(s, Receive, after);
    WireStep(s, Receive);
  }

  lemma OtherReceived(s: System, dispatched: seq<string>)
    requires Good(s) && Enabled(s, Receive) && NoStrays(s) && ClaimedId(s.wire[0]) == ""
    ensures Remember(dispatched, ClaimedId(s.wire[0])) == dispatched
    ensures AllDispatched(s, dispatched) ==> AllDispatched(Apply(s, Receive), dispatched)
  {
    TurnEffect(s.client, Read(s.wire[0]), !s.resume);
    var s' := Apply(s, Receive);
    forall k | 0 <= k < |s'.history| && ClaimedId(s'.history[k].payload) != ""
      ensures k < |s.history| && s'.history[k] == s.history[k]
    {
    }
  }

  lemma OtherClaimMoves(s: System, s': System, dispatched: seq<string>, moved: string, session: string, i: int)
    requires ClaimOk(s, dispatched, session, i) && IdAt(s', session, i) == IdAt(s, session, i)
    requires (session in s.logs ==> session != "") && IdAt(s, moved, |Got(s.history, moved)|) == ""
    requires |Got(s'.history, session)| == |Got(s.history, session)|
             || (session == moved && |Got(s'.history, session)| == |Got(s.history, session)| + 1)
    requires s'.client.session.id == s.client.session.id || s'.client.session.id == "" || s'.client.session.id == moved
    ensures ClaimOk(s', dispatched, session, i)
  {
  }

  /** Receiving something else moves at most one session, past an event that is no interaction. */
  lemma OtherMoves(s: System) returns (moved: string)
    requires Good(s) && Enabled(s, Receive) && NoStrays(s) && ClaimedId(s.wire[0]) == ""
    ensures IdAt(s, moved, |Got(s.history, moved)|) == ""
    ensures var s' := Apply(s, Receive);
            && (s'.client.session.id == s.client.session.id || s'.client.session.id == "" || s'.client.session.id == moved)
            && forall session :: |Got(s'.history, session)| == |Got(s.history, session)|
                                 || (session == moved && |Got(s'.history, session)| == |Got(s.history, session)| + 1)
  {
    moved := "";
    SessionsAreNamed(s, Receive, "");
    NextOnWire(s);
    var s' := Apply(s, Receive);
    if !s'.connected {
      moved := OtherAborts(s);
    } else if Numbered(s.wire[0]) {
      AcceptKeeps(s);
      moved := s.attached.value.session;
      forall session
        ensures |Got(s'.history, session)| == |Got(s.history, session)| + if session == moved then 1 else 0
      {
        GotAppend(s.history, Tagged(moved, s.wire[0]), session);
      }
    } else {
      UnnumberedMovesNothing(s);
    }
  }

  lemma OtherAborts(s: System) returns (moved: string)
    requires Good(s) && Enabled(s, Receive) && ClaimedId(s.wire[0]) == "" && !Apply(s, Receive).connected
    ensures IdAt(s, moved, |Got(s.history, moved)|) == ""
    ensures var s' := Apply(s, Receive);
            && s'.history == s.history
            && (s'.client.session.id == s.client.session.id || s'.client.session.id == "" || s'.client.session.id == moved)
  {
    SessionsAreNamed(s, Receive, "");
    NextOnWire(s);
    TurnEffect(s.client, Read(s.wire[0]), !s.resume);
    assert s.history + [] == s.history;
    moved := "";
    if Numbered(s.wire[0]) && s.wire[0].kind.Ready? {
      moved := s.attached.value.session;
      assert LogOk(moved, s.logs[moved]);
    }
  }

  lemma OtherKeeps(s: System, dispatched: seq<string>)
    requires Good(s) && Enabled(s, Receive) && Once(s, dispatched) && ClaimedId(s.wire[0]) == ""
    ensures Once(Apply(s, Receive), dispatched)
  {
    OtherReceived(s, dispatched);
    var moved := OtherMoves(s);
    forall session, i
      ensures ClaimOk(Apply(s, Receive), dispatched, session, i)
    {
      assert ClaimOk(s, dispatched, session, i);
      LogsGrow(s, Receive, session, i);
      SessionsAreNamed(s, Receive, session);
      OtherClaimMoves(s, Apply(s, Receive), dispatched, moved, session, i);
    }
    StayInLogs(s, Receive, dispatched);
    WireStep(s, Receive);
  }

  // ------------------------------------------------------------------------------- runs

  ghost predicate NoStrayActions(actions: seq<Action>)
  {
    forall i {:trigger actions[i]} :: 0 <= i < |actions| ==> !Stray(actions[i])
  }

  lemma {:induction false} RunsOnce(actions: seq<Action>, s: System, dispatched: seq<string>)
    requires Runs(actions, s, dispatched) && NoStrayActions(actions) && UniqueIds(s)
    ensures Good(s) && Once(s, dispatched)
  {
    DispatchesAreSpaced(actions, s, dispatched);
    if actions != [] {
      var last := |actions| - 1;
      var before, earlier :| RunsTo(actions, before, earlier, s, dispatched);
      var a := actions[last];
      DispatchesAreSpaced(actions[..last], before, earlier);
      UniqueBefore(before, a);
      RunsOnce(actions[..last], before, earlier);
      if !a.Receive? {
        SilentKeeps(before, a, earlier);
      } else if ClaimedId(before.wire[0]) != "" {
        ClaimedKeeps(before, earlier);
      } else {
        OtherReceived(before, earlier);
        OtherKeeps(before, earlier);
      }
    }
  }

  /**
   If Discord gives every interaction its own identifier and sends interactions as events of
   a session, then over any run, with broken connections, replays and full queues anywhere,
   no interaction is dispatched twice, and every one that was ever put on the queue was
   dispatched; one that was dispatched but never accepted is its session's next event.
   */
  lemma DispatchedOnce(actions: seq<Action>, s: System, dispatched: seq<string>)
    requires Runs(actions, s, dispatched) && NoStrayActions(actions) && UniqueIds(s)
    ensures NoneTwice(dispatched)
    ensures forall k {:trigger s.history[k]} :: 0 <= k < |s.history| && ClaimedId(s.history[k].payload) != "" ==>
              ClaimedId(s.history[k].payload) in dispatched
    ensures forall k {:trigger dispatched[k]} :: 0 <= k < |dispatched| ==> Accounted(s, dispatched[k])
  {
    RunsOnce(actions, s, dispatched);
    forall k | 0 <= k < |dispatched|
      ensures Accounted(s, dispatched[k])
    {
      ClaimedAt(s, dispatched, dispatched[k]);
    }
  }

  lemma ClaimedAt(s: System, dispatched: seq<string>, id: string)
    requires Once(s, dispatched) && id in dispatched
    ensures Accounted(s, id)
  {
    var session, i := WhereLogged(s, dispatched, id);
    assert ClaimOk(s, dispatched, session, i);
    assert AtMostNext(s, id, session, i);
  }

  /** The identifier is that of an accepted event of the session, or of the next one. */
  predicate AtMostNext(s: System, id: string, session: string, i: int)
  {
    IdAt(s, session, i) == id && i <= |Got(s.history, session)|
  }

  ghost predicate Accounted(s: System, id: string)
  {
    exists session, i :: AtMostNext(s, id, session, i)
  }
}
