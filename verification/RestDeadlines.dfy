/**
 When a request may be sent, bucket by bucket: what a request waits for is exactly what its
 bucket and the whole client had been told when it won its lock.
 */
module RestDeadlines {
  import opened RestLimits
  import opened RestProtocol

  function PushOf(event: Event, b: Id): Time
  {
    if event.Pushed? && event.b == b then event.deadline else 0
  }

  /** The latest deadline that was pushed to a bucket. */
  function Latest(trace: seq<Event>, b: Id): Time
    decreases |trace|
  {
    if trace == [] then 0 else Max(Latest(trace[..|trace| - 1], b), PushOf(trace[|trace| - 1], b))
  }

  function GlobalOf(event: Event): Time
  {
    if event.GlobalLimit? then event.deadline else 0
  }

  function LatestGlobal(trace: seq<Event>): Time
    decreases |trace|
  {
    if trace == [] then 0 else Max(LatestGlobal(trace[..|trace| - 1]), GlobalOf(trace[|trace| - 1]))
  }

  ghost predicate PushedAt(trace: seq<Event>, i: nat, b: Id, deadline: Time)
  {
    i < |trace| && trace[i] == Pushed(b, deadline)
  }

  lemma {:induction false} LatestIsLatest(trace: seq<Event>, b: Id)
    ensures forall i, d: Time {:trigger PushedAt(trace, i, b, d)} :: PushedAt(trace, i, b, d) ==> d <= Latest(trace, b)
    ensures Latest(trace, b) == 0 || exists i :: PushedAt(trace, i, b, Latest(trace, b))
    decreases |trace|
  {
    if trace != [] {
      var init, last := trace[..|trace| - 1], |trace| - 1;
      LatestIsLatest(init, b);
      forall i: nat, d: Time | PushedAt(trace, i, b, d)
        ensures d <= Latest(trace, b)
      {
        assert i < last ==> PushedAt(init, i, b, d);
      }
      if Latest(trace, b) != 0 && PushOf(trace[last], b) != Latest(trace, b) {
        var i :| PushedAt(init, i, b, Latest(trace, b));
        assert PushedAt(trace, i, b, Latest(trace, b));
      } else if Latest(trace, b) != 0 {
        assert PushedAt(trace, last, b, Latest(trace, b));
      }
    }
  }

  lemma {:induction false} LatestGlobalIsLatest(trace: seq<Event>)
    ensures forall i, d: Time {:trigger GlobalAt(trace, i, d)} :: GlobalAt(trace, i, d) ==> d <= LatestGlobal(trace)
    ensures LatestGlobal(trace) == 0 || exists i :: GlobalAt(trace, i, LatestGlobal(trace))
    decreases |trace|
  {
    if trace != [] {
      var init, last := trace[..|trace| - 1], |trace| - 1;
      LatestGlobalIsLatest(init);
      forall i: nat, d: Time | GlobalAt(trace, i, d)
        ensures d <= LatestGlobal(trace)
      {
        assert i < last ==> GlobalAt(init, i, d);
      }
      if LatestGlobal(trace) != 0 && GlobalOf(trace[last]) != LatestGlobal(trace) {
        var i :| GlobalAt(init, i, LatestGlobal(trace));
        assert GlobalAt(trace, i, LatestGlobal(trace));
      } else if LatestGlobal(trace) != 0 {
        assert GlobalAt(trace, last, LatestGlobal(trace));
      }
    }
  }

  // ------------------------------------------------------------------ what buckets remember

  /** Every bucket remembers the latest deadline pushed to it, and the limiter the latest global one. */
  ghost predicate RemembersOf(s: System, b: Id)
  {
    && Latest(s.trace, b) == (if b in s.l.heap then s.l.heap[b].reset else 0)
    && LatestGlobal(s.trace) == s.l.global
  }

  ghost predicate Remembers(s: System)
  {
    forall b {:trigger RemembersOf(s, b)} :: RemembersOf(s, b)
  }

  ghost predicate WaitsFor(s: System, t: nat)
  {
    t in s.threads && s.threads[t].phase.Pausing? ==>
      var p := s.threads[t].phase;
      && p.won <= |s.trace|
      && p.reset == Latest(s.trace[..p.won], p.b) && p.global == LatestGlobal(s.trace[..p.won])
  }

  ghost predicate Waits(s: System)
  {
    forall t {:trigger WaitsFor(s, t)} :: WaitsFor(s, t)
  }

  lemma LatestThen(trace: seq<Event>, event: Event, b: Id)
    ensures Latest(trace + [event], b) == Max(Latest(trace, b), PushOf(event, b))
    ensures LatestGlobal(trace + [event]) == Max(LatestGlobal(trace), GlobalOf(event))
  {
    assert (trace + [event])[..|trace|] == trace;
  }

  lemma LatestThenTwo(trace: seq<Event>, e1: Event, e2: Event, b: Id)
    ensures Latest(trace + [e1, e2], b) == Max(Max(Latest(trace, b), PushOf(e1, b)), PushOf(e2, b))
    ensures LatestGlobal(trace + [e1, e2]) == Max(Max(LatestGlobal(trace), GlobalOf(e1)), GlobalOf(e2))
  {
    LatestThen(trace, e1, b);
    LatestThen(trace + [e1], e2, b);
    assert trace + [e1, e2] == (trace + [e1]) + [e2];
  }

  lemma LatestThenDelays(trace: seq<Event>, route: string, current: Id, target: Id, deadline: Time, b: Id)
    ensures Latest(trace + Delays(route, current, target, deadline), b)
            == if b == current || b == target then Max(Latest(trace, b), deadline) else Latest(trace, b)
    ensures LatestGlobal(trace + Delays(route, current, target, deadline)) == LatestGlobal(trace)
  {
    var c, p, q := Closed(route, deadline), Pushed(current, deadline), Pushed(target, deadline);
    LatestThenTwo(trace, c, p, b);
    LatestThen(trace + [c, p], q, b);
    assert trace + Delays(route, current, target, deadline) == (trace + [c, p]) + [q];
  }

  lemma RespondRemembers(s: System, a: Action, b: Id)
    requires Ready(s, a) && Remembers(s) && a.Respond?
    ensures RemembersOf(Apply(s, a), b)
  {
    var th := s.threads[a.t];
    var target := Target(s.l, th.route, th.phase.b, a.header);
    ObserveResets(s.l, th.route, th.phase.b, a.header, s.clock);
    assert RemembersOf(s, b);
    if Exhausted(a.header) {
      LatestThenDelays(s.trace, th.route, th.phase.b, target, s.clock + a.header.resetAfter.value, b);
    } else {
      assert s.trace + [] == s.trace;
    }
  }

  lemma ThrottleRemembers(s: System, a: Action, b: Id)
    requires Ready(s, a) && Remembers(s) && a.Throttle?
    ensures RemembersOf(Apply(s, a), b)
  {
    var th, d := s.threads[a.t], s.clock + a.retry;
    assert RemembersOf(s, b);
    if a.global {
      LatestThen(s.trace, GlobalLimit(d), b);
    } else {
      LatestThenTwo(s.trace, Pushed(th.phase.b, d),
                    if s.l.routes[th.route] == th.phase.b then Closed(th.route, d) else RetryMissed(th.route, d), b);
    }
  }

  lemma StepRemembers(s: System, a: Action)
    requires Ready(s, a) && Remembers(s)
    ensures Remembers(Apply(s, a))
  {
    forall b: Id
      ensures RemembersOf(Apply(s, a), b)
    {
      if a.Respond? {
        RespondRemembers(s, a, b);
      } else if a.Throttle? {
        ThrottleRemembers(s, a, b);
      } else {
        OtherRemembers(s, a, b);
      }
    }
    assert RemembersOf(Apply(s, a), 0);
  }

  lemma OtherRemembers(s: System, a: Action, b: Id)
    requires Ready(s, a) && Remembers(s) && !a.Respond? && !a.Throttle?
    ensures RemembersOf(Apply(s, a), b)
  {
    assert RemembersOf(s, b);
    if a.Send? {
      var th := s.threads[a.t];
      LatestThen(s.trace, Sent(a.t, th.route, th.phase.b, s.clock, th.phase.won), b);
    }
  }

  lemma StepWaits(s: System, a: Action)
    requires Ready(s, a) && Remembers(s) && Waits(s)
    ensures Waits(Apply(s, a))
  {
    var s' := Apply(s, a);
    StepOnlyDelays(s, a);
    forall t
      ensures WaitsFor(s', t)
    {
      assert WaitsFor(s, t);
      StepWaitsFor(s, a, t);
    }
  }

  lemma StepWaitsFor(s: System, a: Action, t: nat)
    requires Ready(s, a) && Remembers(s) && WaitsFor(s, t) && s.trace <= Apply(s, a).trace
    ensures WaitsFor(Apply(s, a), t)
  {
    var s' := Apply(s, a);
    if t in s.threads && s.threads[t].phase.Pausing? {
      var won := s.threads[t].phase.won;
      assert s'.trace[..won] == s.trace[..won];
    }
    if a == Check(t) {
      var b := s.threads[t].phase.b;
      assert s'.trace[..|s.trace|] == s.trace;
      assert RemembersOf(s, b);
    }
  }

  lemma {:induction false} ReachableRemembers(actions: seq<Action>, s: System)
    requires Reaches(actions, s)
    ensures Remembers(s) && Waits(s)
  {
    if actions != [] {
      var before :| StepsTo(actions, before, s);
      ReachableRemembers(actions[..|actions| - 1], before);
      StepRemembers(before, actions[|actions| - 1]);
      StepWaits(before, actions[|actions| - 1]);
    }
  }

  // ------------------------------------------------------------------------- when to send

  /**
   A request that has won its lock may be sent exactly when every deadline that was pushed to
   its bucket before it won, and every global limit from before, has passed. What is pushed
   afterwards does not hold it up.
   */
  lemma SendableExactly(actions: seq<Action>, s: System, t: nat)
    requires Reaches(actions, s) && t in s.threads && s.threads[t].phase.Pausing?
    ensures var p := s.threads[t].phase;
            Enabled(s, Send(t)) <==>
              && (forall i: nat, d: Time {:trigger PushedAt(s.trace, i, p.b, d)} :: i < p.won && PushedAt(s.trace, i, p.b, d) ==> d <= s.clock)
              && (forall i: nat, d: Time {:trigger GlobalAt(s.trace, i, d)} :: i < p.won && GlobalAt(s.trace, i, d) ==> d <= s.clock)
  {
    var p := s.threads[t].phase;
    ReachableRemembers(actions, s);
    assert WaitsFor(s, t);
    var front := s.trace[..p.won];
    LatestIsLatest(front, p.b);
    LatestGlobalIsLatest(front);
    forall i: nat, d: Time
      ensures PushedAt(front, i, p.b, d) <==> i < p.won && PushedAt(s.trace, i, p.b, d)
      ensures GlobalAt(front, i, d) <==> i < p.won && GlobalAt(s.trace, i, d)
    {
    }
  }

  /**
   No request whose lock was won after a deadline was pushed to its bucket is sent before
   that deadline, even if it came from a 429 that missed its route.
   */
  lemma {:induction false} SentAfterPushes(
    actions: seq<Action>, s: System, i: nat, j: nat, t: nat, route: string, b: Id, deadline: Time, time: Time, won: nat)
    requires Reaches(actions, s) && i < won
    requires PushedAt(s.trace, i, b, deadline) && SentAt(s.trace, j, t, route, b, time, won)
    ensures deadline <= time
  {
    var last := |actions| - 1;
    var before :| StepsTo(actions, before, s);
    StepOnlyDelays(before, actions[last]);
    NewlySent(before, actions[last], j, t, route, b, time, won);
    if SentAt(before.trace, j, t, route, b, time, won) {
      SentBeforeWon(actions[..last], before, j, t, route, b, time, won);
      SentAfterPushes(actions[..last], before, i, j, t, route, b, deadline, time, won);
    } else {
      ReachableRemembers(actions[..last], before);
      assert WaitsFor(before, t);
      SendableExactly(actions[..last], before, t);
      assert PushedAt(before.trace, i, b, deadline);
    }
  }

  // ------------------------------------------------------------- deadlines that come too late

  /** While a request is in the window, only the response of a request that is moved to its bucket pushes a deadline there. */
  lemma OnlyMoversPush(actions: seq<Action>, s: System, a: Action, t: nat, i: nat, deadline: Time)
    requires Reaches(actions, s) && Ready(s, a) && t in s.threads && InWindow(s.threads[t].phase)
    requires !(a.Respond? && a.t == t)
    requires i >= |s.trace| && PushedAt(Apply(s, a).trace, i, s.threads[t].phase.b, deadline)
    ensures a.Respond? && s.threads[a.t].phase.b != s.threads[t].phase.b && Exhausted(a.header)
    ensures Target(s.l, s.threads[a.t].route, s.threads[a.t].phase.b, a.header) == s.threads[t].phase.b
  {
    ReachableIsGood(actions, s);
    assert Holds(s, t, s.threads[t].phase.b);
    assert a.Respond? || a.Throttle? ==> Holds(s, a.t, s.threads[a.t].phase.b);
  }

  /** Such a deadline comes too late: the request is still sent as soon as before, ahead of it. */
  lemma LateDeadlineMissed(actions: seq<Action>, s: System, t: nat, other: nat, header: Header)
    requires Reaches(actions, s) && t != other && Enabled(s, Send(t)) && Enabled(s, Respond(other, header))
    requires Exhausted(header) && header.resetAfter.value > 0
    requires other in s.threads && s.threads[t].phase.b == Target(s.l, s.threads[other].route, s.threads[other].phase.b, header)
    ensures Ready(s, Respond(other, header))
    ensures var pushed, deadline := Apply(s, Respond(other, header)), s.clock + header.resetAfter.value;
            && (exists i :: i >= |s.trace| && PushedAt(pushed.trace, i, s.threads[t].phase.b, deadline))
            && Ready(pushed, Send(t))
            && var sent := Apply(pushed, Send(t));
               SentAt(sent.trace, |pushed.trace|, t, s.threads[t].route, s.threads[t].phase.b, s.clock, s.threads[t].phase.won)
               && s.clock < deadline
  {
    var a := Respond(other, header);
    ReachableIsGood(actions, s);
    GoodIsReady(s, a);
    StepKeepsGood(s, a);
    var pushed := Apply(s, a);
    GoodIsReady(pushed, Send(t));
    assert PushedAt(pushed.trace, |s.trace| + 2, s.threads[t].phase.b, s.clock + header.resetAfter.value);
  }
}
