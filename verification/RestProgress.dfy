/**
 What a request does next: it wins its lock exactly if its route still leads to the bucket
 whose permit it took, starts over if not, and goes around again after a 429, no earlier
 than it was told.
 */
module RestProgress {
  import opened RestLimits
  import opened RestProtocol

  /** Releasing the permit and waiting; `amount` is the time that passes. */
  ghost function ReleasedAfter(s: System, t: nat, amount: nat): System
    requires Ready(s, Release(t))
  {
    Apply(s, Release(t)).(clock := s.clock + amount)
  }

  lemma ReleasedIsReady(s: System, t: nat, amount: nat)
    requires Good(s) && Enabled(s, Release(t))
    ensures Ready(s, Release(t)) && Ready(Apply(s, Release(t)), Tick(amount))
    ensures Apply(Apply(s, Release(t)), Tick(amount)) == ReleasedAfter(s, t, amount)
  {
    GoodIsReady(s, Release(t));
    StepKeepsGood(s, Release(t));
    GoodIsReady(Apply(s, Release(t)), Tick(amount));
  }

  /** With the permit taken, the second look at the route decides. */
  lemma SecondLookDecides(actions: seq<Action>, s: System, t: nat)
    requires Reaches(actions, s) && Enabled(s, Check(t))
    ensures Ready(s, Check(t)) && s.threads[t].route in s.l.routes && s.threads[t].phase.b in s.l.heap
    ensures var s', b := Apply(s, Check(t)), s.threads[t].phase.b;
            && s'.l == s.l
            && (InWindow(s'.threads[t].phase) <==> s.l.routes[s.threads[t].route] == b)
            && (InWindow(s'.threads[t].phase) ==>
                  s'.threads[t].phase == Pausing(b, s.l.heap[b].reset, s.l.global, |s.trace|))
  {
    ReachableIsGood(actions, s);
    GoodIsReady(s, Check(t));
    assert ThreadRefs(s, t);
  }

  /** If the route was rebound, the request lets the permit go and looks its route up again. */
  lemma ReboundStartsOver(actions: seq<Action>, s: System, t: nat)
    requires Reaches(actions, s) && Enabled(s, Check(t)) && s.threads[t].route in s.l.routes
    requires s.l.routes[s.threads[t].route] != s.threads[t].phase.b
    ensures Ready(s, Check(t)) && Ready(Apply(s, Check(t)), Release(t)) && s.threads[t].phase.b in s.l.heap
    ensures var s', b := Apply(Apply(s, Check(t)), Release(t)), s.threads[t].phase.b;
            s'.threads[t].phase == Start && b in s'.l.heap && !s'.l.heap[b].held
  {
    ReachableIsGood(actions, s);
    GoodIsReady(s, Check(t));
    StepKeepsGood(s, Check(t));
    GoodIsReady(Apply(s, Check(t)), Release(t));
    assert ThreadRefs(s, t);
  }

  lemma BackingOffWaits(s: System, t: nat, amount: nat)
    requires Good(s) && t in s.threads && s.threads[t].phase.Throttled?
    ensures Ready(s, Release(t)) && s.threads[t].phase.b in s.l.heap
    ensures var waiting, b := ReleasedAfter(s, t, amount), s.threads[t].phase.b;
            && (Enabled(waiting, Retry(t)) <==> amount >= s.threads[t].phase.retry)
            && b in waiting.l.heap && !waiting.l.heap[b].held
            && (Ready(waiting, Retry(t)) ==> Apply(waiting, Retry(t)).threads[t] == Thread(s.threads[t].route, Start))
  {
    GoodIsReady(s, Release(t));
    assert ThreadRefs(s, t);
  }

  /** After a 429 the permit is let go, and the request starts over exactly when the delay has passed. */
  lemma ThrottledGoesAround(actions: seq<Action>, s: System, t: nat, retry: nat, global: bool, amount: nat)
    requires Reaches(actions, s) && Enabled(s, Throttle(t, retry, global))
    ensures Ready(s, Throttle(t, retry, global)) && Ready(Apply(s, Throttle(t, retry, global)), Release(t))
    ensures var waiting, b := ReleasedAfter(Apply(s, Throttle(t, retry, global)), t, amount), s.threads[t].phase.b;
            && (Enabled(waiting, Retry(t)) <==> amount >= retry)
            && b in waiting.l.heap && !waiting.l.heap[b].held
            && (Ready(waiting, Retry(t)) ==> Apply(waiting, Retry(t)).threads[t] == Thread(s.threads[t].route, Start))
  {
    var a := Throttle(t, retry, global);
    ReachableIsGood(actions, s);
    GoodIsReady(s, a);
    StepKeepsGood(s, a);
    var throttled := Apply(s, a);
    assert throttled.threads[t] == Thread(s.threads[t].route, Throttled(s.threads[t].phase.b, retry));
    BackingOffWaits(throttled, t, amount);
  }

  /** Any other answer ends the request, with the permit let go. */
  lemma AnsweredIsDone(actions: seq<Action>, s: System, t: nat)
    requires Reaches(actions, s) && t in s.threads && s.threads[t].phase.Answered?
    ensures Ready(s, Release(t)) && s.threads[t].phase.b in s.l.heap
    ensures var s', b := Apply(s, Release(t)), s.threads[t].phase.b;
            s'.threads[t].phase == Done && b in s'.l.heap && !s'.l.heap[b].held
  {
    ReachableIsGood(actions, s);
    GoodIsReady(s, Release(t));
    assert ThreadRefs(s, t);
  }
}
