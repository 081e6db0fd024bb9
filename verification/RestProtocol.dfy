/**
 Any number of goroutines sending REST requests through one limiter. A step is one locked
 region, one permit operation, or the passing of time; every interleaving is a run.
 */
module RestProtocol {
  import opened RestLimits

  type Id = nat

  /** Where a request is. From `Checking` to `Throttled` it holds the permit of bucket `b`. */
  datatype Phase =
    | Start                                                 // about to look its route up
    | WaitGlobal(b: Id, until: Time)
    | Locking(b: Id)                                        // waiting for the permit
    | Checking(b: Id)                                       // about to look its route up again
    | Stale(b: Id)                                          // the route was rebound meanwhile
    | Pausing(b: Id, reset: Time, global: Time, won: nat)   // lock won; waiting for the deadlines it read
    | Sending(b: Id, won: nat)
    | Answered(b: Id, kept: bool)                           // observe has run, and kept the route's bucket or not
    | Throttled(b: Id, retry: nat)                          // limited has run
    | BackingOff(until: Time)
    | Done

  datatype Thread = Thread(route: string, phase: Phase)

  /**
   `Closed` says that later requests on the route must not be sent before the deadline.
   `RetryMissed` is a 429 delay reported to a bucket the route no longer leads to.
   `Pushed` says that a bucket was told not to be used before the deadline.
   `won` is the trace position at which the request won its lock.
   */
  datatype Event =
    | Closed(route: string, deadline: Time)
    | RetryMissed(route: string, deadline: Time)
    | GlobalLimit(deadline: Time)
    | Pushed(b: Id, deadline: Time)
    | Sent(t: nat, route: string, b: Id, time: Time, won: nat)

  datatype System = System(l: Limiter<Id>, threads: map<nat, Thread>, clock: Time, trace: seq<Event>)

  datatype Action =
    | Tick(amount: nat)
    | Begin(t: nat, route: string)
    | Fetch(t: nat, newId: Id)
    | PassGlobal(t: nat)
    | TakePermit(t: nat)
    | Check(t: nat)
    | Send(t: nat)
    | Respond(t: nat, header: Header)
    | Throttle(t: nat, retry: nat, global: bool)
    | Release(t: nat)
    | Retry(t: nat)
    | Abandon(t: nat)                                       // cancelled without the permit

  predicate Holding(phase: Phase)
  {
    phase.Checking? || phase.Stale? || phase.Pausing? || phase.Sending? || phase.Answered? || phase.Throttled?
  }

  /** Between winning lock and calling observe. */
  predicate InWindow(phase: Phase)
  {
    phase.Pausing? || phase.Sending?
  }

  predicate UsesBucket(phase: Phase)
  {
    Holding(phase) || phase.WaitGlobal? || phase.Locking?
  }

  ghost predicate Enabled(s: System, a: Action)
  {
    match a
    case Tick(_) => true
    case Begin(t, _) => t !in s.threads
    case Fetch(t, newId) => t in s.threads && s.threads[t].phase.Start? && newId !in s.l.heap
    case PassGlobal(t) => t in s.threads && s.threads[t].phase.WaitGlobal? && s.threads[t].phase.until <= s.clock
    case TakePermit(t) => t in s.threads && s.threads[t].phase.Locking? && s.threads[t].phase.b in s.l.heap
                          && !s.l.heap[s.threads[t].phase.b].held
    case Check(t) => t in s.threads && s.threads[t].phase.Checking?
    case Send(t) => t in s.threads && s.threads[t].phase.Pausing?
                    && s.threads[t].phase.reset <= s.clock && s.threads[t].phase.global <= s.clock
    case Respond(t, _) => t in s.threads && s.threads[t].phase.Sending?
    case Throttle(t, _, _) => t in s.threads && s.threads[t].phase.Answered?
    case Release(t) => t in s.threads && Holding(s.threads[t].phase) && !s.threads[t].phase.Checking?
    case Retry(t) => t in s.threads && s.threads[t].phase.BackingOff? && s.threads[t].phase.until <= s.clock
    case Abandon(t) => t in s.threads && (s.threads[t].phase.WaitGlobal? || s.threads[t].phase.Locking? || s.threads[t].phase.BackingOff?)
  }

  // ------------------------------------------------------------------ invariant

  ghost predicate ThreadRefs(s: System, t: nat)
  {
    t in s.threads ==>
      && (UsesBucket(s.threads[t].phase) ==> s.threads[t].phase.b in s.l.heap)
      && (s.threads[t].phase != Start && s.threads[t].phase != Done ==> s.threads[t].route in s.l.routes)
  }

  /** Everything that is referred to exists; it makes every step defined. */
  ghost predicate WellFormed(s: System)
  {
    && (forall route :: route in s.l.routes ==> s.l.routes[route] in s.l.heap)
    && (forall key :: key in s.l.buckets ==> s.l.buckets[key] in s.l.heap)
    && (forall t {:trigger ThreadRefs(s, t)} :: ThreadRefs(s, t))
  }

  ghost function Moved(s: System, t: nat, phase: Phase): System
    requires t in s.threads
  {
    s.(threads := s.threads[t := s.threads[t].(phase := phase)])
  }

  function AfterRelease(phase: Phase, clock: Time): Phase
  {
    match phase
    case Stale(_) => Start
    case Throttled(_, retry) => BackingOff(clock + retry)
    case _ => Done
  }

  /** What observe does when a bucket is exhausted. */
  function Delays(route: string, current: Id, target: Id, deadline: Time): seq<Event>
  {
    [Closed(route, deadline), Pushed(current, deadline), Pushed(target, deadline)]
  }

  ghost predicate Ready(s: System, a: Action)
  {
    && WellFormed(s) && Enabled(s, a)
    && (!a.Tick? ==> ThreadRefs(s, a.t))
  }

  ghost function Apply(s: System, a: Action): System
    requires Ready(s, a)
  {
    match a
    case Tick(amount) => s.(clock := s.clock + amount)
    case Begin(t, route) => s.(threads := s.threads[t := Thread(route, Start)])
    case Fetch(t, newId) =>
      var (l, b) := Lookup(s.l, s.threads[t].route, newId);
      Moved(s, t, WaitGlobal(b, s.l.global)).(l := l)
    case PassGlobal(t) => Moved(s, t, Locking(s.threads[t].phase.b))
    case TakePermit(t) => Moved(s, t, Checking(s.threads[t].phase.b)).(l := SetHeld(s.l, s.threads[t].phase.b, true))
    case Check(t) =>
      var b := s.threads[t].phase.b;
      if s.l.routes[s.threads[t].route] != b then Moved(s, t, Stale(b))
      else Moved(s, t, Pausing(b, s.l.heap[b].reset, s.l.global, |s.trace|))
    case Send(t) =>
      var p := s.threads[t].phase;
      Moved(s, t, Sending(p.b, p.won)).(trace := s.trace + [Sent(t, s.threads[t].route, p.b, s.clock, p.won)])
    case Respond(t, header) =>
      var th := s.threads[t];
      var target := Target(s.l, th.route, th.phase.b, header);
      Moved(s, t, Answered(th.phase.b, target == th.phase.b))
        .(l := Observe(s.l, th.route, th.phase.b, header, s.clock),
          trace := s.trace + if Exhausted(header) then Delays(th.route, th.phase.b, target, s.clock + header.resetAfter.value) else [])
    case Throttle(t, retry, global) =>
      var th := s.threads[t];
      Moved(s, t, Throttled(th.phase.b, retry))
        .(l := Limited(s.l, th.phase.b, retry, global, s.clock),
          trace := s.trace + if global then [GlobalLimit(s.clock + retry)]
                             else [Pushed(th.phase.b, s.clock + retry),
                                   if s.l.routes[th.route] == th.phase.b then Closed(th.route, s.clock + retry)
                                   else RetryMissed(th.route, s.clock + retry)])
    case Release(t) =>
      var p := s.threads[t].phase;
      Moved(s, t, AfterRelease(p, s.clock)).(l := SetHeld(s.l, p.b, false))
    case Retry(t) => Moved(s, t, Start)
    case Abandon(t) => Moved(s, t, Done)
  }

  ghost predicate Holds(s: System, t: nat, b: Id)
  {
    t in s.threads && Holding(s.threads[t].phase) && s.threads[t].phase.b == b
  }

  /** A permit is taken exactly while one request holds it. */
  ghost predicate Permits(s: System)
  {
    && (forall t, b {:trigger Holds(s, t, b)} :: Holds(s, t, b) ==> b in s.l.heap && s.l.heap[b].held)
    && (forall t1, t2, b {:trigger Holds(s, t1, b), Holds(s, t2, b)} :: Holds(s, t1, b) && Holds(s, t2, b) ==> t1 == t2)
    && (forall b :: b in s.l.heap && s.l.heap[b].held ==> exists t :: Holds(s, t, b))
  }

  ghost predicate WindowOk(s: System, t: nat)
  {
    t in s.threads && InWindow(s.threads[t].phase) ==>
      s.threads[t].route in s.l.routes && s.l.routes[s.threads[t].route] == s.threads[t].phase.b
  }

  /** A request in the window holds the bucket its route leads to. */
  ghost predicate Windows(s: System)
  {
    forall t {:trigger WindowOk(s, t)} :: WindowOk(s, t)
  }

  ghost predicate KeptOk(s: System, t: nat)
  {
    t in s.threads && s.threads[t].phase.Answered? && s.threads[t].phase.kept ==>
      s.threads[t].route in s.l.routes && s.l.routes[s.threads[t].route] == s.threads[t].phase.b
  }

  /** A route that observe has left alone leads to its request's bucket until the request lets go of it. */
  ghost predicate Kept(s: System)
  {
    forall t {:trigger KeptOk(s, t)} :: KeptOk(s, t)
  }

  ghost predicate ClosedAt(trace: seq<Event>, i: nat, route: string, deadline: Time)
  {
    i < |trace| && trace[i] == Closed(route, deadline)
  }

  ghost predicate DeadlineOk(s: System, route: string, deadline: Time)
  {
    deadline <= s.clock
    || (route in s.l.routes && s.l.routes[route] in s.l.heap && deadline <= s.l.heap[s.l.routes[route]].reset)
  }

  /** A deadline has passed or the bucket the route leads to still enforces it. */
  ghost predicate Deadlines(s: System)
  {
    forall i, route, deadline {:trigger ClosedAt(s.trace, i, route, deadline)} ::
      ClosedAt(s.trace, i, route, deadline) ==> DeadlineOk(s, route, deadline)
  }

  ghost predicate PatientAt(s: System, t: nat, i: nat, deadline: Time)
  {
    t in s.threads && ClosedAt(s.trace, i, s.threads[t].route, deadline) ==>
      && (s.threads[t].phase.Pausing? ==> deadline <= s.clock || deadline <= s.threads[t].phase.reset)
      && (s.threads[t].phase.Sending? ==> deadline <= s.clock)
  }

  /** A request that has won its lock waits for every deadline of its route. */
  ghost predicate Patience(s: System)
  {
    forall t, i, deadline {:trigger PatientAt(s, t, i, deadline)} :: PatientAt(s, t, i, deadline)
  }

  ghost predicate GlobalAt(trace: seq<Event>, i: nat, deadline: Time)
  {
    i < |trace| && trace[i] == GlobalLimit(deadline)
  }

  ghost predicate GlobalPatientAt(s: System, t: nat, i: nat, deadline: Time)
  {
    t in s.threads && s.threads[t].phase.Pausing? && i < s.threads[t].phase.won && GlobalAt(s.trace, i, deadline)
    ==> s.threads[t].phase.won <= |s.trace| && deadline <= s.threads[t].phase.global
  }

  ghost predicate Globals(s: System)
  {
    && (forall i, deadline: Time {:trigger GlobalAt(s.trace, i, deadline)} :: GlobalAt(s.trace, i, deadline) ==> deadline <= s.l.global)
    && (forall t, i, deadline {:trigger GlobalPatientAt(s, t, i, deadline)} :: GlobalPatientAt(s, t, i, deadline))
    && (forall t :: t in s.threads && s.threads[t].phase.Pausing? ==> s.threads[t].phase.won <= |s.trace|)
  }

  ghost predicate Good(s: System)
  {
    WellFormed(s) && Permits(s) && Windows(s) && Kept(s) && Deadlines(s) && Patience(s) && Globals(s)
  }

  // --------------------------------------------------------------- preservation

  lemma GoodIsReady(s: System, a: Action)
    requires WellFormed(s) && Enabled(s, a)
    ensures Ready(s, a)
  {
    if !a.Tick? {
      assert ThreadRefs(s, a.t);
    }
  }

  lemma StepKeepsWellFormed(s: System, a: Action)
    requires Ready(s, a)
    ensures WellFormed(Apply(s, a))
  {
    var s' := Apply(s, a);
    if a.Respond? {
      ObserveEffect(s.l, s.threads[a.t].route, s.threads[a.t].phase.b, a.header, s.clock);
    }
    forall t
      ensures ThreadRefs(s', t)
    {
      assert ThreadRefs(s, t);
    }
  }

  /** Deadlines never move backwards, and permits change hands only in TakePermit and Release. */
  lemma StepOnlyDelays(s: System, a: Action)
    requires Ready(s, a)
    ensures var s' := Apply(s, a);
            && s.clock <= s'.clock && s.l.global <= s'.l.global && s.trace <= s'.trace
            && (forall b :: b in s.l.heap ==> b in s'.l.heap && s.l.heap[b].reset <= s'.l.heap[b].reset)
            && (forall b :: b in s.l.heap && !a.TakePermit? && !a.Release? ==> s'.l.heap[b].held == s.l.heap[b].held)
            && (forall b :: b in s'.l.heap && b !in s.l.heap ==> s'.l.heap[b] == BucketState(false, 0))
  {
    if a.Respond? {
      ObserveEffect(s.l, s.threads[a.t].route, s.threads[a.t].phase.b, a.header, s.clock);
    }
  }

  lemma HoldsAfter(s: System, a: Action, t: nat, b: Id)
    requires Ready(s, a)
    ensures Holds(Apply(s, a), t, b) <==>
              if a.TakePermit? && a.t == t then s.threads[t].phase.b == b
              else if a.Release? && a.t == t then false
              else Holds(s, t, b)
  {
  }

  lemma StepKeepsPermits(s: System, a: Action)
    requires Ready(s, a) && Permits(s)
    ensures Permits(Apply(s, a))
  {
    var s' := Apply(s, a);
    StepOnlyDelays(s, a);
    forall t, b | Holds(s', t, b)
      ensures b in s'.l.heap && s'.l.heap[b].held
    {
      HoldsAfter(s, a, t, b);
      if a.Release? && Holds(s, t, b) {
        assert Holds(s, a.t, s.threads[a.t].phase.b);
      }
    }
    forall t1, t2, b | Holds(s', t1, b) && Holds(s', t2, b)
      ensures t1 == t2
    {
      HoldsAfter(s, a, t1, b);
      HoldsAfter(s, a, t2, b);
      assert Holds(s, t1, b) ==> s.l.heap[b].held;
      assert Holds(s, t2, b) ==> s.l.heap[b].held;
    }
    forall b | b in s'.l.heap && s'.l.heap[b].held
      ensures exists t :: Holds(s', t, b)
    {
      HeldIsHeld(s, a, b);
    }
  }

  lemma HeldIsHeld(s: System, a: Action, b: Id)
    requires Ready(s, a) && Permits(s) && b in Apply(s, a).l.heap && Apply(s, a).l.heap[b].held
    ensures exists t :: Holds(Apply(s, a), t, b)
  {
    StepOnlyDelays(s, a);
    if a.TakePermit? && s.threads[a.t].phase.b == b {
      HoldsAfter(s, a, a.t, b);
    } else {
      assert b in s.l.heap && s.l.heap[b].held;
      var t :| Holds(s, t, b);
      HoldsAfter(s, a, t, b);
    }
  }

  /** While a request is in the window its route is not rebound by anyone else. */
  lemma StepKeepsWindows(s: System, a: Action)
    requires Ready(s, a) && Permits(s) && Windows(s)
    ensures Windows(Apply(s, a))
  {
    var s' := Apply(s, a);
    forall t
      ensures WindowOk(s', t)
    {
      assert WindowOk(s, t);
      if a.Respond? {
        RespondKeepsWindow(s, a, t);
      }
    }
  }

  lemma RespondKeepsWindow(s: System, a: Action, t: nat)
    requires Ready(s, a) && Permits(s) && Windows(s) && a.Respond?
    ensures WindowOk(Apply(s, a), t)
  {
    ObserveEffect(s.l, s.threads[a.t].route, s.threads[a.t].phase.b, a.header, s.clock);
    assert WindowOk(s, t) && WindowOk(s, a.t);
    if t in s.threads && t != a.t && InWindow(s.threads[t].phase) && s.threads[t].route == s.threads[a.t].route {
      assert Holds(s, t, s.threads[t].phase.b) && Holds(s, a.t, s.threads[a.t].phase.b);
      assert false;
    }
  }

  lemma StepKeepsKept(s: System, a: Action)
    requires Ready(s, a) && Permits(s) && Windows(s) && Kept(s)
    ensures Kept(Apply(s, a))
  {
    var s' := Apply(s, a);
    forall t
      ensures KeptOk(s', t)
    {
      assert KeptOk(s, t);
      if a.Respond? {
        RespondKeepsKept(s, a, t);
      }
    }
  }

  lemma RespondKeepsKept(s: System, a: Action, t: nat)
    requires Ready(s, a) && Permits(s) && Windows(s) && Kept(s) && a.Respond?
    ensures KeptOk(Apply(s, a), t)
  {
    ObserveEffect(s.l, s.threads[a.t].route, s.threads[a.t].phase.b, a.header, s.clock);
    assert KeptOk(s, t) && WindowOk(s, a.t);
    assert Holds(s, a.t, s.threads[a.t].phase.b);
    if t != a.t && t in s.threads && s.threads[t].phase.Answered? {
      assert Holds(s, t, s.threads[t].phase.b);
    }
  }

  // ------------------------------------------------------------------ deadlines

  lemma ClosedAfter(s: System, a: Action, i: nat, route: string, deadline: Time)
    requires Ready(s, a) && ClosedAt(Apply(s, a).trace, i, route, deadline)
    ensures ClosedAt(s.trace, i, route, deadline) || NewlyClosed(s, a, route, deadline)
  {
  }

  ghost predicate NewlyClosed(s: System, a: Action, route: string, deadline: Time)
    requires Ready(s, a)
  {
    || (a.Respond? && Exhausted(a.header) && route == s.threads[a.t].route && deadline == s.clock + a.header.resetAfter.value)
    || (a.Throttle? && !a.global && route == s.threads[a.t].route && deadline == s.clock + a.retry
        && s.l.routes[route] == s.threads[a.t].phase.b)
  }

  lemma NewDeadlineOk(s: System, a: Action, route: string, deadline: Time)
    requires Ready(s, a) && Windows(s) && NewlyClosed(s, a, route, deadline)
    ensures DeadlineOk(Apply(s, a), route, deadline)
  {
    assert WindowOk(s, a.t);
    if a.Respond? {
      ObserveEffect(s.l, route, s.threads[a.t].phase.b, a.header, s.clock);
    }
  }

  lemma OldDeadlineOk(s: System, a: Action, i: nat, route: string, deadline: Time)
    requires Ready(s, a) && Windows(s) && Deadlines(s) && Patience(s)
    requires ClosedAt(s.trace, i, route, deadline)
    ensures DeadlineOk(Apply(s, a), route, deadline)
  {
    assert DeadlineOk(s, route, deadline);
    StepOnlyDelays(s, a);
    if a.Respond? {
      ObserveEffect(s.l, s.threads[a.t].route, s.threads[a.t].phase.b, a.header, s.clock);
      if s.threads[a.t].route == route {
        assert PatientAt(s, a.t, i, deadline);
      }
    }
  }

  lemma StepKeepsDeadlines(s: System, a: Action)
    requires Ready(s, a) && Windows(s) && Deadlines(s) && Patience(s)
    ensures Deadlines(Apply(s, a))
  {
    var s' := Apply(s, a);
    forall i: nat, route, deadline: Time | ClosedAt(s'.trace, i, route, deadline)
      ensures DeadlineOk(s', route, deadline)
    {
      ClosedAfter(s, a, i, route, deadline);
      if ClosedAt(s.trace, i, route, deadline) {
        OldDeadlineOk(s, a, i, route, deadline);
      } else {
        NewDeadlineOk(s, a, route, deadline);
      }
    }
  }

  /** Nobody closes a route while another request is in its window. */
  lemma NotClosedByOthers(s: System, a: Action, t: nat, route: string, deadline: Time)
    requires Ready(s, a) && Permits(s) && Windows(s) && NewlyClosed(s, a, route, deadline)
    requires t in s.threads && t != a.t && InWindow(s.threads[t].phase)
    ensures s.threads[t].route != route
  {
    assert WindowOk(s, t) && WindowOk(s, a.t);
    assert Holds(s, t, s.threads[t].phase.b) && Holds(s, a.t, s.threads[a.t].phase.b);
  }

  lemma StepKeepsPatience(s: System, a: Action)
    requires Ready(s, a) && Permits(s) && Windows(s) && Deadlines(s) && Patience(s)
    ensures Patience(Apply(s, a))
  {
    var s' := Apply(s, a);
    forall t: nat, i: nat, deadline: Time
      ensures PatientAt(s', t, i, deadline)
    {
      if t in s'.threads && InWindow(s'.threads[t].phase) && ClosedAt(s'.trace, i, s'.threads[t].route, deadline) {
        WindowStaysPatient(s, a, t, i, deadline);
      }
    }
  }

  lemma WindowStaysPatient(s: System, a: Action, t: nat, i: nat, deadline: Time)
    requires Ready(s, a) && Permits(s) && Windows(s) && Deadlines(s) && Patience(s)
    requires t in Apply(s, a).threads && InWindow(Apply(s, a).threads[t].phase)
    requires ClosedAt(Apply(s, a).trace, i, Apply(s, a).threads[t].route, deadline)
    ensures PatientAt(Apply(s, a), t, i, deadline)
  {
    var route := Apply(s, a).threads[t].route;
    ClosedAfter(s, a, i, route, deadline);
    if ClosedAt(s.trace, i, route, deadline) {
      assert PatientAt(s, t, i, deadline);
      assert DeadlineOk(s, route, deadline);
    } else {
      NotClosedByOthers(s, a, t, route, deadline);
    }
  }

  lemma GlobalStays(s: System, a: Action, i: nat, deadline: Time)
    requires Ready(s, a) && Globals(s) && GlobalAt(Apply(s, a).trace, i, deadline)
    ensures deadline <= Apply(s, a).l.global
  {
    StepOnlyDelays(s, a);
    assert GlobalAt(s.trace, i, deadline) || (a.Throttle? && a.global && deadline == s.clock + a.retry);
  }

  lemma GlobalPatience(s: System, a: Action, t: nat, i: nat, deadline: Time)
    requires Ready(s, a) && Globals(s)
    ensures GlobalPatientAt(Apply(s, a), t, i, deadline)
  {
    StepOnlyDelays(s, a);
    assert GlobalPatientAt(s, t, i, deadline);
    assert i < |s.trace| ==> (GlobalAt(Apply(s, a).trace, i, deadline) <==> GlobalAt(s.trace, i, deadline));
  }

  lemma StepKeepsGlobals(s: System, a: Action)
    requires Ready(s, a) && Globals(s)
    ensures Globals(Apply(s, a))
  {
    var s' := Apply(s, a);
    StepOnlyDelays(s, a);
    forall i: nat, deadline: Time | GlobalAt(s'.trace, i, deadline)
      ensures deadline <= s'.l.global
    {
      GlobalStays(s, a, i, deadline);
    }
    forall t: nat, i: nat, deadline: Time
      ensures GlobalPatientAt(s', t, i, deadline)
    {
      GlobalPatience(s, a, t, i, deadline);
    }
  }

  lemma StepKeepsGood(s: System, a: Action)
    requires Good(s) && Enabled(s, a)
    ensures Ready(s, a) && Good(Apply(s, a))
  {
    GoodIsReady(s, a);
    StepKeepsWellFormed(s, a);
    StepKeepsPermits(s, a);
    StepKeepsWindows(s, a);
    StepKeepsKept(s, a);
    StepKeepsDeadlines(s, a);
    StepKeepsPatience(s, a);
    StepKeepsGlobals(s, a);
  }

  // ----------------------------------------------------------------------- runs

  ghost predicate Init(s: System)
  {
    s.l == Empty() && s.threads == map[] && s.trace == []
  }

  ghost predicate Reaches(actions: seq<Action>, s: System)
    decreases |actions|, 1
  {
    if actions == [] then Init(s)
    else exists before :: StepsTo(actions, before, s)
  }

  ghost predicate StepsTo(actions: seq<Action>, before: System, s: System)
    requires actions != []
    decreases |actions|, 0
  {
    var last := |actions| - 1;
    Reaches(actions[..last], before) && Ready(before, actions[last]) && s == Apply(before, actions[last])
  }

  lemma InitIsGood(s: System)
    requires Init(s)
    ensures Good(s)
  {
    forall t: nat, i: nat, deadline: Time
      ensures PatientAt(s, t, i, deadline) && GlobalPatientAt(s, t, i, deadline)
    {
    }
  }

  lemma {:induction false} ReachableIsGood(actions: seq<Action>, s: System)
    requires Reaches(actions, s)
    ensures Good(s)
  {
    if actions == [] {
      InitIsGood(s);
    } else {
      var before :| StepsTo(actions, before, s);
      ReachableIsGood(actions[..|actions| - 1], before);
      StepKeepsGood(before, actions[|actions| - 1]);
    }
  }

  /**
   At most one request is between winning lock and observe per route, and per bucket, even
   while routes are rebound: two in the window whose routes lead to one bucket are the same.
   */
  lemma OneInWindow(actions: seq<Action>, s: System, t1: nat, t2: nat)
    requires Reaches(actions, s) && t1 in s.threads && t2 in s.threads
    requires InWindow(s.threads[t1].phase) && InWindow(s.threads[t2].phase)
    ensures s.threads[t1].route in s.l.routes && s.threads[t2].route in s.l.routes
    ensures s.l.routes[s.threads[t1].route] == s.l.routes[s.threads[t2].route] ==> t1 == t2
  {
    ReachableIsGood(actions, s);
    assert WindowOk(s, t1) && WindowOk(s, t2);
    assert Holds(s, t1, s.threads[t1].phase.b) && Holds(s, t2, s.threads[t2].phase.b);
  }

  /** A permit is taken exactly when one request holds it, so unlock never blocks and never frees another's. */
  lemma PermitsExact(actions: seq<Action>, s: System, b: Id)
    requires Reaches(actions, s) && b in s.l.heap
    ensures s.l.heap[b].held <==> exists t :: Holds(s, t, b)
    ensures forall t1, t2 :: Holds(s, t1, b) && Holds(s, t2, b) ==> t1 == t2
  {
    ReachableIsGood(actions, s);
  }

  ghost predicate SentAt(trace: seq<Event>, j: nat, t: nat, route: string, b: Id, time: Time, won: nat)
  {
    j < |trace| && trace[j] == Sent(t, route, b, time, won)
  }

  /** A sent request is sent by Send, from the state it waited in. */
  lemma NewlySent(s: System, a: Action, j: nat, t: nat, route: string, b: Id, time: Time, won: nat)
    requires Ready(s, a) && SentAt(Apply(s, a).trace, j, t, route, b, time, won)
    ensures SentAt(s.trace, j, t, route, b, time, won)
            || (a == Send(t) && j == |s.trace| && s.threads[t].phase.Pausing? && s.threads[t].route == route
                && s.threads[t].phase.b == b && s.threads[t].phase.won == won && s.clock == time)
  {
  }

  /** No request is sent before a deadline its route was given earlier, whatever rebinding happens in between. */
  lemma {:induction false} SentAfterDeadlines(
    actions: seq<Action>, s: System, i: nat, j: nat, t: nat, route: string, b: Id, deadline: Time, time: Time, won: nat)
    requires Reaches(actions, s) && i < j
    requires ClosedAt(s.trace, i, route, deadline) && SentAt(s.trace, j, t, route, b, time, won)
    ensures deadline <= time
  {
    var last := |actions| - 1;
    var before :| StepsTo(actions, before, s);
    StepOnlyDelays(before, actions[last]);
    NewlySent(before, actions[last], j, t, route, b, time, won);
    if SentAt(before.trace, j, t, route, b, time, won) {
      SentAfterDeadlines(actions[..last], before, i, j, t, route, b, deadline, time, won);
    } else {
      ReachableIsGood(actions[..last], before);
      assert PatientAt(before, t, i, deadline);
    }
  }

  /** No request whose lock was won after a global limit is sent before that limit's end. */
  lemma {:induction false} SentAfterGlobalLimits(
    actions: seq<Action>, s: System, i: nat, j: nat, t: nat, route: string, b: Id, deadline: Time, time: Time, won: nat)
    requires Reaches(actions, s) && i < won
    requires GlobalAt(s.trace, i, deadline) && SentAt(s.trace, j, t, route, b, time, won)
    ensures won <= j && deadline <= time
  {
    var last := |actions| - 1;
    var before :| StepsTo(actions, before, s);
    StepOnlyDelays(before, actions[last]);
    NewlySent(before, actions[last], j, t, route, b, time, won);
    SentBeforeWon(actions, s, j, t, route, b, time, won);
    if SentAt(before.trace, j, t, route, b, time, won) {
      SentBeforeWon(actions[..last], before, j, t, route, b, time, won);
      SentAfterGlobalLimits(actions[..last], before, i, j, t, route, b, deadline, time, won);
    } else {
      ReachableIsGood(actions[..last], before);
      assert GlobalPatientAt(before, t, i, deadline);
    }
  }

  lemma {:induction false} SentBeforeWon(
    actions: seq<Action>, s: System, j: nat, t: nat, route: string, b: Id, time: Time, won: nat)
    requires Reaches(actions, s) && SentAt(s.trace, j, t, route, b, time, won)
    ensures won <= j
  {
    var last := |actions| - 1;
    var before :| StepsTo(actions, before, s);
    NewlySent(before, actions[last], j, t, route, b, time, won);
    if SentAt(before.trace, j, t, route, b, time, won) {
      SentBeforeWon(actions[..last], before, j, t, route, b, time, won);
    } else {
      ReachableIsGood(actions[..last], before);
    }
  }

  // ------------------------------------------------------- 429s over whole runs

  /**
   When a request reports a 429, its route leads to the request's bucket unless its own
   observe moved the route away, whatever other requests did in between; and the delay
   reaches the route exactly when it leads to that bucket, or to one closed as long already.
   */
  lemma RetryReachesKeptRoute(actions: seq<Action>, s: System, t: nat, retry: nat)
    requires Reaches(actions, s) && Enabled(s, Throttle(t, retry, false))
    ensures Ready(s, Throttle(t, retry, false)) && s.threads[t].route in s.l.routes
    ensures var s', route, b := Apply(s, Throttle(t, retry, false)), s.threads[t].route, s.threads[t].phase.b;
            && s'.l.routes == s.l.routes && s.l.routes[route] in s.l.heap && s.l.routes[route] in s'.l.heap
            && (s.threads[t].phase.kept ==> s.l.routes[route] == b)
            && (s'.l.heap[s'.l.routes[route]].reset >= s.clock + retry
                <==> s.l.routes[route] == b || s.l.heap[s.l.routes[route]].reset >= s.clock + retry)
  {
    ReachableIsGood(actions, s);
    GoodIsReady(s, Throttle(t, retry, false));
    assert KeptOk(s, t) && ThreadRefs(s, t);
  }
}
