/**
 A run of three requests in which a deadline comes too late: two routes turn out to share a
 bucket while a request that has won the bucket's lock is about to be sent.
 */
module RestLateRuns {
  import opened RestLimits
  import opened RestProtocol
  import opened RestDeadlines

  lemma Extended(actions: seq<Action>, s: System, a: Action) returns (more: seq<Action>)
    requires Reaches(actions, s) && Enabled(s, a)
    ensures more == actions + [a] && Ready(s, a) && Reaches(more, Apply(s, a))
  {
    ReachableIsGood(actions, s);
    GoodIsReady(s, a);
    more := actions + [a];
    assert more[..|actions|] == actions;
    assert StepsTo(more, s, Apply(s, a));
  }

  /** The state after a new request has won its lock. */
  function Locked(s: System, t: nat, route: string, newId: Id): System
  {
    var (l, b) := Lookup(s.l, route, newId);
    if b !in l.heap then s
    else System(SetHeld(l, b, true), s.threads[t := Thread(route, Pausing(b, l.heap[b].reset, l.global, |s.trace|))], s.clock, s.trace)
  }

  predicate CanLock(s: System, t: nat, route: string, newId: Id)
  {
    && t !in s.threads && newId !in s.l.heap && s.l.global <= s.clock
    && (route in s.l.routes ==> s.l.routes[route] in s.l.heap && !s.l.heap[s.l.routes[route]].held)
  }

  /** The state with one more request, in a given phase. */
  function At(s: System, l: Limiter<Id>, t: nat, route: string, phase: Phase): System
  {
    System(l, s.threads[t := Thread(route, phase)], s.clock, s.trace)
  }

  lemma Fetches(actions: seq<Action>, s: System, t: nat, route: string, newId: Id) returns (more: seq<Action>)
    requires Reaches(actions, s) && CanLock(s, t, route, newId)
    ensures var (l, b) := Lookup(s.l, route, newId); Reaches(more, At(s, l, t, route, WaitGlobal(b, s.l.global)))
  {
    more := Extended(actions, s, Begin(t, route));
    var s1 := Apply(s, Begin(t, route));
    more := Extended(more, s1, Fetch(t, newId));
    var (l, b) := Lookup(s.l, route, newId);
    assert Apply(s1, Fetch(t, newId)) == At(s, l, t, route, WaitGlobal(b, s.l.global));
  }

  lemma Passes(actions: seq<Action>, s: System, l: Limiter<Id>, t: nat, route: string, b: Id, until: Time) returns (more: seq<Action>)
    requires Reaches(actions, At(s, l, t, route, WaitGlobal(b, until))) && until <= s.clock
    ensures Reaches(more, At(s, l, t, route, Locking(b)))
  {
    var s1 := At(s, l, t, route, WaitGlobal(b, until));
    more := Extended(actions, s1, PassGlobal(t));
    assert Apply(s1, PassGlobal(t)) == At(s, l, t, route, Locking(b));
  }

  lemma Takes(actions: seq<Action>, s: System, l: Limiter<Id>, t: nat, route: string, b: Id) returns (more: seq<Action>)
    requires Reaches(actions, At(s, l, t, route, Locking(b))) && b in l.heap && !l.heap[b].held
    ensures Reaches(more, At(s, SetHeld(l, b, true), t, route, Checking(b)))
  {
    var s1 := At(s, l, t, route, Locking(b));
    more := Extended(actions, s1, TakePermit(t));
    assert Apply(s1, TakePermit(t)) == At(s, SetHeld(l, b, true), t, route, Checking(b));
  }

  lemma Checks(actions: seq<Action>, s: System, l: Limiter<Id>, t: nat, route: string, b: Id) returns (more: seq<Action>)
    requires Reaches(actions, At(s, l, t, route, Checking(b))) && route in l.routes && l.routes[route] == b && b in l.heap
    ensures Reaches(more, At(s, l, t, route, Pausing(b, l.heap[b].reset, l.global, |s.trace|)))
  {
    var s1 := At(s, l, t, route, Checking(b));
    more := Extended(actions, s1, Check(t));
    assert Apply(s1, Check(t)) == At(s, l, t, route, Pausing(b, l.heap[b].reset, l.global, |s.trace|));
  }

  /** A new request wins its lock at once if its bucket is free. */
  lemma Locks(actions: seq<Action>, s: System, t: nat, route: string, newId: Id) returns (more: seq<Action>)
    requires Reaches(actions, s) && CanLock(s, t, route, newId)
    ensures Reaches(more, Locked(s, t, route, newId))
  {
    var (l, b) := Lookup(s.l, route, newId);
    more := Fetches(actions, s, t, route, newId);
    more := Passes(more, s, l, t, route, b, s.l.global);
    more := Takes(more, s, l, t, route, b);
    more := Checks(more, s, SetHeld(l, b, true), t, route, b);
  }

  function Named(bucket: string): Header
  {
    Header(bucket, None, None)
  }

  /** The limiter after one request on a route whose response named the bucket. */
  function Known1(route: string, bucket: string): Limiter<Id>
  {
    Limiter(map[route := 0], map[SharedKey(route, Named(bucket)) := 0], map[0 := BucketState(false, 0)], 0)
  }

  function Sent0(route: string): Event
  {
    Sent(0, route, 0, 0, 0)
  }

  function First(route: string, bucket: string): System
  {
    System(Known1(route, bucket), map[0 := Thread(route, Done)], 0, [Sent0(route)])
  }

  /** Before the first request's response, and after it. */
  function Waiting(route: string): System
  {
    System(Limiter(map[route := 0], map[], map[0 := BucketState(true, 0)], 0), map[0 := Thread(route, Sending(0, 0))], 0, [Sent0(route)])
  }

  function Responded(route: string, bucket: string): System
  {
    System(Limiter(map[route := 0], map[SharedKey(route, Named(bucket)) := 0], map[0 := BucketState(true, 0)], 0),
           map[0 := Thread(route, Answered(0, true))], 0, [Sent0(route)])
  }

  lemma WaitingReached(route: string) returns (more: seq<Action>)
    ensures Reaches(more, Waiting(route))
  {
    var s0 := System(Empty(), map[], 0, []);
    assert Reaches([], s0);
    more := Locks([], s0, 0, route, 0);
    var s1 := Locked(s0, 0, route, 0);
    more := Extended(more, s1, Send(0));
    assert Apply(s1, Send(0)) == Waiting(route);
  }

  lemma FirstReached(route: string, bucket: string) returns (more: seq<Action>)
    requires bucket != ""
    ensures Reaches(more, First(route, bucket))
  {
    more := WaitingReached(route);
    more := Extended(more, Waiting(route), Respond(0, Named(bucket)));
    assert Apply(Waiting(route), Respond(0, Named(bucket))) == Responded(route, bucket);
    more := Extended(more, Responded(route, bucket), Release(0));
    assert Apply(Responded(route, bucket), Release(0)) == First(route, bucket);
  }

  /** The state with a request waiting on bucket 0 and another one's response due on bucket 1. */
  function Late(route: string, other: string, bucket: string): System
  {
    var l := Limiter(map[route := 0, other := 1], map[SharedKey(route, Named(bucket)) := 0],
                     map[0 := BucketState(true, 0), 1 := BucketState(true, 0)], 0);
    System(l, map[0 := Thread(route, Done), 1 := Thread(route, Pausing(0, 0, 0, 1)), 2 := Thread(other, Sending(1, 1))], 0,
           [Sent0(route), Sent(2, other, 1, 0, 1)])
  }

  function BothLocked(route: string, other: string, bucket: string): System
  {
    Late(route, other, bucket).(threads := map[0 := Thread(route, Done), 1 := Thread(route, Pausing(0, 0, 0, 1)),
                                               2 := Thread(other, Pausing(1, 0, 0, 1))],
                                trace := [Sent0(route)])
  }

  lemma BothLock(route: string, other: string, bucket: string) returns (more: seq<Action>)
    requires bucket != "" && route != other
    ensures Reaches(more, BothLocked(route, other, bucket))
  {
    more := FirstReached(route, bucket);
    var s1 := First(route, bucket);
    more := Locks(more, s1, 1, route, 1);
    var s2 := Locked(s1, 1, route, 1);
    more := Locks(more, s2, 2, other, 1);
    assert Locked(s2, 2, other, 1) == BothLocked(route, other, bucket);
  }

  lemma LateReached(route: string, other: string, bucket: string) returns (more: seq<Action>)
    requires bucket != "" && route != other
    ensures Reaches(more, Late(route, other, bucket))
  {
    more := BothLock(route, other, bucket);
    var s := BothLocked(route, other, bucket);
    more := Extended(more, s, Send(2));
    assert Apply(s, Send(2)) == Late(route, other, bucket);
  }

  function Exhausting(bucket: string, delay: nat): Header
  {
    Header(bucket, Some(0), Some(delay))
  }

  lemma LateTarget(route: string, other: string, bucket: string, delay: nat)
    requires bucket != "" && Major(route) == Major(other)
    ensures Target(Late(route, other, bucket).l, other, 1, Exhausting(bucket, delay)) == 0
  {
    assert SharedKey(other, Exhausting(bucket, delay)) == SharedKey(route, Named(bucket));
  }

  /** A response and then a sending follow a state. */
  ghost predicate Follows(actions: seq<Action>, s: System, a: Action, b: Action)
  {
    && Reaches(actions, s) && Ready(s, a) && Reaches(actions + [a], Apply(s, a))
    && Ready(Apply(s, a), b) && Reaches(actions + [a, b], Apply(Apply(s, a), b))
  }

  lemma TwoSteps(actions: seq<Action>, s: System, a: Action, b: Action)
    requires Reaches(actions, s) && Enabled(s, a) && Ready(s, a) && Enabled(Apply(s, a), b)
    ensures Follows(actions, s, a, b)
  {
    var more := Extended(actions, s, a);
    more := Extended(more, Apply(s, a), b);
    assert more == actions + [a, b];
  }

  /**
   From the empty limiter, for any two routes with one major part, such as two methods of one
   path (RestLimits.TwoRoutes): while a request waits with
   the bucket's lock won, the other route's response brings the bucket a deadline, and the
   request is sent ahead of it.
   */
  lemma LateDeadlineOccurs(route: string, other: string, bucket: string, delay: nat) returns (actions: seq<Action>)
    requires route != other && Major(route) == Major(other) && bucket != "" && delay > 0
    ensures var s, answer := Late(route, other, bucket), Respond(2, Exhausting(bucket, delay));
            && Follows(actions, s, answer, Send(1))
            && (exists i :: i >= |s.trace| && PushedAt(Apply(s, answer).trace, i, 0, delay))
            && SentAt(Apply(Apply(s, answer), Send(1)).trace, |Apply(s, answer).trace|, 1, route, 0, 0, 1)
  {
    var s := Late(route, other, bucket);
    actions := LateReached(route, other, bucket);
    LateTarget(route, other, bucket, delay);
    LateDeadlineMissed(actions, s, 1, 2, Exhausting(bucket, delay));
    TwoSteps(actions, s, Respond(2, Exhausting(bucket, delay)), Send(1));
  }
}
