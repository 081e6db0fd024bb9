/**
 Any number of concurrent requests running the idempotency middleware against one store.
 A step is one region that runs under the store's lock, or one hand-over between two of
 them; every interleaving of steps is a run. Clock readings are chosen freely per request,
 so they need not agree with the order of the steps.
 */
module IdempotencyProtocol {
  import opened IdempotencyResponse
  import opened IdempotencyStore

  type Id = nat

  /** Where a request is in the middleware. */
  datatype Phase =
    | Acquiring            // about to take the lock in acquire
    | Waiting(id: Id)      // blocked on another request's entry
    | Running(id: Id)      // owner: the mutation handler is executing
    | Answered(id: Id)     // owner: completed, its own response is being written
    | Replaying(id: Id)    // about to write the stored response
    | Finished

  /** `now` is read once, before acquire, and reused each time acquire retries. */
  datatype Request = Request(key: string, fingerprint: string, now: Time, phase: Phase)

  datatype Event =
    | Presented(key: string, now: Time)
    | Owned(key: string, fingerprint: string, id: Id)
    | Completed(key: string, id: Id, expires: Time, response: Response)
    | Replayed(key: string, fingerprint: string, id: Id, response: Response)

  datatype System = System(store: Store<Id>, requests: map<nat, Request>, trace: seq<Event>, ttl: Time)

  datatype Action =
    | Arrive(t: nat, key: string, fingerprint: string, now: Time)
    | TryAcquire(t: nat, newId: Id)
    | Wake(t: nat)                                    // the awaited entry is done: retry
    | GiveUp(t: nat)                                  // the waiting request is cancelled
    | Finish(t: nat, response: Response, now: Time)   // the handler returned, overflowed or panicked
    | FinishAgain(t: nat, now: Time)                  // writing the response panicked: complete runs again
    | Return(t: nat)
    | DeliverReplay(t: nat)

  ghost predicate InPhase(s: System, t: nat, phase: Phase)
  {
    t in s.requests && s.requests[t].phase == phase
  }

  ghost predicate Enabled(s: System, a: Action)
  {
    match a
    case Arrive(t, _, _, _) => t !in s.requests
    case TryAcquire(t, newId) => InPhase(s, t, Acquiring) && newId !in s.store.heap
    case Wake(t) => t in s.requests && s.requests[t].phase.Waiting? && s.requests[t].phase.id in s.store.heap
                    && s.store.heap[s.requests[t].phase.id].done
    case GiveUp(t) => t in s.requests && s.requests[t].phase.Waiting?
    case Finish(t, _, _) => t in s.requests && s.requests[t].phase.Running?
    case FinishAgain(t, _) => t in s.requests && s.requests[t].phase.Answered?
    case Return(t) => t in s.requests && s.requests[t].phase.Answered?
    case DeliverReplay(t) => t in s.requests && s.requests[t].phase.Replaying?
  }

  function PhaseAfter(outcome: Outcome<Id>): Phase
  {
    match outcome
    case Owner(id) => Running(id)
    case Wait(id) => Waiting(id)
    case Replay(id) => Replaying(id)
    case Conflict(_) => Finished
    case StoreFull => Finished
    case TooManyWaiters => Finished
  }

  /** The parts of the invariant that make every step defined. */
  ghost predicate WellFormed(s: System)
  {
    && Linked(s.store)
    && forall t :: t in s.requests && s.requests[t].phase != Acquiring && s.requests[t].phase != Finished
         ==> s.requests[t].phase.id in s.store.heap
  }

  ghost function Moved(s: System, t: nat, phase: Phase): map<nat, Request>
    requires t in s.requests
  {
    s.requests[t := s.requests[t].(phase := phase)]
  }

  /** One step. `eager` selects the reference store that cleans up on every acquire. */
  ghost function Apply(s: System, a: Action, eager: bool): System
    requires WellFormed(s) && Enabled(s, a)
  {
    match a
    case Arrive(t, key, fingerprint, now) =>
      s.(requests := s.requests[t := Request(key, fingerprint, now, Acquiring)])
    case TryAcquire(t, newId) =>
      var r := s.requests[t];
      var (store, outcome) :=
        if eager then EagerAcquire(s.store, r.key, r.fingerprint, r.now, newId)
        else Acquire(s.store, r.key, r.fingerprint, r.now, newId);
      s.(store := store,
         requests := Moved(s, t, PhaseAfter(outcome)),
         trace := s.trace + [Presented(r.key, r.now)]
                  + if outcome.Owner? then [Owned(r.key, r.fingerprint, newId)] else [])
    case Wake(t) =>
      s.(store := Leave(s.store, s.requests[t].phase.id), requests := Moved(s, t, Acquiring))
    case GiveUp(t) =>
      s.(store := Leave(s.store, s.requests[t].phase.id), requests := Moved(s, t, Finished))
    case Finish(t, response, now) =>
      var r := s.requests[t];
      var store := Complete(s.store, r.key, r.phase.id, response, s.ttl, now);
      var e := store.heap[r.phase.id];
      s.(store := store,
         requests := Moved(s, t, Answered(r.phase.id)),
         trace := s.trace + [Completed(r.key, r.phase.id, e.expires, e.response)])
    case FinishAgain(t, now) =>
      var r := s.requests[t];
      s.(store := Complete(s.store, r.key, r.phase.id, Terminal(UnknownOutcome), s.ttl, now), requests := Moved(s, t, Finished))
    case Return(t) =>
      s.(requests := Moved(s, t, Finished))
    case DeliverReplay(t) =>
      var r := s.requests[t];
      s.(requests := Moved(s, t, Finished),
         trace := s.trace + [Replayed(r.key, r.fingerprint, r.phase.id, s.store.heap[r.phase.id].response)])
  }

  ghost predicate Init(s: System)
  {
    && s.store == Empty(s.store.maxEntries, s.store.maxBytes, s.store.maxWaiters)
    && s.store.maxEntries >= 1 && s.store.maxBytes >= 1 && s.store.maxWaiters >= 1
    && s.requests == map[] && s.trace == [] && s.ttl > 0
  }

  // ------------------------------------------------------------- invariant

  ghost predicate Stored(s: System, key: string, id: Id)
  {
    key in s.store.entries && s.store.entries[key] == id
  }

  ghost predicate OwnedAt(trace: seq<Event>, i: nat, key: string, fingerprint: string, id: Id)
  {
    i < |trace| && trace[i] == Owned(key, fingerprint, id)
  }

  ghost predicate CompletedAtIndex(trace: seq<Event>, c: nat, key: string, id: Id, expires: Time, response: Response)
  {
    c < |trace| && trace[c] == Completed(key, id, expires, response)
  }

  /** After position `i` the entry was completed, and later some acquire presented a time at or past its expiry. */
  ghost predicate RetiredAfter(trace: seq<Event>, i: nat, key: string, id: Id, c: nat, p: nat)
  {
    && i < c < p < |trace|
    && trace[c].Completed? && trace[c].key == key && trace[c].id == id
    && trace[p].Presented? && trace[p].now >= trace[c].expires
  }

  ghost predicate Retired(trace: seq<Event>, i: nat, key: string, id: Id)
  {
    exists c, p :: RetiredAfter(trace, i, key, id, c, p)
  }

  /** What holds of one request, by phase. */
  ghost predicate RequestOk(s: System, t: nat)
  {
    t in s.requests ==>
      var r := s.requests[t];
      match r.phase
      case Acquiring => true
      case Finished => true
      case Waiting(id) => id in s.store.heap
      case Running(id) => Stored(s, r.key, id) && id in s.store.heap && !s.store.heap[id].completed
                          && s.store.heap[id].fingerprint == r.fingerprint
      case Answered(id) => id in s.store.heap && s.store.heap[id].completed
      case Replaying(id) => id in s.store.heap && s.store.heap[id].completed && s.store.heap[id].fingerprint == r.fingerprint
                            && exists i :: OwnedAt(s.trace, i, r.key, r.fingerprint, id)
  }

  ghost predicate Requests(s: System)
  {
    forall t {:trigger RequestOk(s, t)} :: RequestOk(s, t)
  }

  /** An entry in flight is being executed by a request for its key. */
  ghost predicate Executing(s: System, t: nat, key: string, id: Id)
  {
    t in s.requests && s.requests[t].key == key && s.requests[t].phase == Running(id)
  }

  ghost predicate OwnersPresent(s: System)
  {
    forall key, id {:trigger Stored(s, key, id)} :: Stored(s, key, id) && id in s.store.heap && !s.store.heap[id].completed
      ==> exists t :: Executing(s, t, key, id)
  }

  ghost predicate OwnersUnique(s: System)
  {
    forall t1, t2, id {:trigger InPhase(s, t1, Running(id)), InPhase(s, t2, Running(id))} ::
      InPhase(s, t1, Running(id)) && InPhase(s, t2, Running(id)) ==> t1 == t2
  }

  ghost function WaitingOn(s: System, id: Id): set<nat>
  {
    set t | t in s.requests && s.requests[t].phase == Waiting(id)
  }

  ghost predicate WaitersCounted(s: System)
  {
    forall id {:trigger WaitingOn(s, id)} :: id in s.store.heap ==> s.store.heap[id].waiters == |WaitingOn(s, id)|
  }

  /** What each ownership in the trace says about the store. */
  ghost predicate OwnershipOk(s: System, i: nat, key: string, fingerprint: string, id: Id)
  {
    OwnedAt(s.trace, i, key, fingerprint, id) ==>
      && id in s.store.heap && s.store.heap[id].fingerprint == fingerprint
      && (Stored(s, key, id) || Retired(s.trace, i, key, id))
  }

  ghost predicate Ownerships(s: System)
  {
    forall i, key, fingerprint, id {:trigger OwnedAt(s.trace, i, key, fingerprint, id)} :: OwnershipOk(s, i, key, fingerprint, id)
  }

  /** Every entry was owned once, under the key it is stored under. */
  ghost predicate Born(s: System)
  {
    && (forall key, id {:trigger Stored(s, key, id)} :: Stored(s, key, id) && id in s.store.heap ==>
          exists i :: OwnedAt(s.trace, i, key, s.store.heap[id].fingerprint, id))
    && (forall i, j, k1, k2, f1, f2, id {:trigger OwnedAt(s.trace, i, k1, f1, id), OwnedAt(s.trace, j, k2, f2, id)} ::
          OwnedAt(s.trace, i, k1, f1, id) && OwnedAt(s.trace, j, k2, f2, id) ==> i == j)
  }

  /** Every completion in the trace is what the entry still holds. */
  ghost predicate Completions(s: System)
  {
    && (forall c, key, id, expires, response {:trigger CompletedAtIndex(s.trace, c, key, id, expires, response)} ::
          CompletedAtIndex(s.trace, c, key, id, expires, response) ==>
            && id in s.store.heap && s.store.heap[id].completed
            && s.store.heap[id].expires == expires && s.store.heap[id].response == response)
    && (forall c, d, k1, k2, id, e1, e2, r1, r2
          {:trigger CompletedAtIndex(s.trace, c, k1, id, e1, r1), CompletedAtIndex(s.trace, d, k2, id, e2, r2)} ::
          CompletedAtIndex(s.trace, c, k1, id, e1, r1) && CompletedAtIndex(s.trace, d, k2, id, e2, r2) ==> c == d)
  }

  /** A completion of an entry comes after its ownership and names the key it was owned under. */
  ghost predicate CompletionFollows(s: System, i: nat, key: string, id: Id)
    requires id in s.store.heap
  {
    exists c :: i < c && CompletedAtIndex(s.trace, c, key, id, s.store.heap[id].expires, s.store.heap[id].response)
  }

  ghost predicate CompletionsRecorded(s: System)
  {
    forall i, key, fingerprint, id {:trigger OwnedAt(s.trace, i, key, fingerprint, id)} ::
      OwnedAt(s.trace, i, key, fingerprint, id) && id in s.store.heap && s.store.heap[id].completed
      ==> CompletionFollows(s, i, key, id)
  }

  ghost predicate Good(s: System)
  {
    && Inv(s.store) && s.ttl > 0
    && Requests(s) && OwnersPresent(s) && OwnersUnique(s) && WaitersCounted(s)
    && Ownerships(s) && Born(s) && Completions(s) && CompletionsRecorded(s)
  }

  lemma GoodIsWellFormed(s: System)
    requires Linked(s.store) && Requests(s)
    ensures WellFormed(s)
  {
    forall t | t in s.requests && s.requests[t].phase != Acquiring && s.requests[t].phase != Finished
      ensures s.requests[t].phase.id in s.store.heap
    {
      assert RequestOk(s, t);
    }
  }

  // ----------------------------------------------------- the store's invariant

  lemma StepKeepsStore(s: System, a: Action)
    requires Inv(s.store) && s.ttl > 0 && Requests(s) && WaitersCounted(s) && WellFormed(s) && Enabled(s, a)
    ensures Inv(Apply(s, a, false).store)
  {
    match a
    case TryAcquire(t, newId) =>
      AcquireKeeps(s.store, s.requests[t].key, s.requests[t].fingerprint, s.requests[t].now, newId);
    case Wake(t) => LeaveKeeps(s, t);
    case GiveUp(t) => LeaveKeeps(s, t);
    case Finish(t, response, now) =>
      CompleteKeeps(s.store, s.requests[t].key, s.requests[t].phase.id, response, s.ttl, now);
    case FinishAgain(t, now) =>
      CompleteKeeps(s.store, s.requests[t].key, s.requests[t].phase.id, Terminal(UnknownOutcome), s.ttl, now);
    case _ =>
  }

  lemma LeaveKeeps(s: System, t: nat)
    requires Inv(s.store) && WaitersCounted(s) && t in s.requests && s.requests[t].phase.Waiting?
    requires s.requests[t].phase.id in s.store.heap
    ensures Inv(Leave(s.store, s.requests[t].phase.id))
  {
    var id := s.requests[t].phase.id;
    assert t in WaitingOn(s, id);
    assert GoodAt(s.store, id);
    WaitersKeep(s.store, id, s.store.heap[id].waiters - 1);
  }

  // ------------------------------------------------------- entries only grow up

  /** Entries are never forgotten, keep their fingerprint, and are written once. */
  ghost predicate Matures(s: Store<Id>, s': Store<Id>)
  {
    forall id :: id in s.heap ==>
      && id in s'.heap && s'.heap[id].fingerprint == s.heap[id].fingerprint
      && (s.heap[id].completed ==> s'.heap[id].completed && s'.heap[id].expires == s.heap[id].expires
                                   && s'.heap[id].response == s.heap[id].response)
  }

  lemma StepMatures(s: System, a: Action)
    requires WellFormed(s) && Enabled(s, a)
    ensures Matures(s.store, Apply(s, a, false).store)
  {
    if a.TryAcquire? {
      AcquireEffect(s.store, s.requests[a.t].key, s.requests[a.t].fingerprint, s.requests[a.t].now, a.newId);
    }
  }

  /** Stored entries stay stored, except that an acquire at or past its expiry may evict a completed one. */
  ghost predicate Evicts(s: System, a: Action, key: string, id: Id)
    requires WellFormed(s) && Enabled(s, a)
  {
    && a.TryAcquire? && id in s.store.heap && s.store.heap[id].completed
    && s.store.heap[id].expires <= s.requests[a.t].now
  }

  lemma StepKeepsStored(s: System, a: Action, key: string, id: Id)
    requires WellFormed(s) && Enabled(s, a) && Stored(s, key, id)
    ensures Stored(Apply(s, a, false), key, id) || Evicts(s, a, key, id)
  {
    if a.TryAcquire? {
      AcquireEffect(s.store, s.requests[a.t].key, s.requests[a.t].fingerprint, s.requests[a.t].now, a.newId);
      assert Expired(s.store, key, s.requests[a.t].now) ==> CompletedAt(s.store, key);
    }
  }

  /** A new entry appears under a key only for the request that has just become its owner. */
  lemma StepStores(s: System, a: Action, key: string, id: Id)
    requires WellFormed(s) && Enabled(s, a) && Stored(Apply(s, a, false), key, id) && !Stored(s, key, id)
    ensures a.TryAcquire? && id == a.newId && id !in s.store.heap && Executing(Apply(s, a, false), a.t, key, id)
    ensures Apply(s, a, false).store.heap[id] == NewEntry(s.requests[a.t].fingerprint)
    ensures Apply(s, a, false).trace == s.trace + [Presented(key, s.requests[a.t].now), Owned(key, s.requests[a.t].fingerprint, id)]
  {
    if a.TryAcquire? {
      AcquireEffect(s.store, s.requests[a.t].key, s.requests[a.t].fingerprint, s.requests[a.t].now, a.newId);
    }
  }

  // ---------------------------------------------------------------- requests

  lemma StepKeepsRequests(s: System, a: Action)
    requires Requests(s) && WellFormed(s) && OwnersUnique(s) && Born(s) && Enabled(s, a)
    ensures Requests(Apply(s, a, false))
  {
    var s' := Apply(s, a, false);
    StepMatures(s, a);
    forall t
      ensures RequestOk(s', t)
    {
      if t == a.t {
        StepKeepsActor(s, a);
      } else {
        StepKeepsBystander(s, a, t);
      }
    }
  }

  lemma StepKeepsActor(s: System, a: Action)
    requires Requests(s) && WellFormed(s) && Born(s) && Enabled(s, a)
    ensures RequestOk(Apply(s, a, false), a.t)
  {
    assert RequestOk(s, a.t);
    if a.TryAcquire? {
      AcquireActor(s, a);
    }
  }

  lemma AcquireActor(s: System, a: Action)
    requires WellFormed(s) && Born(s) && a.TryAcquire? && Enabled(s, a)
    ensures RequestOk(Apply(s, a, false), a.t)
  {
    var r := s.requests[a.t];
    var s' := Apply(s, a, false);
    AcquireEffect(s.store, r.key, r.fingerprint, r.now, a.newId);
    var outcome := Acquire(s.store, r.key, r.fingerprint, r.now, a.newId).1;
    if outcome.Replay? {
      assert Stored(s, r.key, outcome.id);
      var i :| OwnedAt(s.trace, i, r.key, r.fingerprint, outcome.id);
      assert OwnedAt(s'.trace, i, r.key, r.fingerprint, outcome.id);
    }
  }

  lemma StepKeepsBystander(s: System, a: Action, t: nat)
    requires Requests(s) && WellFormed(s) && OwnersUnique(s) && Enabled(s, a) && t != a.t
    requires Matures(s.store, Apply(s, a, false).store)
    ensures RequestOk(Apply(s, a, false), t)
  {
    var s' := Apply(s, a, false);
    assert RequestOk(s, t);
    if t in s'.requests {
      var r := s.requests[t];
      assert s'.requests[t] == r;
      if r.phase.Running? {
        var id := r.phase.id;
        StepKeepsStored(s, a, r.key, id);
        StepKeepsUnfinished(s, a, t, id);
      } else if r.phase.Replaying? {
        var i :| OwnedAt(s.trace, i, r.key, r.fingerprint, r.phase.id);
        assert OwnedAt(s'.trace, i, r.key, r.fingerprint, r.phase.id);
      }
    }
  }

  /** Nobody but its owner completes an entry. */
  lemma StepKeepsUnfinished(s: System, a: Action, t: nat, id: Id)
    requires Requests(s) && WellFormed(s) && OwnersUnique(s) && Enabled(s, a) && t != a.t
    requires InPhase(s, t, Running(id)) && id in s.store.heap && !s.store.heap[id].completed
    ensures id in Apply(s, a, false).store.heap && !Apply(s, a, false).store.heap[id].completed
  {
    if a.TryAcquire? {
      AcquireEffect(s.store, s.requests[a.t].key, s.requests[a.t].fingerprint, s.requests[a.t].now, a.newId);
    } else if a.Finish? || a.FinishAgain? {
      assert RequestOk(s, a.t);
      assert InPhase(s, a.t, Running(id)) ==> a.t == t;
    }
  }

  // ------------------------------------------------------------------- owners

  lemma StepKeepsOwnersPresent(s: System, a: Action)
    requires Requests(s) && WellFormed(s) && OwnersPresent(s) && Enabled(s, a)
    ensures OwnersPresent(Apply(s, a, false))
  {
    var s' := Apply(s, a, false);
    forall key, id | Stored(s', key, id) && id in s'.store.heap && !s'.store.heap[id].completed
      ensures exists t :: Executing(s', t, key, id)
    {
      if Stored(s, key, id) {
        OwnerStays(s, a, key, id);
      } else {
        StepStores(s, a, key, id);
      }
    }
  }

  lemma OwnerStays(s: System, a: Action, key: string, id: Id)
    requires Requests(s) && WellFormed(s) && OwnersPresent(s) && Enabled(s, a) && Stored(s, key, id)
    requires id in Apply(s, a, false).store.heap && !Apply(s, a, false).store.heap[id].completed
    ensures exists t :: Executing(Apply(s, a, false), t, key, id)
  {
    var s' := Apply(s, a, false);
    StepMatures(s, a);
    assert id in s.store.heap && !s.store.heap[id].completed;
    var t :| Executing(s, t, key, id);
    assert !(a.Finish? && a.t == t);
    assert Executing(s', t, key, id);
  }

  lemma StepKeepsOwnersUnique(s: System, a: Action)
    requires Requests(s) && WellFormed(s) && OwnersUnique(s) && Enabled(s, a)
    ensures OwnersUnique(Apply(s, a, false))
  {
    var s' := Apply(s, a, false);
    forall t1, t2, id | InPhase(s', t1, Running(id)) && InPhase(s', t2, Running(id))
      ensures t1 == t2
    {
      RunningBefore(s, a, t1, id);
      RunningBefore(s, a, t2, id);
      assert InPhase(s, t1, Running(id)) ==> RequestOk(s, t1);
      assert InPhase(s, t2, Running(id)) ==> RequestOk(s, t2);
    }
  }

  lemma RunningBefore(s: System, a: Action, t: nat, id: Id)
    requires WellFormed(s) && Enabled(s, a) && InPhase(Apply(s, a, false), t, Running(id))
    ensures InPhase(s, t, Running(id)) || (t == a.t && a.TryAcquire? && id == a.newId && id !in s.store.heap)
  {
    if a.TryAcquire? {
      AcquireEffect(s.store, s.requests[a.t].key, s.requests[a.t].fingerprint, s.requests[a.t].now, a.newId);
    }
  }

  // ------------------------------------------------------------------ waiters

  lemma StepKeepsWaiters(s: System, a: Action)
    requires Requests(s) && WellFormed(s) && WaitersCounted(s) && Enabled(s, a)
    ensures WaitersCounted(Apply(s, a, false))
  {
    var s' := Apply(s, a, false);
    forall id | id in s'.store.heap
      ensures s'.store.heap[id].waiters == |WaitingOn(s', id)|
    {
      match a
      case TryAcquire(_, _) => AcquireWaiters(s, a, id);
      case Wake(_) => LeaveWaiters(s, a, id);
      case GiveUp(_) => LeaveWaiters(s, a, id);
      case _ => assert WaitingOn(s', id) == WaitingOn(s, id);
    }
  }

  lemma LeaveWaiters(s: System, a: Action, id: Id)
    requires WellFormed(s) && WaitersCounted(s) && Enabled(s, a) && (a.Wake? || a.GiveUp?) && id in s.store.heap
    ensures Apply(s, a, false).store.heap[id].waiters == |WaitingOn(Apply(s, a, false), id)|
  {
    var s' := Apply(s, a, false);
    assert s.store.heap[id].waiters == |WaitingOn(s, id)|;
    if s.requests[a.t].phase == Waiting(id) {
      assert WaitingOn(s', id) == WaitingOn(s, id) - {a.t};
    } else {
      assert WaitingOn(s', id) == WaitingOn(s, id);
    }
  }

  lemma AcquireWaiters(s: System, a: Action, id: Id)
    requires Requests(s) && WellFormed(s) && WaitersCounted(s) && a.TryAcquire? && Enabled(s, a)
    requires id in Apply(s, a, false).store.heap
    ensures Apply(s, a, false).store.heap[id].waiters == |WaitingOn(Apply(s, a, false), id)|
  {
    var r := s.requests[a.t];
    var s' := Apply(s, a, false);
    AcquireEffect(s.store, r.key, r.fingerprint, r.now, a.newId);
    var outcome := Acquire(s.store, r.key, r.fingerprint, r.now, a.newId).1;
    if id == a.newId {
      assert WaitingOn(s, id) == {} by {
        forall t ensures t !in WaitingOn(s, id) { assert RequestOk(s, t); }
      }
      assert WaitingOn(s', id) == {};
    } else {
      assert s.store.heap[id].waiters == |WaitingOn(s, id)|;
      assert WaitingOn(s', id) == WaitingOn(s, id) + if outcome == Wait(id) then {a.t} else {};
    }
  }

  // -------------------------------------------------------------------- trace

  lemma StepTrace(s: System, a: Action)
    requires WellFormed(s) && Enabled(s, a)
    ensures s.trace <= Apply(s, a, false).trace
    ensures forall i, key, fingerprint, id {:trigger OwnedAt(Apply(s, a, false).trace, i, key, fingerprint, id)} ::
              OwnedAt(Apply(s, a, false).trace, i, key, fingerprint, id) ==>
                OwnedAt(s.trace, i, key, fingerprint, id) || NewOwnership(s, a, i, key, fingerprint, id)
    ensures forall c, key, id, expires, response {:trigger CompletedAtIndex(Apply(s, a, false).trace, c, key, id, expires, response)} ::
              CompletedAtIndex(Apply(s, a, false).trace, c, key, id, expires, response) ==>
                CompletedAtIndex(s.trace, c, key, id, expires, response) || NewCompletion(s, a, c, key, id, expires, response)
  {
    if a.TryAcquire? {
      AcquireEffect(s.store, s.requests[a.t].key, s.requests[a.t].fingerprint, s.requests[a.t].now, a.newId);
    }
  }

  ghost predicate NewOwnership(s: System, a: Action, i: nat, key: string, fingerprint: string, id: Id)
    requires WellFormed(s) && Enabled(s, a)
  {
    && a.TryAcquire? && i == |s.trace| + 1 && id == a.newId && id !in s.store.heap
    && key == s.requests[a.t].key && fingerprint == s.requests[a.t].fingerprint
    && Apply(s, a, false).store.heap == s.store.heap[id := NewEntry(fingerprint)]
    && Stored(Apply(s, a, false), key, id)
  }

  ghost predicate NewCompletion(s: System, a: Action, c: nat, key: string, id: Id, expires: Time, response: Response)
    requires WellFormed(s) && Enabled(s, a)
  {
    && a.Finish? && c == |s.trace| && s.requests[a.t].phase == Running(id) && key == s.requests[a.t].key
    && Apply(s, a, false).store.heap[id].expires == expires
    && Apply(s, a, false).store.heap[id].response == response
  }

  lemma RetiredGrows(trace: seq<Event>, trace': seq<Event>, i: nat, key: string, id: Id)
    requires trace <= trace' && Retired(trace, i, key, id)
    ensures Retired(trace', i, key, id)
  {
    var c, p :| RetiredAfter(trace, i, key, id, c, p);
    assert RetiredAfter(trace', i, key, id, c, p);
  }

  /** An eviction completes the evidence that the entry's ownership is over. */
  lemma EvictionRetires(s: System, a: Action, i: nat, key: string, fingerprint: string, id: Id)
    requires WellFormed(s) && CompletionsRecorded(s) && Enabled(s, a) && Evicts(s, a, key, id)
    requires OwnedAt(s.trace, i, key, fingerprint, id)
    ensures Retired(s.trace + [Presented(s.requests[a.t].key, s.requests[a.t].now)], i, key, id)
  {
    assert CompletionFollows(s, i, key, id);
    var c :| i < c && CompletedAtIndex(s.trace, c, key, id, s.store.heap[id].expires, s.store.heap[id].response);
    assert RetiredAfter(s.trace + [Presented(s.requests[a.t].key, s.requests[a.t].now)], i, key, id, c, |s.trace|);
  }

  lemma StepKeepsOwnerships(s: System, a: Action)
    requires WellFormed(s) && Ownerships(s) && CompletionsRecorded(s) && Enabled(s, a)
    ensures Ownerships(Apply(s, a, false))
  {
    var s' := Apply(s, a, false);
    StepTrace(s, a);
    StepMatures(s, a);
    forall i, key, fingerprint, id | OwnedAt(s'.trace, i, key, fingerprint, id)
      ensures OwnershipOk(s', i, key, fingerprint, id)
    {
      if OwnedAt(s.trace, i, key, fingerprint, id) {
        assert OwnershipOk(s, i, key, fingerprint, id);
        OwnershipStays(s, a, i, key, fingerprint, id);
      }
    }
  }

  lemma OwnershipStays(s: System, a: Action, i: nat, key: string, fingerprint: string, id: Id)
    requires WellFormed(s) && CompletionsRecorded(s) && Enabled(s, a)
    requires OwnedAt(s.trace, i, key, fingerprint, id) && OwnershipOk(s, i, key, fingerprint, id)
    ensures Stored(Apply(s, a, false), key, id) || Retired(Apply(s, a, false).trace, i, key, id)
  {
    var s' := Apply(s, a, false);
    if Stored(s, key, id) {
      StepKeepsStored(s, a, key, id);
      if !Stored(s', key, id) {
        EvictionRetires(s, a, i, key, fingerprint, id);
        RetiredGrows(s.trace + [Presented(s.requests[a.t].key, s.requests[a.t].now)], s'.trace, i, key, id);
      }
    } else {
      StepTrace(s, a);
      RetiredGrows(s.trace, s'.trace, i, key, id);
    }
  }

  lemma StepKeepsBorn(s: System, a: Action)
    requires WellFormed(s) && Born(s) && Ownerships(s) && Enabled(s, a)
    ensures Born(Apply(s, a, false))
  {
    var s' := Apply(s, a, false);
    StepTrace(s, a);
    StepMatures(s, a);
    forall key, id | Stored(s', key, id) && id in s'.store.heap
      ensures exists i :: OwnedAt(s'.trace, i, key, s'.store.heap[id].fingerprint, id)
    {
      if Stored(s, key, id) {
        var i :| OwnedAt(s.trace, i, key, s.store.heap[id].fingerprint, id);
        assert OwnedAt(s'.trace, i, key, s'.store.heap[id].fingerprint, id);
      } else {
        StepStores(s, a, key, id);
        assert OwnedAt(s'.trace, |s.trace| + 1, key, s'.store.heap[id].fingerprint, id);
      }
    }
    forall i, j, k1, k2, f1, f2, id | OwnedAt(s'.trace, i, k1, f1, id) && OwnedAt(s'.trace, j, k2, f2, id)
      ensures i == j
    {
      assert OwnedAt(s.trace, i, k1, f1, id) ==> OwnershipOk(s, i, k1, f1, id);
      assert OwnedAt(s.trace, j, k2, f2, id) ==> OwnershipOk(s, j, k2, f2, id);
    }
  }

  lemma StepKeepsCompletions(s: System, a: Action)
    requires Requests(s) && WellFormed(s) && Completions(s) && Enabled(s, a)
    ensures Completions(Apply(s, a, false))
  {
    var s' := Apply(s, a, false);
    StepTrace(s, a);
    StepMatures(s, a);
    assert RequestOk(s, a.t);
    forall c, d, k1, k2, id, e1, e2, r1, r2 |
      CompletedAtIndex(s'.trace, c, k1, id, e1, r1) && CompletedAtIndex(s'.trace, d, k2, id, e2, r2)
      ensures c == d
    {
    }
  }

  lemma StepKeepsCompletionsRecorded(s: System, a: Action)
    requires Requests(s) && WellFormed(s) && Born(s) && Ownerships(s) && CompletionsRecorded(s) && Enabled(s, a)
    ensures CompletionsRecorded(Apply(s, a, false))
  {
    var s' := Apply(s, a, false);
    StepTrace(s, a);
    StepMatures(s, a);
    forall i, key, fingerprint, id | OwnedAt(s'.trace, i, key, fingerprint, id) && id in s'.store.heap && s'.store.heap[id].completed
      ensures CompletionFollows(s', i, key, id)
    {
      assert OwnedAt(s.trace, i, key, fingerprint, id);
      assert OwnershipOk(s, i, key, fingerprint, id);
      if s.store.heap[id].completed {
        assert CompletionFollows(s, i, key, id);
        var c :| i < c && CompletedAtIndex(s.trace, c, key, id, s.store.heap[id].expires, s.store.heap[id].response);
        assert CompletedAtIndex(s'.trace, c, key, id, s'.store.heap[id].expires, s'.store.heap[id].response);
      } else {
        FinishRecords(s, a, i, key, fingerprint, id);
      }
    }
  }

  lemma FinishRecords(s: System, a: Action, i: nat, key: string, fingerprint: string, id: Id)
    requires Requests(s) && WellFormed(s) && Born(s) && Enabled(s, a)
    requires OwnedAt(s.trace, i, key, fingerprint, id)
    requires id in s.store.heap && !s.store.heap[id].completed
    requires id in Apply(s, a, false).store.heap && Apply(s, a, false).store.heap[id].completed
    ensures CompletionFollows(Apply(s, a, false), i, key, id)
  {
    var s' := Apply(s, a, false);
    if a.TryAcquire? {
      AcquireEffect(s.store, s.requests[a.t].key, s.requests[a.t].fingerprint, s.requests[a.t].now, a.newId);
    }
    assert RequestOk(s, a.t);
    var r := s.requests[a.t];
    assert a.Finish? && r.phase == Running(id) && Stored(s, r.key, id);
    var j :| OwnedAt(s.trace, j, r.key, s.store.heap[id].fingerprint, id);
    assert j == i;
    assert CompletedAtIndex(s'.trace, |s.trace|, key, id, s'.store.heap[id].expires, s'.store.heap[id].response);
  }

  /** Every step of every interleaving keeps the invariant. */
  lemma StepKeepsGood(s: System, a: Action)
    requires Good(s) && Enabled(s, a)
    ensures WellFormed(s) && Good(Apply(s, a, false))
  {
    GoodIsWellFormed(s);
    StepKeepsStore(s, a);
    StepKeepsRequests(s, a);
    StepKeepsOwnersPresent(s, a);
    StepKeepsOwnersUnique(s, a);
    StepKeepsWaiters(s, a);
    StepKeepsOwnerships(s, a);
    StepKeepsBorn(s, a);
    StepKeepsCompletions(s, a);
    StepKeepsCompletionsRecorded(s, a);
  }

  // --------------------------------------------------------------------- runs

  /** `s` is reached from an empty store by the actions in order. */
  ghost predicate Reaches(actions: seq<Action>, s: System)
    decreases |actions|, 1
  {
    if actions == [] then Init(s)
    else exists before :: StepsTo(actions, before, s)
  }

  ghost predicate StepsTo(actions: seq<Action>, before: System, s: System)
    requires actions != []
    decreases |actions|, 0
  {
    var last := |actions| - 1;
    Reaches(actions[..last], before) && WellFormed(before) && Enabled(before, actions[last]) && s == Apply(before, actions[last], false)
  }

  lemma NothingTraced(s: System)
    requires s.trace == [] && s.store.entries == map[]
    ensures Ownerships(s) && Born(s) && Completions(s) && CompletionsRecorded(s)
  {
    forall i, key, fingerprint, id
      ensures !OwnedAt(s.trace, i, key, fingerprint, id)
    {
    }
    forall i, key, fingerprint, id
      ensures OwnershipOk(s, i, key, fingerprint, id)
    {
      assert !OwnedAt(s.trace, i, key, fingerprint, id);
    }
  }

  lemma InitIsGood(s: System)
    requires Init(s)
    ensures Good(s)
  {
    NothingTraced(s);
  }

  lemma {:induction false} ReachableIsGood(actions: seq<Action>, s: System)
    requires Reaches(actions, s)
    ensures Good(s) && WellFormed(s)
  {
    if actions == [] {
      InitIsGood(s);
    } else {
      var before :| StepsTo(actions, before, s);
      ReachableIsGood(actions[..|actions| - 1], before);
      StepKeepsGood(before, actions[|actions| - 1]);
    }
    GoodIsWellFormed(s);
  }

  /**
   At most one execution at a time: over every interleaving a key has at most one running
   owner, an entry in flight has exactly one, and an owner's entry is never evicted or replaced.
   */
  lemma OneRunningOwner(actions: seq<Action>, s: System, t1: nat, t2: nat)
    requires Reaches(actions, s)
    requires t1 in s.requests && t2 in s.requests && s.requests[t1].key == s.requests[t2].key
    requires s.requests[t1].phase.Running? && s.requests[t2].phase.Running?
    ensures t1 == t2
    ensures Stored(s, s.requests[t1].key, s.requests[t1].phase.id)
  {
    ReachableIsGood(actions, s);
    assert RequestOk(s, t1) && RequestOk(s, t2);
    assert InPhase(s, t1, Running(s.requests[t1].phase.id)) && InPhase(s, t2, Running(s.requests[t1].phase.id));
  }

  lemma InFlightIsOwned(actions: seq<Action>, s: System, key: string)
    requires Reaches(actions, s) && key in s.store.entries
    ensures s.store.entries[key] in s.store.heap
    ensures !s.store.heap[s.store.entries[key]].completed ==> exists t :: Executing(s, t, key, s.store.entries[key])
  {
    ReachableIsGood(actions, s);
    assert Stored(s, key, s.store.entries[key]);
  }

  /** Two ownerships of one key are separated by a completion and an acquire at or past its expiry. */
  lemma {:induction false} ReexecutionNeedsExpiry(
    actions: seq<Action>, s: System, i: nat, j: nat, key: string, f1: string, f2: string, id1: Id, id2: Id)
    requires Reaches(actions, s) && i < j
    requires OwnedAt(s.trace, i, key, f1, id1) && OwnedAt(s.trace, j, key, f2, id2)
    ensures id1 != id2 && Retired(s.trace[..j], i, key, id1)
  {
    var last := |actions| - 1;
    var before :| StepsTo(actions, before, s);
    ReachableIsGood(actions[..last], before);
    StepTrace(before, actions[last]);
    assert OwnedAt(before.trace, i, key, f1, id1);
    if OwnedAt(before.trace, j, key, f2, id2) {
      ReexecutionNeedsExpiry(actions[..last], before, i, j, key, f1, f2, id1, id2);
      assert s.trace[..j] == before.trace[..j];
    } else {
      NewOwnerAfterExpiry(before, actions[last], i, j, key, f1, f2, id1, id2);
    }
  }

  lemma NewOwnerAfterExpiry(s: System, a: Action, i: nat, j: nat, key: string, f1: string, f2: string, id1: Id, id2: Id)
    requires WellFormed(s) && Ownerships(s) && CompletionsRecorded(s) && Enabled(s, a)
    requires OwnedAt(s.trace, i, key, f1, id1) && NewOwnership(s, a, j, key, f2, id2)
    ensures id1 != id2 && Retired(s.trace + [Presented(key, s.requests[a.t].now)], i, key, id1)
    ensures Apply(s, a, false).trace[..j] == s.trace + [Presented(key, s.requests[a.t].now)]
  {
    assert OwnershipOk(s, i, key, f1, id1);
    if Stored(s, key, id1) {
      AcquireEffect(s.store, key, f2, s.requests[a.t].now, a.newId);
      assert CompletedAt(s.store, key);
      EvictionRetires(s, a, i, key, f1, id1);
    } else {
      RetiredGrows(s.trace, s.trace + [Presented(key, s.requests[a.t].now)], i, key, id1);
    }
  }

  ghost predicate ReplayedAt(trace: seq<Event>, n: nat, key: string, fingerprint: string, id: Id, response: Response)
  {
    n < |trace| && trace[n] == Replayed(key, fingerprint, id, response)
  }

  /** The execution a replay stands for: same key, same fingerprint, completed with that very response. */
  ghost predicate ReplayExplained(trace: seq<Event>, i: nat, c: nat, key: string, fingerprint: string, id: Id, expires: Time, response: Response)
  {
    OwnedAt(trace, i, key, fingerprint, id) && CompletedAtIndex(trace, c, key, id, expires, response)
  }

  lemma {:induction false} ReplaysAreFaithful(
    actions: seq<Action>, s: System, n: nat, key: string, fingerprint: string, id: Id, response: Response)
    requires Reaches(actions, s) && ReplayedAt(s.trace, n, key, fingerprint, id, response)
    ensures exists i: nat, c: nat, expires: Time :: i < c < n && ReplayExplained(s.trace, i, c, key, fingerprint, id, expires, response)
  {
    var last := |actions| - 1;
    var before :| StepsTo(actions, before, s);
    ReachableIsGood(actions[..last], before);
    StepTrace(before, actions[last]);
    if ReplayedAt(before.trace, n, key, fingerprint, id, response) {
      ReplaysAreFaithful(actions[..last], before, n, key, fingerprint, id, response);
      var i: nat, c: nat, expires: Time :| i < c < n && ReplayExplained(before.trace, i, c, key, fingerprint, id, expires, response);
      assert ReplayExplained(s.trace, i, c, key, fingerprint, id, expires, response);
    } else {
      assert RequestOk(before, actions[last].t);
      var i :| OwnedAt(before.trace, i, key, fingerprint, id);
      assert CompletionFollows(before, i, key, id);
      var e := before.store.heap[id];
      var c :| i < c && CompletedAtIndex(before.trace, c, key, id, e.expires, e.response);
      assert ReplayExplained(s.trace, i, c, key, fingerprint, id, e.expires, response);
    }
  }

  /** An entry completes once, so all its replays carry the same response. */
  lemma ReplaysAgree(
    actions: seq<Action>, s: System, m: nat, n: nat, k1: string, k2: string, f1: string, f2: string, id: Id, r1: Response, r2: Response)
    requires Reaches(actions, s)
    requires ReplayedAt(s.trace, m, k1, f1, id, r1) && ReplayedAt(s.trace, n, k2, f2, id, r2)
    ensures k1 == k2 && f1 == f2 && r1 == r2
  {
    ReachableIsGood(actions, s);
    ReplaysAreFaithful(actions, s, m, k1, f1, id, r1);
    ReplaysAreFaithful(actions, s, n, k2, f2, id, r2);
    var i: nat, c: nat, e1: Time :| i < c < m && ReplayExplained(s.trace, i, c, k1, f1, id, e1, r1);
    var j: nat, d: nat, e2: Time :| j < d < n && ReplayExplained(s.trace, j, d, k2, f2, id, e2, r2);
    assert OwnedAt(s.trace, i, k1, f1, id) && OwnedAt(s.trace, j, k2, f2, id);
    assert CompletedAtIndex(s.trace, c, k1, id, e1, r1) && CompletedAtIndex(s.trace, d, k2, id, e2, r2);
  }

  /** The owner's completion always takes effect, and a second one changes nothing. */
  lemma CompletionTakesOnce(actions: seq<Action>, s: System, t: nat, response: Response, now: Time)
    requires Reaches(actions, s) && t in s.requests
    ensures s.requests[t].phase.Running? ==>
              var id := s.requests[t].phase.id;
              Enabled(s, Finish(t, response, now)) && WellFormed(s) && id in s.store.heap &&
              var after := Apply(s, Finish(t, response, now), false).store.heap[id];
              && !s.store.heap[id].done && after.done && after.completed && after.expires == now + s.ttl
              && after.response == Fitted(response, s.store.usedBytes, s.store.maxBytes)
    ensures s.requests[t].phase.Answered? ==>
              Enabled(s, FinishAgain(t, now)) && WellFormed(s) && Apply(s, FinishAgain(t, now), false).store == s.store
  {
    ReachableIsGood(actions, s);
    assert RequestOk(s, t);
    if s.requests[t].phase.Running? {
      assert GoodAt(s.store, s.requests[t].phase.id);
    }
  }

  /** Byte, entry and waiter budgets are exact and respected in every reachable state. */
  lemma BudgetsHold(actions: seq<Action>, s: System, id: Id)
    requires Reaches(actions, s)
    ensures Accounted(s.store)
    ensures id in s.store.heap ==>
              && s.store.heap[id].waiters == |WaitingOn(s, id)| <= s.store.maxWaiters
              && (s.store.heap[id].done <==> s.store.heap[id].completed)
              && (s.store.heap[id].completed ==> s.store.heap[id].size == Size(s.store.heap[id].response))
  {
    ReachableIsGood(actions, s);
    if id in s.store.heap {
      assert GoodAt(s.store, id);
      assert |WaitingOn(s, id)| == s.store.heap[id].waiters;
    }
  }

  // ------------------------------------------------------- lazy cleanup is exact

  /** The same run of the reference store that cleans up on every acquire. */
  ghost predicate EagerReaches(actions: seq<Action>, s: System)
    decreases |actions|, 1
  {
    if actions == [] then Init(s)
    else exists before :: EagerStepsTo(actions, before, s)
  }

  ghost predicate EagerStepsTo(actions: seq<Action>, before: System, s: System)
    requires actions != []
    decreases |actions|, 0
  {
    var last := |actions| - 1;
    EagerReaches(actions[..last], before) && WellFormed(before) && Enabled(before, actions[last]) && s == Apply(before, actions[last], true)
  }

  ghost predicate SameBehaviour(s: System, e: System)
  {
    SameUpToSchedule(s.store, e.store) && e == s.(store := e.store)
  }

  lemma SameBehaviourIsWellFormed(s: System, e: System, a: Action)
    requires WellFormed(s) && SameBehaviour(s, e) && Enabled(s, a)
    ensures WellFormed(e) && Enabled(e, a)
  {
  }

  lemma LazyAcquireStep(s: System, e: System, a: Action)
    requires Inv(s.store) && WellFormed(s) && WellFormed(e) && SameBehaviour(s, e) && a.TryAcquire? && Enabled(s, a) && Enabled(e, a)
    ensures SameBehaviour(Apply(s, a, false), Apply(e, a, true))
  {
    var r := s.requests[a.t];
    LazyAcquireIsEager(s.store, e.store, r.key, r.fingerprint, r.now, a.newId);
  }

  lemma LazyCompleteStep(s: System, e: System, a: Action, response: Response)
    requires WellFormed(s) && WellFormed(e) && SameBehaviour(s, e) && Enabled(s, a) && Enabled(e, a)
    requires (a.Finish? && response == a.response) || (a.FinishAgain? && response == Terminal(UnknownOutcome))
    ensures SameBehaviour(Apply(s, a, false), Apply(e, a, true))
  {
    var r := s.requests[a.t];
    CompleteIgnoresSchedule(s.store, e.store, r.key, r.phase.id, response, s.ttl, a.now);
  }

  lemma LazyOtherStep(s: System, e: System, a: Action)
    requires WellFormed(s) && WellFormed(e) && SameBehaviour(s, e) && Enabled(s, a) && Enabled(e, a)
    requires !a.TryAcquire? && !a.Finish? && !a.FinishAgain?
    ensures SameBehaviour(Apply(s, a, false), Apply(e, a, true))
  {
  }

  lemma LazyStepIsEager(s: System, e: System, a: Action)
    requires Inv(s.store) && WellFormed(s) && SameBehaviour(s, e) && Enabled(s, a)
    ensures WellFormed(e) && Enabled(e, a) && SameBehaviour(Apply(s, a, false), Apply(e, a, true))
  {
    SameBehaviourIsWellFormed(s, e, a);
    match a
    case TryAcquire(_, _) => LazyAcquireStep(s, e, a);
    case Finish(_, response, _) => LazyCompleteStep(s, e, a, response);
    case FinishAgain(_, _) => LazyCompleteStep(s, e, a, Terminal(UnknownOutcome));
    case _ => LazyOtherStep(s, e, a);
  }

  /**
   Lazy cleanup is exact over every run: the reference store that forgets expired entries on
   every acquire can take the same steps, gives the same answers and keeps the same entries.
   */
  lemma {:induction false} LazyRunIsEager(actions: seq<Action>, s: System) returns (e: System)
    requires Reaches(actions, s)
    ensures EagerReaches(actions, e) && SameBehaviour(s, e)
  {
    if actions == [] {
      e := s;
    } else {
      var last := |actions| - 1;
      var before :| StepsTo(actions, before, s);
      var e' := LazyRunIsEager(actions[..last], before);
      ReachableIsGood(actions[..last], before);
      LazyStepIsEager(before, e', actions[last]);
      e := Apply(e', actions[last], true);
      assert EagerStepsTo(actions, e', e);
    }
  }
}
