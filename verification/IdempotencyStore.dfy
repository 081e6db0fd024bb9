/**
 The process-local idempotency store. `Store` is its state at one instant; each function
 below is one region of code that runs while the store's mutex is held. Entries are
 reached through identities of type `Id`, because the code compares entries by identity
 and keeps using an entry after it has been evicted from the map.
 */
module IdempotencyStore {
  import opened Sums
  import opened IdempotencyResponse

  /** Nanoseconds since the zero instant; 0 is the zero time. */
  type Time = nat

  const MINUTE: Time := 60_000_000_000

  datatype EntryState = EntryState(
    fingerprint: string,
    expires: Time,
    done: bool,          // the channel waiters block on has been closed
    response: Response,
    completed: bool,
    waiters: int,
    size: int)

  datatype Store<Id> = Store(
    entries: map<string, Id>,
    heap: map<Id, EntryState>,
    maxEntries: int,
    maxBytes: int,
    maxWaiters: int,
    usedBytes: int,
    nextCleanup: Time)

  function NewEntry(fingerprint: string): EntryState
  {
    EntryState(fingerprint, 0, false, Unreplayable, false, 0, 0)
  }

  function Empty<Id>(maxEntries: int, maxBytes: int, maxWaiters: int): Store<Id>
  {
    Store(map[], map[], maxEntries, maxBytes, maxWaiters, 0, 0)
  }

  // ---------------------------------------------------------------- invariant

  /** Every key leads to an entry, and no two keys share one. */
  ghost predicate Linked<Id>(s: Store<Id>)
  {
    && (forall key :: key in s.entries ==> s.entries[key] in s.heap)
    && (forall k1, k2 :: k1 in s.entries && k2 in s.entries && s.entries[k1] == s.entries[k2] ==> k1 == k2)
  }

  /** `done` is closed exactly when the entry is completed, and `size` is the stored response's size. */
  ghost predicate GoodEntry(e: EntryState, maxWaiters: int)
  {
    && (e.done <==> e.completed)
    && (e.completed ==> e.expires > 0 && e.size == Size(e.response))
    && (!e.completed ==> e.size == 0)
    && 0 <= e.waiters <= maxWaiters
  }

  ghost function Weight<Id>(s: Store<Id>): string -> int
  {
    key => if key in s.entries && s.entries[key] in s.heap then s.heap[s.entries[key]].size else 0
  }

  ghost predicate Accounted<Id>(s: Store<Id>)
  {
    && s.usedBytes == Sum(s.entries.Keys, Weight(s))
    && 0 <= s.usedBytes <= s.maxBytes
    && |s.entries| <= s.maxEntries
  }

  ghost predicate CompletedAt<Id>(s: Store<Id>, key: string)
  {
    key in s.entries && s.entries[key] in s.heap && s.heap[s.entries[key]].completed
  }

  /** The next cleanup is never later than any stored response's expiry. */
  ghost predicate CleanupInTime<Id>(s: Store<Id>)
  {
    forall key :: CompletedAt(s, key) ==> 0 < s.nextCleanup <= s.heap[s.entries[key]].expires
  }

  ghost predicate GoodAt<Id>(s: Store<Id>, id: Id)
  {
    id in s.heap && GoodEntry(s.heap[id], s.maxWaiters)
  }

  ghost predicate GoodEntries<Id>(s: Store<Id>)
  {
    && s.maxWaiters >= 1
    && forall id {:trigger GoodAt(s, id)} | id in s.heap :: GoodAt(s, id)
  }

  ghost predicate Inv<Id>(s: Store<Id>)
  {
    && Linked(s)
    && GoodEntries(s)
    && Accounted(s)
    && CleanupInTime(s)
  }

  // ------------------------------------------------------------ locked regions

  ghost predicate Expired<Id>(s: Store<Id>, key: string, now: Time)
  {
    CompletedAt(s, key) && s.heap[s.entries[key]].expires <= now
  }

  /** The entries a cleanup at `now` keeps. */
  ghost function Unexpired<Id>(s: Store<Id>, now: Time): map<string, Id>
  {
    map key | key in s.entries && !Expired(s, key, now) :: s.entries[key]
  }

  /** `next` is the earliest of `bound` and the expiries of the completed entries of `s`. */
  ghost predicate Earliest<Id>(s: Store<Id>, bound: Time, next: Time)
  {
    && next <= bound
    && (forall key :: CompletedAt(s, key) ==> next <= s.heap[s.entries[key]].expires)
    && (next == bound || exists key :: CompletedAt(s, key) && next == s.heap[s.entries[key]].expires)
  }

  lemma {:induction false} EarliestExists<Id>(s: Store<Id>, bound: Time)
    ensures exists next :: Earliest(s, bound, next)
    decreases s.entries.Keys
  {
    if s.entries.Keys == {} {
      assert Earliest(s, bound, bound);
    } else {
      var key :| key in s.entries;
      var smaller := s.(entries := s.entries - {key});
      assert smaller.entries.Keys == s.entries.Keys - {key};
      EarliestExists(smaller, bound);
      var rest :| Earliest(smaller, bound, rest);
      assert forall k :: CompletedAt(smaller, k) <==> CompletedAt(s, k) && k != key;
      var next := if CompletedAt(s, key) && s.heap[s.entries[key]].expires < rest
              then s.heap[s.entries[key]].expires else rest;
      if next != bound && next == rest {
        var k :| CompletedAt(smaller, k) && rest == smaller.heap[smaller.entries[k]].expires;
        assert CompletedAt(s, k);
      }
      assert Earliest(s, bound, next);
    }
  }

  ghost function NextCleanup<Id>(s: Store<Id>, bound: Time): (next: Time)
    ensures Earliest(s, bound, next)
  {
    EarliestExists(s, bound);
    var next :| Earliest(s, bound, next);
    next
  }

  ghost function Cleanup<Id>(s: Store<Id>, now: Time): Store<Id>
  {
    var kept := Unexpired(s, now);
    var s' := s.(entries := kept, usedBytes := s.usedBytes - Sum(s.entries.Keys - kept.Keys, Weight(s)));
    s'.(nextCleanup := NextCleanup(s', now + MINUTE))
  }

  datatype Outcome<Id> =
    | Owner(id: Id)        // the caller runs the mutation
    | Conflict(id: Id)     // same key, different request
    | Replay(id: Id)       // completed: the stored response answers
    | Wait(id: Id)         // in flight: block until done
    | StoreFull
    | TooManyWaiters

  /** A cleanup that is due: the clock reading has reached `nextCleanup`, or none is scheduled. */
  ghost predicate Due<Id>(s: Store<Id>, now: Time)
  {
    s.nextCleanup == 0 || s.nextCleanup <= now
  }

  ghost function Insert<Id>(s: Store<Id>, key: string, fingerprint: string, newId: Id): Store<Id>
  {
    s.(entries := s.entries[key := newId], heap := s.heap[newId := NewEntry(fingerprint)])
  }

  ghost function WithWaiters<Id>(s: Store<Id>, id: Id, waiters: int): Store<Id>
    requires id in s.heap
  {
    s.(heap := s.heap[id := s.heap[id].(waiters := waiters)])
  }

  /** The decision taken once the map has been cleaned. `newId` is the entry allocated if one is. */
  ghost function Decide<Id>(s: Store<Id>, key: string, fingerprint: string, newId: Id): (Store<Id>, Outcome<Id>)
    requires Linked(s)
  {
    if key !in s.entries then
      if |s.entries| >= s.maxEntries then (s, StoreFull)
      else (Insert(s, key, fingerprint, newId), Owner(newId))
    else
      var id := s.entries[key];
      var e := s.heap[id];
      if e.fingerprint != fingerprint then (s, Conflict(id))
      else if e.completed then (s, Replay(id))
      else if e.waiters >= s.maxWaiters then (s, TooManyWaiters)
      else (WithWaiters(s, id, e.waiters + 1), Wait(id))
  }

  /** acquire, from taking the lock to releasing it. */
  ghost function Acquire<Id>(s: Store<Id>, key: string, fingerprint: string, now: Time, newId: Id): (Store<Id>, Outcome<Id>)
    requires Linked(s)
  {
    Decide(if Due(s, now) then Cleanup(s, now) else s, key, fingerprint, newId)
  }

  /** acquire by a store that forgets what has expired on every call. */
  ghost function EagerAcquire<Id>(s: Store<Id>, key: string, fingerprint: string, now: Time, newId: Id): (Store<Id>, Outcome<Id>)
    requires Linked(s)
  {
    Decide(Cleanup(s, now), key, fingerprint, newId)
  }

  /** A blocked acquire wakes or gives up. */
  ghost function Leave<Id>(s: Store<Id>, id: Id): Store<Id>
    requires id in s.heap
  {
    WithWaiters(s, id, s.heap[id].waiters - 1)
  }

  /** complete: only the entry still stored under the key, and only once. */
  ghost function Complete<Id>(s: Store<Id>, key: string, id: Id, response: Response, ttl: Time, now: Time): Store<Id>
    requires id in s.heap
  {
    if key !in s.entries || s.entries[key] != id || s.heap[id].completed then s
    else CompleteWith(s, id, Fitted(response, s.usedBytes, s.maxBytes), now + ttl)
  }

  ghost function CompleteWith<Id>(s: Store<Id>, id: Id, kept: Response, expires: Time): Store<Id>
    requires id in s.heap
  {
    s.(heap := s.heap[id := s.heap[id].(response := kept, completed := true, expires := expires, size := Size(kept), done := true)],
       usedBytes := s.usedBytes + Size(kept),
       nextCleanup := if s.nextCleanup == 0 || expires < s.nextCleanup then expires else s.nextCleanup)
  }

  // ------------------------------------------------------ what the regions keep

  lemma SizesNonNegative<Id>(s: Store<Id>, keys: set<string>)
    requires GoodEntries(s)
    ensures Sum(keys, Weight(s)) >= 0
  {
    forall key | key in keys
      ensures Weight(s)(key) >= 0
    {
      if key in s.entries && s.entries[key] in s.heap {
        assert GoodAt(s, s.entries[key]);
      }
    }
    SumNonNegative(keys, Weight(s));
  }

  lemma CleanupAccounted<Id>(s: Store<Id>, now: Time)
    requires Linked(s) && GoodEntries(s) && Accounted(s)
    ensures Accounted(Cleanup(s, now))
  {
    var s' := Cleanup(s, now);
    var kept := Unexpired(s, now).Keys;
    SumSplit(s.entries.Keys, kept, Weight(s));
    SizesNonNegative(s, kept);
    SizesNonNegative(s, s.entries.Keys - kept);
    CleanupWeights(s, now);
    SubsetSize(kept, s.entries.Keys);
    assert |s'.entries| == |kept| && |s.entries| == |s.entries.Keys|;
  }

  lemma CleanupWeights<Id>(s: Store<Id>, now: Time)
    ensures Sum(Unexpired(s, now).Keys, Weight(Cleanup(s, now))) == Sum(Unexpired(s, now).Keys, Weight(s))
  {
    SumCongruence(Unexpired(s, now).Keys, Weight(s), Weight(Cleanup(s, now)));
  }

  lemma CleanupForgets<Id>(s: Store<Id>, now: Time)
    requires CleanupInTime(s)
    ensures forall key :: CompletedAt(Cleanup(s, now), key) ==> CompletedAt(s, key)
    ensures forall key :: !Expired(Cleanup(s, now), key, now)
    ensures CleanupInTime(Cleanup(s, now))
  {
    var s' := Cleanup(s, now);
    var cleaned := s.(entries := Unexpired(s, now), usedBytes := s'.usedBytes);
    assert Earliest(cleaned, now + MINUTE, s'.nextCleanup);
    forall key | CompletedAt(s', key)
      ensures CompletedAt(s, key) && !Expired(s', key, now)
      ensures s'.nextCleanup <= s'.heap[s'.entries[key]].expires
    {
      assert CompletedAt(s, key) && !Expired(s, key, now) && CompletedAt(cleaned, key);
    }
    if s'.nextCleanup != now + MINUTE {
      var key :| CompletedAt(cleaned, key) && s'.nextCleanup == cleaned.heap[cleaned.entries[key]].expires;
      assert CompletedAt(s, key);
    }
  }

  lemma CleanupKeeps<Id>(s: Store<Id>, now: Time)
    requires Inv(s)
    ensures Inv(Cleanup(s, now))
    ensures forall key :: key in s.entries && !s.heap[s.entries[key]].completed ==> key in Cleanup(s, now).entries
  {
    CleanupAccounted(s, now);
    CleanupForgets(s, now);
    var s' := Cleanup(s, now);
    assert GoodEntries(s') by {
      forall id | id in s'.heap ensures GoodAt(s', id) { assert GoodAt(s, id); }
    }
  }

  lemma SubsetSize<T>(small: set<T>, large: set<T>)
    requires small <= large
    ensures |small| <= |large|
  {
    assert |large| == |small| + |large - small| by {
      assert small + (large - small) == large;
    }
  }

  /** While no cleanup is due nothing has expired, so a cleanup would keep every entry. */
  lemma NothingExpiredBeforeDue<Id>(s: Store<Id>, now: Time)
    requires Inv(s) && !Due(s, now)
    ensures forall key :: !Expired(s, key, now)
    ensures Cleanup(s, now) == s.(nextCleanup := Cleanup(s, now).nextCleanup)
  {
    assert Unexpired(s, now) == s.entries;
    assert s.entries.Keys - Unexpired(s, now).Keys == {};
  }

  /** Changes to an entry that leave its size alone keep the accounts. */
  lemma SameSizesAccounted<Id>(s: Store<Id>, s': Store<Id>)
    requires Accounted(s)
    requires s' == s.(heap := s'.heap)
    requires forall key :: key in s.entries ==> Weight(s)(key) == Weight(s')(key)
    ensures Accounted(s')
  {
    SumCongruence(s.entries.Keys, Weight(s), Weight(s'));
  }

  lemma InsertAccounted<Id>(s: Store<Id>, key: string, fingerprint: string, newId: Id)
    requires Linked(s) && Accounted(s) && key !in s.entries && newId !in s.heap && |s.entries| < s.maxEntries
    ensures Accounted(Insert(s, key, fingerprint, newId))
  {
    var s' := Insert(s, key, fingerprint, newId);
    InsertOthers(s, key, fingerprint, newId);
    assert s'.entries.Keys == s.entries.Keys + {key};
    assert s.entries.Keys + {key} - {key} == s.entries.Keys;
    SumRemove(s.entries.Keys + {key}, Weight(s'), key);
  }

  lemma InsertOthers<Id>(s: Store<Id>, key: string, fingerprint: string, newId: Id)
    requires Linked(s) && key !in s.entries && newId !in s.heap
    ensures Sum(s.entries.Keys, Weight(Insert(s, key, fingerprint, newId))) == Sum(s.entries.Keys, Weight(s))
  {
    SumCongruence(s.entries.Keys, Weight(s), Weight(Insert(s, key, fingerprint, newId)));
  }

  lemma InsertKeeps<Id>(s: Store<Id>, key: string, fingerprint: string, newId: Id)
    requires Inv(s) && key !in s.entries && newId !in s.heap && |s.entries| < s.maxEntries
    ensures Inv(Insert(s, key, fingerprint, newId))
  {
    InsertAccounted(s, key, fingerprint, newId);
    InsertGoodEntries(s, key, fingerprint, newId);
    InsertSchedule(s, key, fingerprint, newId);
    assert Linked(Insert(s, key, fingerprint, newId));
  }

  lemma InsertSchedule<Id>(s: Store<Id>, key: string, fingerprint: string, newId: Id)
    requires Linked(s) && CleanupInTime(s) && newId !in s.heap
    ensures CleanupInTime(Insert(s, key, fingerprint, newId))
  {
    var s' := Insert(s, key, fingerprint, newId);
    assert forall k :: CompletedAt(s', k) ==> CompletedAt(s, k);
  }

  lemma InsertGoodEntries<Id>(s: Store<Id>, key: string, fingerprint: string, newId: Id)
    requires GoodEntries(s) && newId !in s.heap
    ensures GoodEntries(Insert(s, key, fingerprint, newId))
  {
    var s' := Insert(s, key, fingerprint, newId);
    forall id | id in s'.heap
      ensures GoodAt(s', id)
    {
      assert id != newId ==> GoodAt(s, id);
    }
  }

  /** Waiters come and go without touching anything else. */
  lemma WaitersKeep<Id>(s: Store<Id>, id: Id, waiters: int)
    requires Inv(s) && id in s.heap && 0 <= waiters <= s.maxWaiters
    ensures Inv(WithWaiters(s, id, waiters))
  {
    var s' := WithWaiters(s, id, waiters);
    SameSizesAccounted(s, s');
    WaitersKeepSchedule(s, id, waiters);
    WaitersKeepGoodEntries(s, id, waiters);
    assert Linked(s');
  }

  lemma WaitersKeepGoodEntries<Id>(s: Store<Id>, id: Id, waiters: int)
    requires GoodEntries(s) && id in s.heap && 0 <= waiters <= s.maxWaiters
    ensures GoodEntries(WithWaiters(s, id, waiters))
  {
    var s' := WithWaiters(s, id, waiters);
    forall other | other in s'.heap
      ensures GoodAt(s', other)
    {
      assert GoodAt(s, other);
    }
  }

  lemma WaitersKeepSchedule<Id>(s: Store<Id>, id: Id, waiters: int)
    requires CleanupInTime(s) && id in s.heap
    ensures CleanupInTime(WithWaiters(s, id, waiters))
  {
    assert forall k :: CompletedAt(WithWaiters(s, id, waiters), k) ==> CompletedAt(s, k);
  }

  lemma DecideKeeps<Id>(s: Store<Id>, key: string, fingerprint: string, newId: Id)
    requires Inv(s) && newId !in s.heap
    ensures Inv(Decide(s, key, fingerprint, newId).0)
  {
    match Decide(s, key, fingerprint, newId).1
    case Owner(_) => InsertKeeps(s, key, fingerprint, newId);
    case Wait(id) =>
      assert GoodAt(s, id);
      WaitersKeep(s, id, s.heap[id].waiters + 1);
    case _ =>
  }

  lemma AcquireKeeps<Id>(s: Store<Id>, key: string, fingerprint: string, now: Time, newId: Id)
    requires Inv(s) && newId !in s.heap
    ensures Inv(Acquire(s, key, fingerprint, now, newId).0)
  {
    if Due(s, now) {
      CleanupKeeps(s, now);
      DecideKeeps(Cleanup(s, now), key, fingerprint, newId);
    } else {
      DecideKeeps(s, key, fingerprint, newId);
    }
  }

  lemma CompleteKeeps<Id>(s: Store<Id>, key: string, id: Id, response: Response, ttl: Time, now: Time)
    requires Inv(s) && id in s.heap && ttl > 0
    ensures Inv(Complete(s, key, id, response, ttl, now))
  {
    if key in s.entries && s.entries[key] == id && !s.heap[id].completed {
      FittedFits(response, s.usedBytes, s.maxBytes);
      CompleteWithKeeps(s, key, id, Fitted(response, s.usedBytes, s.maxBytes), now + ttl);
    }
  }

  lemma CompleteWithKeeps<Id>(s: Store<Id>, key: string, id: Id, kept: Response, expires: Time)
    requires Inv(s) && key in s.entries && s.entries[key] == id && !s.heap[id].completed
    requires s.usedBytes + Size(kept) <= s.maxBytes && expires > 0
    ensures Inv(CompleteWith(s, id, kept, expires))
  {
    assert GoodAt(s, id);
    CompleteWithAccounted(s, key, id, kept, expires);
    CompleteWithSchedule(s, key, id, kept, expires);
    CompleteWithGoodEntries(s, id, kept, expires);
    assert Linked(CompleteWith(s, id, kept, expires));
  }

  lemma CompleteWithGoodEntries<Id>(s: Store<Id>, id: Id, kept: Response, expires: Time)
    requires GoodEntries(s) && id in s.heap && expires > 0
    ensures GoodEntries(CompleteWith(s, id, kept, expires))
  {
    var s' := CompleteWith(s, id, kept, expires);
    forall other | other in s'.heap
      ensures GoodAt(s', other)
    {
      assert GoodAt(s, other);
    }
  }

  lemma CompleteWithAccounted<Id>(s: Store<Id>, key: string, id: Id, kept: Response, expires: Time)
    requires Linked(s) && Accounted(s) && key in s.entries && s.entries[key] == id && s.heap[id].size == 0
    requires s.usedBytes + Size(kept) <= s.maxBytes
    ensures Accounted(CompleteWith(s, id, kept, expires))
  {
    var s' := CompleteWith(s, id, kept, expires);
    SumRemove(s.entries.Keys, Weight(s), key);
    SumRemove(s.entries.Keys, Weight(s'), key);
    SumCongruence(s.entries.Keys - {key}, Weight(s), Weight(s'));
  }

  lemma CompleteWithSchedule<Id>(s: Store<Id>, key: string, id: Id, kept: Response, expires: Time)
    requires Linked(s) && CleanupInTime(s) && key in s.entries && s.entries[key] == id && expires > 0
    ensures CleanupInTime(CompleteWith(s, id, kept, expires))
  {
    var s' := CompleteWith(s, id, kept, expires);
    assert forall k :: CompletedAt(s', k) ==> k == key || CompletedAt(s, k);
  }

  // -------------------------------------------- what one acquire does to the rest

  /** Only what has expired disappears from the map. */
  ghost predicate KeepsUnexpired<Id>(s: Store<Id>, s': Store<Id>, now: Time)
  {
    forall k :: k in s.entries ==> (k in s'.entries && s'.entries[k] == s.entries[k]) || Expired(s, k, now)
  }

  /** Only a new owner's entry appears in it. */
  ghost predicate AddsOnly<Id>(s: Store<Id>, s': Store<Id>, key: string, outcome: Outcome<Id>)
  {
    forall k :: k in s'.entries ==> (k in s.entries && s'.entries[k] == s.entries[k]) || (k == key && outcome == Owner(s'.entries[k]))
  }

  ghost predicate OutcomeFits<Id>(s: Store<Id>, s': Store<Id>, key: string, fingerprint: string, now: Time, newId: Id, outcome: Outcome<Id>)
  {
    match outcome
    case Owner(id) => id == newId && s'.heap == s.heap[newId := NewEntry(fingerprint)]
                      && key in s'.entries && s'.entries[key] == newId
                      && (key in s.entries ==> Expired(s, key, now))
    case Wait(id) => key in s.entries && s.entries[key] == id && id in s.heap && !s.heap[id].completed
                     && s.heap[id].waiters < s.maxWaiters && s.heap[id].fingerprint == fingerprint
                     && s'.heap == s.heap[id := s.heap[id].(waiters := s.heap[id].waiters + 1)]
    case Replay(id) => key in s.entries && s.entries[key] == id && id in s.heap && s.heap[id].completed
                       && s.heap[id].fingerprint == fingerprint && s'.heap == s.heap
    case Conflict(id) => key in s.entries && s.entries[key] == id && id in s.heap && s.heap[id].fingerprint != fingerprint
                         && s'.heap == s.heap
    case StoreFull => (key in s.entries ==> Expired(s, key, now)) && s'.heap == s.heap
    case TooManyWaiters => key in s.entries && s.entries[key] in s.heap && !s.heap[s.entries[key]].completed
                           && s.heap[s.entries[key]].fingerprint == fingerprint
                           && s.heap[s.entries[key]].waiters >= s.maxWaiters && s'.heap == s.heap
  }

  lemma DecideEffect<Id>(s: Store<Id>, c: Store<Id>, key: string, fingerprint: string, now: Time, newId: Id)
    requires Linked(s) && Linked(c) && newId !in s.heap && c.heap == s.heap && c.maxWaiters == s.maxWaiters
    requires KeepsUnexpired(s, c, now) && c.entries.Keys <= s.entries.Keys
    requires forall k :: k in c.entries ==> c.entries[k] == s.entries[k]
    ensures var (s', outcome) := Decide(c, key, fingerprint, newId);
            KeepsUnexpired(s, s', now) && AddsOnly(s, s', key, outcome) && OutcomeFits(s, s', key, fingerprint, now, newId, outcome)
  {
  }

  lemma AcquireEffect<Id>(s: Store<Id>, key: string, fingerprint: string, now: Time, newId: Id)
    requires Linked(s) && newId !in s.heap
    ensures var (s', outcome) := Acquire(s, key, fingerprint, now, newId);
            KeepsUnexpired(s, s', now) && AddsOnly(s, s', key, outcome) && OutcomeFits(s, s', key, fingerprint, now, newId, outcome)
  {
    DecideEffect(s, if Due(s, now) then Cleanup(s, now) else s, key, fingerprint, now, newId);
  }

  // --------------------------------------------------------- lazy = eager, one call

  /** The same store, apart from when its next cleanup is scheduled. */
  ghost predicate SameUpToSchedule<Id>(s: Store<Id>, t: Store<Id>)
  {
    s == t.(nextCleanup := s.nextCleanup)
  }

  /**
   Lazy cleanup is exact: acquire gives the answer, and leaves the entries, of a store that
   removes every expired entry on every call.
   */
  lemma LazyAcquireIsEager<Id>(s: Store<Id>, t: Store<Id>, key: string, fingerprint: string, now: Time, newId: Id)
    requires Inv(s) && SameUpToSchedule(s, t) && newId !in s.heap
    ensures Acquire(s, key, fingerprint, now, newId).1 == EagerAcquire(t, key, fingerprint, now, newId).1
    ensures SameUpToSchedule(Acquire(s, key, fingerprint, now, newId).0, EagerAcquire(t, key, fingerprint, now, newId).0)
  {
    CleanupIgnoresSchedule(s, t, now);
    var cleaned := Cleanup(t, now);
    if Due(s, now) {
      DecideIgnoresSchedule(Cleanup(s, now), cleaned, key, fingerprint, newId);
    } else {
      NothingExpiredBeforeDue(s, now);
      DecideIgnoresSchedule(s, cleaned, key, fingerprint, newId);
    }
  }

  lemma CleanupIgnoresSchedule<Id>(s: Store<Id>, t: Store<Id>, now: Time)
    requires Linked(s) && SameUpToSchedule(s, t)
    ensures SameUpToSchedule(Cleanup(s, now), Cleanup(t, now)) && Linked(Cleanup(s, now))
  {
    assert forall k :: CompletedAt(s, k) <==> CompletedAt(t, k);
    assert forall k :: Expired(s, k, now) <==> Expired(t, k, now);
    assert Unexpired(s, now) == Unexpired(t, now);
    SumCongruence(s.entries.Keys - Unexpired(s, now).Keys, Weight(s), Weight(t));
  }

  lemma DecideIgnoresSchedule<Id>(s: Store<Id>, t: Store<Id>, key: string, fingerprint: string, newId: Id)
    requires Linked(s) && SameUpToSchedule(s, t)
    ensures Linked(t)
    ensures Decide(s, key, fingerprint, newId).1 == Decide(t, key, fingerprint, newId).1
    ensures SameUpToSchedule(Decide(s, key, fingerprint, newId).0, Decide(t, key, fingerprint, newId).0)
  {
  }

  lemma CompleteIgnoresSchedule<Id>(s: Store<Id>, t: Store<Id>, key: string, id: Id, response: Response, ttl: Time, now: Time)
    requires SameUpToSchedule(s, t) && id in s.heap
    ensures SameUpToSchedule(Complete(s, key, id, response, ttl, now), Complete(t, key, id, response, ttl, now))
  {
  }

  // --------------------------------------------------- one pass over the map

  /** The map while a cleanup pass has still to visit the keys in `left`. */
  ghost function Remaining<Id>(s: Store<Id>, now: Time, left: set<string>): map<string, Id>
  {
    map key | key in s.entries && (key in left || !Expired(s, key, now)) :: s.entries[key]
  }

  ghost function Freed<Id>(s: Store<Id>, now: Time, left: set<string>): int
  {
    Sum(s.entries.Keys - Remaining(s, now, left).Keys, Weight(s))
  }

  /** The entries visited and kept so far. */
  ghost function Visited<Id>(s: Store<Id>, now: Time, left: set<string>): Store<Id>
  {
    s.(entries := Remaining(s, now, left) - left)
  }

  lemma VisitStep<Id>(s: Store<Id>, now: Time, left: set<string>, key: string, bound: Time, next: Time)
    requires Linked(s) && left <= s.entries.Keys && key in left
    requires Earliest(Visited(s, now, left), bound, next)
    ensures Expired(s, key, now) ==>
              && Remaining(s, now, left - {key}) == Remaining(s, now, left) - {key}
              && Freed(s, now, left - {key}) == Freed(s, now, left) + s.heap[s.entries[key]].size
              && Earliest(Visited(s, now, left - {key}), bound, next)
    ensures !Expired(s, key, now) ==>
              && Remaining(s, now, left - {key}) == Remaining(s, now, left)
              && Freed(s, now, left - {key}) == Freed(s, now, left)
              && Earliest(Visited(s, now, left - {key}), bound,
                          if CompletedAt(s, key) && s.heap[s.entries[key]].expires < next
                          then s.heap[s.entries[key]].expires else next)
  {
    var left' := left - {key};
    if Expired(s, key, now) {
      assert Remaining(s, now, left') == Remaining(s, now, left) - {key};
      var gone := s.entries.Keys - Remaining(s, now, left').Keys;
      assert gone - {key} == s.entries.Keys - Remaining(s, now, left).Keys;
      SumRemove(gone, Weight(s), key);
      assert Visited(s, now, left').entries == Visited(s, now, left).entries;
    } else {
      assert Remaining(s, now, left') == Remaining(s, now, left);
      EarliestExtends(s, Visited(s, now, left), Visited(s, now, left'), key, bound, next);
    }
  }

  lemma SweepStarts<Id>(s: Store<Id>, now: Time)
    ensures Remaining(s, now, s.entries.Keys) == s.entries && Freed(s, now, s.entries.Keys) == 0
    ensures Earliest(Visited(s, now, s.entries.Keys), now + MINUTE, now + MINUTE)
  {
    assert Remaining(s, now, s.entries.Keys) == s.entries;
    assert s.entries - s.entries.Keys == map[];
  }

  lemma SweepEnds<Id>(s: Store<Id>, now: Time, next: Time)
    requires Earliest(Visited(s, now, {}), now + MINUTE, next)
    ensures Cleanup(s, now) ==
              s.(entries := Remaining(s, now, {}), usedBytes := s.usedBytes - Freed(s, now, {}), nextCleanup := next)
  {
    assert Remaining(s, now, {}) == Unexpired(s, now) == Visited(s, now, {}).entries;
    EarliestIsUnique(Visited(s, now, {}), Cleanup(s, now).(nextCleanup := s.nextCleanup), now + MINUTE, next);
  }

  lemma EarliestExtends<Id>(s: Store<Id>, v: Store<Id>, v': Store<Id>, key: string, bound: Time, next: Time)
    requires v == s.(entries := v.entries) && v' == s.(entries := v'.entries)
    requires key in s.entries && key !in v.entries && v'.entries == v.entries[key := s.entries[key]]
    requires Earliest(v, bound, next)
    ensures Earliest(v', bound,
                     if CompletedAt(s, key) && s.heap[s.entries[key]].expires < next
                     then s.heap[s.entries[key]].expires else next)
  {
    assert CompletedAt(v', key) <==> CompletedAt(s, key);
    assert forall k :: k != key ==> (CompletedAt(v', k) <==> CompletedAt(v, k));
    if next != bound {
      var k :| CompletedAt(v, k) && next == v.heap[v.entries[k]].expires;
      assert CompletedAt(v', k);
    }
  }

  // ------------------------------------------------------------------ the class

  class Entry {
    var fingerprint: string
    var expires: Time
    var done: bool
    var response: Response
    var completed: bool
    var waiters: int
    var size: int

    constructor (fingerprint: string)
      ensures State() == NewEntry(fingerprint)
    {
      this.fingerprint := fingerprint;
      expires, done, response := 0, false, Unreplayable;
      completed, waiters, size := false, 0, 0;
    }

    function State(): EntryState
      reads this
    {
      EntryState(fingerprint, expires, done, response, completed, waiters, size)
    }
  }

  class MemoryStore {
    var entries: map<string, Entry>
    const maxEntries: int
    const maxBytes: int
    const maxWaiters: int
    var usedBytes: int
    var nextCleanup: Time
    ghost var Heap: map<Entry, EntryState>  // every entry ever made, stored or evicted

    ghost function Contents(): Store<Entry>
      reads this
    {
      Store(entries, Heap, maxEntries, maxBytes, maxWaiters, usedBytes, nextCleanup)
    }

    ghost predicate Valid()
      reads this, Heap.Keys
    {
      Synced() && Inv(Contents())
    }

    /** The ghost heap shows the entries as they are. */
    ghost predicate Synced()
      reads this, Heap.Keys
    {
      && (forall e :: e in Heap ==> Heap[e] == e.State())
      && Linked(Contents())
    }

    constructor (maxEntries: int, maxBytes: int, maxWaiters: int)
      requires maxEntries >= 1 && maxBytes >= 1 && maxWaiters >= 1
      ensures Contents() == Empty(maxEntries, maxBytes, maxWaiters)
      ensures Valid()
    {
      this.maxEntries, this.maxBytes, this.maxWaiters := maxEntries, maxBytes, maxWaiters;
      entries, usedBytes, nextCleanup, Heap := map[], 0, 0, map[];
    }

    /** cleanup */
    method CleanUp(now: Time)
      requires Valid()
      modifies this`entries, this`usedBytes, this`nextCleanup
      ensures Contents() == Cleanup(old(Contents()), now)
      ensures Valid()
    {
      CleanupKeeps(Contents(), now);
      Sweep(now);
    }

    /** The loop of cleanup: one pass over the map, deleting while it goes. */
    method Sweep(now: Time)
      requires Synced()
      modifies this`entries, this`usedBytes, this`nextCleanup
      ensures Contents() == Cleanup(old(Contents()), now)
    {
      ghost var before := Contents();
      var next: Time := now + MINUTE;
      var left := entries.Keys;
      SweepStarts(before, now);
      while left != {}
        invariant left <= before.entries.Keys
        invariant entries == Remaining(before, now, left)
        invariant usedBytes == before.usedBytes - Freed(before, now, left)
        invariant Earliest(Visited(before, now, left), now + MINUTE, next)
        decreases left
      {
        var key :| key in left;
        var current := entries[key];
        assert before.heap[before.entries[key]] == current.State();
        VisitStep(before, now, left, key, now + MINUTE, next);
        if current.completed && current.expires <= now {
          usedBytes := usedBytes - current.size;
          entries := entries - {key};
        } else if current.completed && current.expires < next {
          next := current.expires;
        }
        left := left - {key};
      }
      SweepEnds(before, now, next);
      nextCleanup := next;
    }

    /** acquire, from taking the lock to releasing it; waiting happens outside. `made` is the entry allocated if one is. */
    method AcquireLocked(key: string, fingerprint: string, now: Time) returns (outcome: Outcome<Entry>, ghost made: Entry)
      requires Valid()
      modifies this`entries, this`usedBytes, this`nextCleanup, this`Heap, Heap.Keys
      ensures fresh(made) && (Contents(), outcome) == Acquire(old(Contents()), key, fingerprint, now, made)
      ensures Valid()
    {
      if nextCleanup == 0 || nextCleanup <= now {
        CleanUp(now);
      }
      outcome, made := DecideLocked(key, fingerprint);
    }

    method DecideLocked(key: string, fingerprint: string) returns (outcome: Outcome<Entry>, ghost made: Entry)
      requires Valid()
      modifies this`entries, this`Heap, Heap.Keys
      ensures fresh(made) && (Contents(), outcome) == Decide(old(Contents()), key, fingerprint, made)
      ensures Valid()
    {
      var current := new Entry(fingerprint);
      DecideKeeps(Contents(), key, fingerprint, current);
      outcome := Settle(key, fingerprint, current);
      made := current;
    }

    /** The branches of acquire after the cleanup. */
    method Settle(key: string, fingerprint: string, current: Entry) returns (outcome: Outcome<Entry>)
      requires Synced() && current !in Heap && current.State() == NewEntry(fingerprint)
      modifies this`entries, this`Heap, (set key | key in entries :: entries[key])`waiters
      ensures (Contents(), outcome) == Decide(old(Contents()), key, fingerprint, current)
      ensures Synced()
    {
      if key !in entries {
        if |entries| >= maxEntries {
          outcome := StoreFull;
        } else {
          entries := entries[key := current];
          Heap := Heap[current := current.State()];
          outcome := Owner(current);
        }
      } else {
        var found := entries[key];
        assert found.State() == Heap[found];
        if found.fingerprint != fingerprint {
          outcome := Conflict(found);
        } else if found.completed {
          outcome := Replay(found);
        } else if found.waiters >= maxWaiters {
          outcome := TooManyWaiters;
        } else {
          found.waiters := found.waiters + 1;
          Heap := Heap[found := found.State()];
          outcome := Wait(found);
        }
      }
    }

    method LeaveWait(current: Entry)
      requires Valid() && current in Heap && current.waiters > 0
      modifies this`Heap, current`waiters
      ensures Contents() == Leave(old(Contents()), current)
      ensures Valid()
    {
      assert GoodAt(Contents(), current);
      WaitersKeep(Contents(), current, current.waiters - 1);
      current.waiters := current.waiters - 1;
      Heap := Heap[current := current.State()];
    }

    method CompleteEntry(key: string, current: Entry, response: Response, ttl: Time, now: Time)
      requires Valid() && current in Heap && ttl > 0
      modifies this`usedBytes, this`nextCleanup, this`Heap, current
      ensures Contents() == Complete(old(Contents()), key, current, response, ttl, now)
      ensures Valid()
    {
      CompleteKeeps(Contents(), key, current, response, ttl, now);
      if key !in entries || entries[key] != current || current.completed {
        return;
      }
      var kept, size := Fit(response, usedBytes, maxBytes);
      Finish(current, kept, size, now + ttl);
    }

    /** The assignments of complete. */
    method Finish(current: Entry, kept: Response, size: int, expires: Time)
      requires Synced() && current in Heap && size == Size(kept)
      modifies this`usedBytes, this`nextCleanup, this`Heap, current
      ensures Contents() == CompleteWith(old(Contents()), current, kept, expires)
      ensures Synced()
    {
      current.response := kept;
      current.completed := true;
      current.expires := expires;
      current.size := size;
      usedBytes := usedBytes + size;
      if nextCleanup == 0 || expires < nextCleanup {
        nextCleanup := expires;
      }
      current.done := true;
      Heap := Heap[current := current.State()];
    }
  }

  lemma EarliestIsUnique<Id>(s: Store<Id>, t: Store<Id>, bound: Time, next: Time)
    requires s.entries == t.entries && s.heap == t.heap && Earliest(s, bound, next)
    ensures next == NextCleanup(t, bound)
  {
    assert forall k :: CompletedAt(s, k) <==> CompletedAt(t, k);
    var other := NextCleanup(t, bound);
    if other != bound {
      var k :| CompletedAt(t, k) && other == t.heap[t.entries[k]].expires;
      assert CompletedAt(s, k);
    }
    if next != bound {
      var k :| CompletedAt(s, k) && next == s.heap[s.entries[k]].expires;
      assert CompletedAt(t, k);
    }
  }
}
