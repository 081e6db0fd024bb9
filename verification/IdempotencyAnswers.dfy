/**
 Which answer a request gets. The answers of acquire and the effect of complete are stated
 for every store in terms of the stored entries alone, and then what becomes of a request
 that arrives where a response is stored.
 */
module IdempotencyAnswers {
  import opened Sums
  import opened IdempotencyResponse
  import opened IdempotencyStore
  import P = IdempotencyProtocol

  // ------------------------------------------------------------------------- acquire

  /** The key has an entry that is in flight, or completed and not yet expired. */
  ghost predicate Lives<Key>(s: Store<Key>, key: string, now: Time)
    requires Linked(s)
  {
    && key in s.entries
    && var e := s.heap[s.entries[key]]; !e.completed || now < e.expires
  }

  ghost function Living<Key>(s: Store<Key>, now: Time): map<string, Key>
    requires Linked(s)
  {
    map key | key in s.entries && Lives(s, key, now) :: s.entries[key]
  }

  lemma DecidedFrom<Key>(s: Store<Key>, key: string, now: Time, newId: Key) returns (cleaned: Store<Key>)
    requires Inv(s)
    ensures Linked(cleaned) && cleaned.heap == s.heap && cleaned.entries == Living(s, now)
    ensures cleaned.maxEntries == s.maxEntries && cleaned.maxWaiters == s.maxWaiters
    ensures forall fingerprint :: Acquire(s, key, fingerprint, now, newId) == Decide(cleaned, key, fingerprint, newId)
  {
    cleaned := if Due(s, now) then Cleanup(s, now) else s;
    if !Due(s, now) {
      NothingExpiredBeforeDue(s, now);
    }
    assert forall k :: k in s.entries ==> (Expired(s, k, now) <==> !Lives(s, k, now));
  }

  /** A key without a living entry gets an owner, unless the store is full of living ones. */
  lemma NewKeyIsOwned<Key>(s: Store<Key>, key: string, fingerprint: string, now: Time, newId: Key)
    requires Inv(s) && newId !in s.heap && !Lives(s, key, now)
    ensures var (s', outcome) := Acquire(s, key, fingerprint, now, newId);
            if |Living(s, now)| < s.maxEntries then
              && outcome == Owner(newId) && s'.entries == Living(s, now)[key := newId]
              && s'.heap == s.heap[newId := EntryState(fingerprint, 0, false, Unreplayable, false, 0, 0)]
            else outcome == StoreFull && s'.entries == Living(s, now) && s'.heap == s.heap
  {
    var cleaned := DecidedFrom(s, key, now, newId);
  }

  /** A living entry answers by its fingerprint, its completion and its waiters. */
  lemma StoredKeyIsAnswered<Key>(s: Store<Key>, key: string, fingerprint: string, now: Time, newId: Key)
    requires Inv(s) && newId !in s.heap && Lives(s, key, now)
    ensures var (s', outcome) := Acquire(s, key, fingerprint, now, newId);
            var id, e := s.entries[key], s.heap[s.entries[key]];
            && s'.entries == Living(s, now)
            && (if e.fingerprint != fingerprint then outcome == Conflict(id) && s'.heap == s.heap
                else if e.completed then outcome == Replay(id) && s'.heap == s.heap
                else if e.waiters < s.maxWaiters then
                  outcome == Wait(id) && s'.heap == s.heap[id := e.(waiters := e.waiters + 1)]
                else outcome == TooManyWaiters && s'.heap == s.heap)
  {
    var cleaned := DecidedFrom(s, key, now, newId);
  }

  // ------------------------------------------------------------------------ responses

  const PROBLEM := "{\"type\":\"about:blank\",\"title\":\"Unprocessable Entity\",\"status\":422,\"detail\":\""
  const PROBLEM_END := "\"}\n"

  /** The detail texts of problem responses. */
  function DetailText(detail: Detail): string
  {
    match detail
    case UnknownOutcome => "The mutation outcome is unknown"
    case Overflowed => "The mutation completed but its response cannot be replayed"
    case Unavailable => "The mutation completed but its response is unavailable for replay"
  }

  /** A problem response is charged for its document and its one header. */
  lemma ProblemSize(detail: Detail)
    ensures TerminalSize(detail) == |PROBLEM| + |DetailText(detail)| + |PROBLEM_END|
                                    + |"Content-Type"| + |"application/problem+json; charset=utf-8"|
  {
  }

  /** A header is charged for each name once and for all its values. */
  lemma MoreHeaders(header: Header, name: string, values: seq<string>)
    requires name !in header
    ensures HeaderBytes(header[name := values]) == HeaderBytes(header) + |name| + TotalLength(values) && HeaderBytes(map[]) == 0
  {
    var more := header[name := values];
    SumRemove(more.Keys, HeaderWeight(more), name);
    assert more.Keys - {name} == header.Keys;
    SumCongruence(header.Keys, HeaderWeight(more), HeaderWeight(header));
  }

  lemma MoreValues(values: seq<string>, value: string)
    ensures TotalLength(values + [value]) == TotalLength(values) + |value| && TotalLength([]) == 0
  {
    assert (values + [value])[..|values|] == values;
  }

  predicate Replayable(name: string)
  {
    || name == "Content-Type" || name == "Content-Language" || name == "Content-Encoding" || name == "Content-Disposition"
    || name == "Location" || name == "Etag" || name == "Cache-Control" || name == "Expires" || name == "Last-Modified"
    || name == "Vary" || name == "Retry-After"
  }

  /** What is kept of a response: its status, its body, and the headers that may be replayed. */
  ghost predicate Kept(response: Response, kept: Response)
  {
    if response.Captured? then
      && kept.Captured? && kept.status == response.status && kept.body == response.body
      && (forall name :: name in kept.header <==> name in response.header && Replayable(name))
      && (forall name :: name in kept.header ==> kept.header[name] == response.header[name])
    else kept == response
  }

  ghost function Charge(response: Response): int
  {
    match response
    case Captured(_, header, body) => |body| + HeaderBytes(header)
    case Terminal(detail) => |PROBLEM| + |DetailText(detail)| + |PROBLEM_END| + 51
    case Unreplayable => 0
  }

  lemma ChargeIsSize(response: Response)
    ensures Charge(response) == Size(response) && Charge(Terminal(Unavailable)) == 195
  {
    if response.Terminal? {
      ProblemSize(response.detail);
    }
    ProblemSize(Unavailable);
  }

  lemma ReplayableNames(name: string)
    ensures Replayable(name) <==> name in REPLAY_NAMES
  {
  }

  lemma StoredKeeps(response: Response)
    ensures Kept(response, IdempotencyResponse.Stored(response))
  {
    forall name
      ensures Replayable(name) <==> name in REPLAY_NAMES
    {
      ReplayableNames(name);
    }
  }

  lemma Fits(response: Response, kept: Response, used: int, maxBytes: int)
    requires 0 <= used <= maxBytes && kept == IdempotencyResponse.Stored(response)
    ensures Fitted(response, used, maxBytes)
            == if used + Size(kept) <= maxBytes then kept
               else if used + 195 <= maxBytes then Terminal(Unavailable) else Unreplayable
  {
  }

  lemma KeptIsFitted(response: Response, used: int, maxBytes: int) returns (kept: Response)
    requires 0 <= used <= maxBytes
    ensures Kept(response, kept)
    ensures Fitted(response, used, maxBytes)
            == if used + Charge(kept) <= maxBytes then kept
               else if used + 195 <= maxBytes then Terminal(Unavailable) else Unreplayable
  {
    kept := IdempotencyResponse.Stored(response);
    StoredKeeps(response);
    Fits(response, kept, used, maxBytes);
    ChargeIsSize(kept);
  }

  /**
   The first completion of a stored entry: it keeps the response if the budget allows,
   otherwise a problem response that says so, otherwise nothing; and it is done and expires
   after the time to live.
   */
  lemma CompletionKeeps<Key>(s: Store<Key>, key: string, id: Key, response: Response, ttl: Time, now: Time) returns (kept: Response)
    requires Inv(s) && ttl > 0 && key in s.entries && s.entries[key] == id && id in s.heap && !s.heap[id].completed
    ensures Kept(response, kept)
    ensures var s', e := Complete(s, key, id, response, ttl, now), s.heap[id];
            var stored := if s.usedBytes + Charge(kept) <= s.maxBytes then kept
                          else if s.usedBytes + 195 <= s.maxBytes then Terminal(Unavailable) else Unreplayable;
            && s'.heap == s.heap[id := EntryState(e.fingerprint, now + ttl, true, stored, true, e.waiters, Charge(stored))]
            && s'.entries == s.entries && s'.usedBytes == s.usedBytes + Charge(stored)
  {
    kept := KeptIsFitted(response, s.usedBytes, s.maxBytes);
    ChargeIsSize(Fitted(response, s.usedBytes, s.maxBytes));
  }

  /** Every other completion changes nothing. */
  lemma LaterCompletionIgnored<Key>(s: Store<Key>, key: string, id: Key, response: Response, ttl: Time, now: Time)
    requires id in s.heap && (key !in s.entries || s.entries[key] != id || s.heap[id].completed)
    ensures Complete(s, key, id, response, ttl, now) == s
  {
  }

  // ----------------------------------------------------------------------------- requests

  /** The state after a step of the store as it is. */
  ghost function Step(s: P.System, a: P.Action): P.System
    requires P.Good(s) && P.Enabled(s, a)
  {
    P.GoodIsWellFormed(s);
    P.Apply(s, a, false)
  }

  /** What a request does after its acquire: it owns its key, waits, replays, or is turned away. */
  ghost predicate Follows(s: P.System, t: nat, newId: P.Id, phase: P.Phase)
    requires P.Good(s) && t in s.requests
  {
    var r := s.requests[t];
    if !Lives(s.store, r.key, r.now) then
      phase == if |Living(s.store, r.now)| < s.store.maxEntries then P.Running(newId) else P.Finished
    else
      var id, e := s.store.entries[r.key], s.store.heap[s.store.entries[r.key]];
      phase == if e.fingerprint != r.fingerprint then P.Finished
               else if e.completed then P.Replaying(id)
               else if e.waiters < s.store.maxWaiters then P.Waiting(id) else P.Finished
  }

  lemma StepFollows(s: P.System, t: nat, newId: P.Id)
    requires P.Good(s) && P.Enabled(s, P.TryAcquire(t, newId))
    ensures var r := s.requests[t];
            Step(s, P.TryAcquire(t, newId)).requests[t].phase
            == P.PhaseAfter(Acquire(s.store, r.key, r.fingerprint, r.now, newId).1)
  {
  }

  /** Over every run, the store's entries decide what a request's acquire leads to. */
  lemma AcquireLeads(actions: seq<P.Action>, s: P.System, t: nat, newId: P.Id)
    requires P.Reaches(actions, s) && P.Enabled(s, P.TryAcquire(t, newId))
    ensures P.Good(s)
    ensures Follows(s, t, newId, Step(s, P.TryAcquire(t, newId)).requests[t].phase)
  {
    P.ReachableIsGood(actions, s);
    var r := s.requests[t];
    StepFollows(s, t, newId);
    if Lives(s.store, r.key, r.now) {
      StoredKeyIsAnswered(s.store, r.key, r.fingerprint, r.now, newId);
    } else {
      NewKeyIsOwned(s.store, r.key, r.fingerprint, r.now, newId);
    }
  }

  // ----------------------------------------------------------------- completed and repeated

  /** The response that is stored for a completed mutation whose response fits the budget. */
  ghost predicate StoresFor(s: P.System, id: P.Id, response: Response, expires: Time)
  {
    && id in s.store.heap && s.store.heap[id].completed && s.store.heap[id].done && s.store.heap[id].expires == expires
    && Kept(response, s.store.heap[id].response)
  }

  /** There is room for the response, whatever of its header is kept. */
  ghost predicate HasRoom(s: P.System, response: Response)
  {
    forall kept :: Kept(response, kept) ==> s.store.usedBytes + Charge(kept) <= s.store.maxBytes
  }

  /** The owner's completion stores its response under its key. */
  lemma FinishStores(s: P.System, t: nat, response: Response, now: Time)
    requires P.Good(s) && P.Enabled(s, P.Finish(t, response, now)) && HasRoom(s, response)
    ensures var s', r := Step(s, P.Finish(t, response, now)), s.requests[t];
            && P.Good(s') && StoresFor(s', r.phase.id, response, now + s.ttl)
            && r.key in s'.store.entries && s'.store.entries[r.key] == r.phase.id
            && s'.store.heap[r.phase.id].fingerprint == r.fingerprint
            && s'.requests == s.requests[t := r.(phase := P.Answered(r.phase.id))]
  {
    var a := P.Finish(t, response, now);
    P.GoodIsWellFormed(s);
    P.StepKeepsGood(s, a);
    assert P.RequestOk(s, t);
    var r := s.requests[t];
    var kept := CompletionKeeps(s.store, r.key, r.phase.id, response, s.ttl, now);
  }

  /** A request that finds an unexpired response for its key and fingerprint. */
  ghost predicate Finds(s: P.System, t: nat, id: P.Id)
  {
    && t in s.requests && s.requests[t].phase == P.Acquiring
    && s.requests[t].key in s.store.entries && s.store.entries[s.requests[t].key] == id && id in s.store.heap
    && s.store.heap[id].completed && s.store.heap[id].fingerprint == s.requests[t].fingerprint
    && s.requests[t].now < s.store.heap[id].expires
  }

  /** Such a request goes on to replay the entry, whatever else the store holds. */
  lemma FoundIsReplayed(s: P.System, t: nat, id: P.Id, newId: P.Id)
    requires P.Good(s) && newId !in s.store.heap && Finds(s, t, id)
    ensures P.Enabled(s, P.TryAcquire(t, newId))
    ensures var r, s' := s.requests[t], Step(s, P.TryAcquire(t, newId));
            && P.Good(s') && s'.requests == s.requests[t := r.(phase := P.Replaying(id))]
            && s'.store.heap == s.store.heap && s'.trace == s.trace + [P.Presented(r.key, r.now)]
  {
    var r := s.requests[t];
    P.GoodIsWellFormed(s);
    P.StepKeepsGood(s, P.TryAcquire(t, newId));
    StoredKeyIsAnswered(s.store, r.key, r.fingerprint, r.now, newId);
    assert s.trace + [P.Presented(r.key, r.now)] + [] == s.trace + [P.Presented(r.key, r.now)];
  }

  /** And writes the response that is stored. */
  lemma ReplayIsDelivered(s: P.System, t: nat, id: P.Id)
    requires P.Good(s) && t in s.requests && s.requests[t].phase == P.Replaying(id)
    ensures P.Enabled(s, P.DeliverReplay(t)) && id in s.store.heap
    ensures var r := s.requests[t];
            Step(s, P.DeliverReplay(t)).trace == s.trace + [P.Replayed(r.key, r.fingerprint, id, s.store.heap[id].response)]
  {
    assert P.RequestOk(s, t);
  }

  /** A repeated request after the completion, before the response expires, finds it. */
  lemma RepeatFinds(s: P.System, t: nat, response: Response, now: Time, other: nat, later: Time)
    requires P.Good(s) && P.Enabled(s, P.Finish(t, response, now)) && HasRoom(s, response)
    requires other !in s.requests && later < now + s.ttl
    ensures var r, s1 := s.requests[t], Step(s, P.Finish(t, response, now));
            var arrives := P.Arrive(other, r.key, r.fingerprint, later);
            && P.Good(s1) && P.Enabled(s1, arrives) && P.Good(Step(s1, arrives))
            && Finds(Step(s1, arrives), other, r.phase.id) && StoresFor(Step(s1, arrives), r.phase.id, response, now + s.ttl)
  {
    FinishStores(s, t, response, now);
    var r, s1 := s.requests[t], Step(s, P.Finish(t, response, now));
    P.GoodIsWellFormed(s1);
    P.StepKeepsGood(s1, P.Arrive(other, r.key, r.fingerprint, later));
  }

  /** A request that waits for the owner wakes when the owner has completed, and finds the response too. */
  lemma WaiterFinds(s: P.System, t: nat, response: Response, now: Time, other: nat)
    requires P.Good(s) && P.Enabled(s, P.Finish(t, response, now)) && HasRoom(s, response)
    requires other in s.requests && s.requests[other].phase == P.Waiting(s.requests[t].phase.id)
    requires s.requests[other].key == s.requests[t].key && s.requests[other].fingerprint == s.requests[t].fingerprint
    requires s.requests[other].now < now + s.ttl
    ensures var r, s1 := s.requests[t], Step(s, P.Finish(t, response, now));
            && P.Good(s1) && P.Enabled(s1, P.Wake(other)) && P.Good(Step(s1, P.Wake(other)))
            && Finds(Step(s1, P.Wake(other)), other, r.phase.id)
            && StoresFor(Step(s1, P.Wake(other)), r.phase.id, response, now + s.ttl)
  {
    FinishStores(s, t, response, now);
    var s1 := Step(s, P.Finish(t, response, now));
    P.GoodIsWellFormed(s1);
    P.StepKeepsGood(s1, P.Wake(other));
  }
}
