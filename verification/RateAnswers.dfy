/**
 The limiter's answers: when a call is refused for lack of room, when it is allowed, what it
 reports, and that the store is never full when few keys are used.
 */
module RateAnswers {
  import opened RateMemory
  import opened RateWindows
  import opened RateSql

  // -------------------------------------------------------------------- one call

  /** The keys whose window is still open. */
  function Open(buckets: Buckets, now: Time): set<string>
  {
    set key | key in buckets && now < buckets[key].reset
  }

  lemma AliveIsOpen(buckets: Buckets, now: Time)
    ensures Alive(buckets, now).Keys == Open(buckets, now) && |Alive(buckets, now)| == |Open(buckets, now)|
  {
    assert |Alive(buckets, now)| == |Alive(buckets, now).Keys|;
  }

  /** A call is refused exactly when its key has no open window and there is no room for one. */
  lemma FullExactly(buckets: Buckets, key: string, limit: int, window: Time, now: Time, maxKeys: int)
    ensures PlainTake(buckets, key, limit, window, now, maxKeys).1.StoreFull?
            <==> key !in Open(buckets, now) && |Open(buckets, now)| >= maxKeys
  {
    AliveIsOpen(buckets, now);
  }

  /** Otherwise it is counted in its open window, or opens one, and is allowed while the count is below the limit. */
  lemma TakenAnswers(buckets: Buckets, key: string, limit: int, window: Time, now: Time, maxKeys: int)
    requires limit >= 1 && (forall k :: k in buckets ==> 0 <= buckets[k].count <= limit)
    requires key in Open(buckets, now) || |Open(buckets, now)| < maxKeys
    ensures var (after, outcome) := PlainTake(buckets, key, limit, window, now, maxKeys);
            && outcome.Taken? && key in after
            && (if key in Open(buckets, now) then
                  && outcome.result.allowed == (buckets[key].count < limit) && outcome.result.reset == buckets[key].reset
                  && after[key].count == buckets[key].count + (if outcome.result.allowed then 1 else 0)
                else outcome.result.allowed && outcome.result.reset == now + window && after[key].count == 1)
            && outcome.result.remaining == limit - after[key].count && after[key].reset == outcome.result.reset
            && after.Keys == Open(buckets, now) + {key}
            && (forall k :: k in Open(buckets, now) && k != key ==> after[k] == buckets[k])
  {
    AliveIsOpen(buckets, now);
  }

  // ---------------------------------------------------------------------------- runs

  /** A run that uses few keys never finds the store full. */
  lemma {:induction false} FewKeysFit(m: Buckets, calls: seq<Call>, c: Config, keys: set<string>)
    requires m.Keys <= keys && |keys| <= c.maxKeys && forall i :: 0 <= i < |calls| ==> calls[i].key in keys
    ensures NeverFull(m, calls, c)
    decreases |calls|
  {
    if calls != [] {
      var call := calls[0];
      FullExactly(m, call.key, c.limit, c.window, call.now, c.maxKeys);
      AliveIsOpen(m, call.now);
      if call.key !in Open(m, call.now) {
        Smaller(Open(m, call.now), keys, call.key);
      }
      assert After(m, call, c).Keys <= keys;
      FewKeysFit(After(m, call, c), calls[1..], c, keys);
    }
  }

  lemma Smaller<T>(part: set<T>, whole: set<T>, x: T)
    requires part <= whole && x in whole && x !in part
    ensures |part| < |whole|
  {
    assert whole == part + (whole - part);
    assert x in whole - part;
  }

  function KeysOf(calls: seq<Call>): set<string>
  {
    set i | 0 <= i < |calls| :: calls[i].key
  }

  lemma FewKeysNeverFull(calls: seq<Call>, c: Config)
    requires |KeysOf(calls)| <= c.maxKeys
    ensures NeverFull(map[], calls, c)
  {
    FewKeysFit(map[], calls, c, KeysOf(calls));
  }

  /** A new store admits, in every interval of one window's length, at most twice the limit per key. */
  lemma NewStoreAdmitsTwice(calls: seq<Call>, c: Config, key: string, lo: Time)
    requires c.limit >= 0 && c.window > 0 && Ordered(calls) && |KeysOf(calls)| <= c.maxKeys
    ensures Admitted(map[], calls, c, key, lo, lo + c.window) <= 2 * c.limit
  {
    FewKeysNeverFull(calls, c);
    AtMostTwiceTheLimit(map[], calls, c, key, lo);
  }

  /** Its first window admits exactly the smaller of the limit and the number of calls. */
  lemma NewStoreAdmitsExactly(calls: seq<Call>, c: Config)
    requires c.limit >= 0 && c.window > 0 && Ordered(calls) && calls != [] && |KeysOf(calls)| <= c.maxKeys
    ensures var start := calls[0].now;
            Admitted(map[], calls, c, calls[0].key, start, start + c.window - 1)
            == Min(c.limit, Requested(calls, calls[0].key, start, start + c.window - 1))
  {
    FewKeysNeverFull(calls, c);
    WindowAdmitsExactly(map[], calls, c);
  }

  // ------------------------------------------------------------------------------- SQL

  function InNanoseconds(calls: seq<SqlCall>): (converted: seq<Call>)
    ensures |converted| == |calls|
    ensures forall i :: 0 <= i < |calls| ==> converted[i] == Call(calls[i].key, SECOND * calls[i].second)
  {
    seq(|calls|, i requires 0 <= i < |calls| => Call(calls[i].key, SECOND * calls[i].second))
  }

  lemma {:induction false} TakenThroughout(m: Buckets, calls: seq<SqlCall>, c: Config)
    requires NeverFull(m, InNanoseconds(calls), c)
    ensures forall outcome :: outcome in MemoryResults(m, calls, c) ==> outcome.Taken?
    decreases |calls|
  {
    if calls != [] {
      var call := Call(calls[0].key, SECOND * calls[0].second);
      assert InNanoseconds(calls)[0] == call && InNanoseconds(calls)[1..] == InNanoseconds(calls[1..]);
      TakenThroughout(After(m, call, c), calls[1..], c);
    }
  }

  /** With few keys, whole-second windows and clocks, both new stores answer alike over every run. */
  lemma NewStoresAgree(calls: seq<SqlCall>, c: Config)
    requires 1 <= c.limit < MAX_INT64 && c.window > 0 && c.window % SECOND == 0 && SecondsOrdered(calls)
    requires |KeysOf(InNanoseconds(calls))| <= c.maxKeys
    ensures SqlResults(Table(map[], 0), calls, c) == MemoryResults(map[], calls, c)
  {
    FewKeysNeverFull(InNanoseconds(calls), c);
    TakenThroughout(map[], calls, c);
    EmptyStoresAgree(calls, c);
  }

  /** What the SQL store answers, whatever its rows: a row that is over starts again, and a count stops one past the limit. */
  lemma SqlAnswers(t: Table, key: string, limit: int, window: Time, clock: Time, now: int)
    requires limit >= 1 && window > 0 && forall k :: k in t.rows ==> 1 <= t.rows[k].count <= limit + 1
    ensures var (after, result) := SqlTake(t, key, limit, window, clock, now);
            var open := key in t.rows && now < t.rows[key].resetAt;
            && result.allowed == (!open || t.rows[key].count < limit)
            && result.remaining == (if !open then limit - 1 else if t.rows[key].count < limit then limit - t.rows[key].count - 1 else 0)
            && result.reset == SECOND * (if open then t.rows[key].resetAt else now + (window + SECOND - 1) / SECOND)
            && (forall k :: k in t.rows && k != key && now < t.rows[k].resetAt ==> k in after.rows && after.rows[k] == t.rows[k])
            && (forall k :: k in after.rows && k != key ==> k in t.rows && after.rows[k] == t.rows[k])
  {
  }

  /** Rows are cleaned at most once a window or a minute, whichever is shorter, but not more than once a second. */
  lemma CleaningIsScheduled(t: Table, key: string, limit: int, window: Time, clock: Time, now: int)
    requires window > 0
    ensures var next := SqlTake(t, key, limit, window, clock, now).0.nextCleanup;
            next == if clock < t.nextCleanup then t.nextCleanup
                    else if window <= 1_000_000_000 then clock + 1_000_000_000
                    else if window < 60_000_000_000 then clock + window else clock + 60_000_000_000
  {
  }
}
