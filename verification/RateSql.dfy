/**
 The shared limiter: the upsert both SQL dialects run, on rows that count up to one past the
 limit, and its agreement with the in-memory store.
 */
module RateSql {
  import opened RateMemory
  import opened RateWindows

  /** Nanoseconds in a second; the database clock and `reset_at` count whole seconds. */
  const SECOND: Time := 1_000_000_000
  const MINUTE: Time := 60_000_000_000
  const MAX_INT64 := 0x7fff_ffff_ffff_ffff

  datatype Row = Row(count: int, resetAt: int)

  datatype Table = Table(rows: map<string, Row>, nextCleanup: Time)

  /** The window in whole seconds, rounded up. */
  function WindowSeconds(window: Time): (seconds: int)
    requires window > 0
    ensures SECOND * (seconds - 1) < window <= SECOND * seconds
  {
    window / SECOND + if window % SECOND != 0 then 1 else 0
  }

  /** The CASE expressions of ON CONFLICT DO UPDATE, or the inserted row. */
  function Upserted(rows: map<string, Row>, key: string, seconds: int, limit: int, now: int): Row
  {
    if key !in rows then Row(1, now + seconds)
    else
      var row := rows[key];
      Row(if row.resetAt <= now then 1 else if row.count <= limit then row.count + 1 else row.count,
          if row.resetAt <= now then now + seconds else row.resetAt)
  }

  function Unexpired(rows: map<string, Row>, now: int): map<string, Row>
  {
    map key | key in rows && rows[key].resetAt > now :: rows[key]
  }

  function Cleaned(t: Table, window: Time, clock: Time, now: int): Table
  {
    if clock < t.nextCleanup then t
    else
      var interval := if window < MINUTE then window else MINUTE;
      Table(Unexpired(t.rows, now), clock + if interval > SECOND then interval else SECOND)
  }

  /** Take: `clock` is the application's clock, `now` the database's. */
  function SqlTake(t: Table, key: string, limit: int, window: Time, clock: Time, now: int): (Table, Result)
    requires window > 0
  {
    var cleaned := Cleaned(t, window, clock, now);
    var row := Upserted(cleaned.rows, key, WindowSeconds(window), limit, now);
    (cleaned.(rows := cleaned.rows[key := row]),
     Result(row.count <= limit, if limit - row.count > 0 then limit - row.count else 0, SECOND * row.resetAt))
  }

  class ORMStore {
    var rows: map<string, Row>
    var nextCleanup: Time

    constructor ()
      ensures rows == map[] && nextCleanup == 0
    {
      rows, nextCleanup := map[], 0;
    }

    method Cleanup(window: Time, clock: Time, now: int)
      modifies this
      ensures Table(rows, nextCleanup) == Cleaned(Table(old(rows), old(nextCleanup)), window, clock, now)
    {
      if clock < nextCleanup {
        return;
      }
      rows := Unexpired(rows, now);
      var interval := if window < MINUTE then window else MINUTE;
      nextCleanup := clock + if interval > SECOND then interval else SECOND;
    }

    method Take(key: string, limit: int, window: Time, clock: Time, now: int) returns (result: Result)
      requires window > 0
      modifies this
      ensures (Table(rows, nextCleanup), result) == SqlTake(Table(old(rows), old(nextCleanup)), key, limit, window, clock, now)
    {
      Cleanup(window, clock, now);
      var seconds := window / SECOND;
      if window % SECOND != 0 {
        seconds := seconds + 1;
      }
      var row := Upserted(rows, key, seconds, limit, now);
      rows := rows[key := row];
      result := Result(row.count <= limit, if limit - row.count > 0 then limit - row.count else 0, SECOND * row.resetAt);
    }
  }

  // ------------------------------------------------------------------- agreement

  /** A row that is still running at `now`. */
  predicate Live(rows: map<string, Row>, key: string, now: int)
  {
    key in rows && now < rows[key].resetAt
  }

  /** Counts never pass the limit by more than one. */
  predicate Within(rows: map<string, Row>, limit: int)
  {
    forall key :: key in rows ==> 1 <= rows[key].count <= limit + 1
  }

  predicate AgreesAt(m: Buckets, rows: map<string, Row>, key: string, limit: int, now: int)
  {
    && (Live(rows, key, now) <==> key in m && SECOND * now < m[key].reset)
    && (Live(rows, key, now) ==> m[key].reset == SECOND * rows[key].resetAt && m[key].count == Min(rows[key].count, limit))
  }

  /** The running buckets of both stores correspond. */
  ghost predicate Agrees(m: Buckets, rows: map<string, Row>, limit: int, now: int)
  {
    forall key {:trigger AgreesAt(m, rows, key, limit, now)} :: AgreesAt(m, rows, key, limit, now)
  }

  /** Time passing ends the same buckets in both stores. */
  lemma AgreesLater(m: Buckets, rows: map<string, Row>, limit: int, now: int, later: int)
    requires Agrees(m, rows, limit, now) && now <= later
    ensures Agrees(m, rows, limit, later)
  {
    forall key
      ensures AgreesAt(m, rows, key, limit, later)
    {
      assert AgreesAt(m, rows, key, limit, now);
    }
  }

  lemma CleanedAgrees(m: Buckets, t: Table, limit: int, window: Time, clock: Time, now: int)
    requires Agrees(m, t.rows, limit, now) && Within(t.rows, limit)
    ensures Agrees(m, Cleaned(t, window, clock, now).rows, limit, now) && Within(Cleaned(t, window, clock, now).rows, limit)
  {
    forall key
      ensures AgreesAt(m, Cleaned(t, window, clock, now).rows, key, limit, now)
    {
      assert AgreesAt(m, t.rows, key, limit, now);
    }
  }

  /** One call with a whole-second window and clock is answered alike, and the stores still correspond. */
  lemma TakeAgrees(m: Buckets, t: Table, key: string, c: Config, now: int)
    requires c.limit >= 1 && c.window > 0 && c.window % SECOND == 0
    requires Agrees(m, t.rows, c.limit, now) && Within(t.rows, c.limit)
    requires OutcomeOf(m, Call(key, SECOND * now), c).Taken?
    ensures var (t', result) := SqlTake(t, key, c.limit, c.window, SECOND * now, now);
            && result == OutcomeOf(m, Call(key, SECOND * now), c).result
            && Agrees(After(m, Call(key, SECOND * now), c), t'.rows, c.limit, now) && Within(t'.rows, c.limit)
  {
    CleanedAgrees(m, t, c.limit, c.window, SECOND * now, now);
    var cleaned := Cleaned(t, c.window, SECOND * now, now);
    var t' := SqlTake(t, key, c.limit, c.window, SECOND * now, now).0;
    assert AgreesAt(m, cleaned.rows, key, c.limit, now);
    assert SECOND * WindowSeconds(c.window) == c.window;
    forall other
      ensures AgreesAt(After(m, Call(key, SECOND * now), c), t'.rows, other, c.limit, now)
    {
      assert AgreesAt(m, cleaned.rows, other, c.limit, now);
    }
  }

  datatype SqlCall = SqlCall(key: string, second: int)

  function MemoryResults(m: Buckets, calls: seq<SqlCall>, c: Config): seq<Outcome>
    decreases |calls|
  {
    if calls == [] then []
    else
      var call := Call(calls[0].key, SECOND * calls[0].second);
      [OutcomeOf(m, call, c)] + MemoryResults(After(m, call, c), calls[1..], c)
  }

  function SqlResults(t: Table, calls: seq<SqlCall>, c: Config): seq<Outcome>
    requires c.window > 0
    decreases |calls|
  {
    if calls == [] then []
    else
      var (t', result) := SqlTake(t, calls[0].key, c.limit, c.window, SECOND * calls[0].second, calls[0].second);
      [Taken(result)] + SqlResults(t', calls[1..], c)
  }

  function FinalRows(t: Table, calls: seq<SqlCall>, c: Config): map<string, Row>
    requires c.window > 0
    decreases |calls|
  {
    if calls == [] then t.rows
    else FinalRows(SqlTake(t, calls[0].key, c.limit, c.window, SECOND * calls[0].second, calls[0].second).0, calls[1..], c)
  }

  predicate SecondsOrdered(calls: seq<SqlCall>)
  {
    forall i, j :: 0 <= i < j < |calls| ==> calls[i].second <= calls[j].second
  }

  /**
   Fed the same whole-second clock and window, and while the memory store is not full, both
   stores give the same answers over every run, and SQL counts stay representable.
   */
  lemma {:induction false} StoresAgree(m: Buckets, t: Table, calls: seq<SqlCall>, c: Config, now: int)
    requires 1 <= c.limit < MAX_INT64 && c.window > 0 && c.window % SECOND == 0
    requires Agrees(m, t.rows, c.limit, now) && Within(t.rows, c.limit)
    requires SecondsOrdered(calls) && (calls != [] ==> now <= calls[0].second)
    requires forall outcome :: outcome in MemoryResults(m, calls, c) ==> outcome.Taken?
    ensures SqlResults(t, calls, c) == MemoryResults(m, calls, c)
    ensures Within(FinalRows(t, calls, c), c.limit)
    ensures forall key :: key in FinalRows(t, calls, c) ==> FinalRows(t, calls, c)[key].count <= MAX_INT64
    decreases |calls|
  {
    if calls != [] {
      var call := Call(calls[0].key, SECOND * calls[0].second);
      assert OutcomeOf(m, call, c) in MemoryResults(m, calls, c);
      AgreesLater(m, t.rows, c.limit, now, calls[0].second);
      TakeAgrees(m, t, calls[0].key, c, calls[0].second);
      assert forall outcome :: outcome in MemoryResults(After(m, call, c), calls[1..], c) ==> outcome in MemoryResults(m, calls, c);
      StoresAgree(After(m, call, c), SqlTake(t, calls[0].key, c.limit, c.window, SECOND * calls[0].second, calls[0].second).0,
                  calls[1..], c, calls[0].second);
    }
  }

  /** In particular from two empty stores. */
  lemma EmptyStoresAgree(calls: seq<SqlCall>, c: Config)
    requires 1 <= c.limit < MAX_INT64 && c.window > 0 && c.window % SECOND == 0 && SecondsOrdered(calls)
    requires forall outcome :: outcome in MemoryResults(map[], calls, c) ==> outcome.Taken?
    ensures SqlResults(Table(map[], 0), calls, c) == MemoryResults(map[], calls, c)
  {
    StoresAgree(map[], Table(map[], 0), calls, c, if calls == [] then 0 else calls[0].second);
  }

  /** A window that is not a whole number of seconds is rounded up by SQL only, so already the first answers differ. */
  lemma WholeSecondsNeeded(key: string, c: Config, now: int)
    requires c.limit >= 1 && c.window > 0 && c.maxKeys >= 1
    ensures Taken(SqlTake(Table(map[], 0), key, c.limit, c.window, SECOND * now, now).1) == OutcomeOf(map[], Call(key, SECOND * now), c)
            <==> c.window % SECOND == 0
  {
    assert Cleaned(Table(map[], 0), c.window, SECOND * now, now).rows == map[];
  }
}
