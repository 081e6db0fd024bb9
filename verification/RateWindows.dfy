/**
 What the fixed-window limiter promises over a run of calls with one limit, one window and a
 clock that does not go back.
 */
module RateWindows {
  import opened RateMemory

  datatype Call = Call(key: string, now: Time)

  datatype Config = Config(limit: int, window: Time, maxKeys: int)

  type Buckets = map<string, Bucket>

  function After(m: Buckets, call: Call, c: Config): Buckets
  {
    PlainTake(m, call.key, c.limit, c.window, call.now, c.maxKeys).0
  }

  function OutcomeOf(m: Buckets, call: Call, c: Config): Outcome
  {
    PlainTake(m, call.key, c.limit, c.window, call.now, c.maxKeys).1
  }

  /** No call of the run finds the store full. */
  predicate NeverFull(m: Buckets, calls: seq<Call>, c: Config)
    decreases |calls|
  {
    calls == [] || (OutcomeOf(m, calls[0], c).Taken? && NeverFull(After(m, calls[0], c), calls[1..], c))
  }

  /** The clock does not go back. */
  predicate Ordered(calls: seq<Call>)
  {
    forall i, j :: 0 <= i < j < |calls| ==> calls[i].now <= calls[j].now
  }

  predicate Counts(call: Call, key: string, lo: Time, hi: Time)
  {
    call.key == key && lo <= call.now <= hi
  }

  /** How many calls for the key in [lo, hi] are admitted. */
  function Admitted(m: Buckets, calls: seq<Call>, c: Config, key: string, lo: Time, hi: Time): nat
    decreases |calls|
  {
    if calls == [] then 0
    else
      var outcome := OutcomeOf(m, calls[0], c);
      (if Counts(calls[0], key, lo, hi) && outcome.Taken? && outcome.result.allowed then 1 else 0)
      + Admitted(After(m, calls[0], c), calls[1..], c, key, lo, hi)
  }

  /** How many calls for the key there are in [lo, hi]. */
  function Requested(calls: seq<Call>, key: string, lo: Time, hi: Time): nat
  {
    if calls == [] then 0
    else (if Counts(calls[0], key, lo, hi) then 1 else 0) + Requested(calls[1..], key, lo, hi)
  }

  function Min(a: int, b: int): int
  {
    if a < b then a else b
  }

  /** Every bucket's count is within the limit. */
  predicate Bounded(m: Buckets, c: Config)
  {
    forall key :: key in m ==> 0 <= m[key].count <= c.limit
  }

  /** The bucket a call for the key at `now` uses. */
  function Using(m: Buckets, key: string, c: Config, now: Time): Bucket
  {
    Current(m, key, c.window, now)
  }

  lemma TakeEffect(m: Buckets, call: Call, c: Config, key: string)
    requires Bounded(m, c) && c.limit >= 0 && OutcomeOf(m, call, c).Taken?
    ensures Bounded(After(m, call, c), c)
    ensures call.key == key ==>
              && key in After(m, call, c)
              && After(m, call, c)[key] == Counted(Using(m, key, c, call.now), c.limit)
              && OutcomeOf(m, call, c).result.allowed == (Using(m, key, c, call.now).count < c.limit)
    ensures call.key != key ==>
              && (key in After(m, call, c) <==> key in m && call.now < m[key].reset)
              && (key in After(m, call, c) ==> After(m, call, c)[key] == m[key])
  {
  }

  lemma {:induction false} NoneAfter(m: Buckets, calls: seq<Call>, c: Config, key: string, lo: Time, hi: Time)
    requires Ordered(calls) && (calls != [] ==> calls[0].now > hi)
    ensures Admitted(m, calls, c, key, lo, hi) == 0 && Requested(calls, key, lo, hi) == 0
    decreases |calls|
  {
    if calls != [] {
      NoneAfter(After(m, calls[0], c), calls[1..], c, key, lo, hi);
    }
  }

  /**
   While a bucket lives, it admits exactly the smaller of what is left of its limit and the
   number of calls.
   */
  lemma {:induction false} LiveBucketAdmits(m: Buckets, calls: seq<Call>, c: Config, key: string, lo: Time, hi: Time)
    requires c.limit >= 0 && Bounded(m, c) && NeverFull(m, calls, c) && Ordered(calls)
    requires key in m && hi < m[key].reset && (calls != [] ==> lo <= calls[0].now)
    ensures Admitted(m, calls, c, key, lo, hi) == Min(c.limit - m[key].count, Requested(calls, key, lo, hi))
    decreases |calls|
  {
    if calls == [] {
    } else if calls[0].now > hi {
      NoneAfter(m, calls, c, key, lo, hi);
    } else {
      TakeEffect(m, calls[0], c, key);
      assert calls[0] in calls;
      if |calls| > 1 {
        assert calls[1..][0] == calls[1];
      }
      LiveBucketAdmits(After(m, calls[0], c), calls[1..], c, key, lo, hi);
    }
  }

  /**
   Each window admits exactly the smaller of the limit and its number of calls: a window is
   opened by a call that finds no live bucket and lasts for one window's length.
   */
  lemma WindowAdmitsExactly(m: Buckets, calls: seq<Call>, c: Config)
    requires c.limit >= 0 && c.window > 0 && Bounded(m, c) && NeverFull(m, calls, c) && Ordered(calls) && calls != []
    requires calls[0].key !in Alive(m, calls[0].now)
    ensures var start := calls[0].now;
            Admitted(m, calls, c, calls[0].key, start, start + c.window - 1)
            == Min(c.limit, Requested(calls, calls[0].key, start, start + c.window - 1))
  {
    var key, start := calls[0].key, calls[0].now;
    TakeEffect(m, calls[0], c, key);
    LiveBucketAdmits(After(m, calls[0], c), calls[1..], c, key, start, start + c.window - 1);
  }

  /** From a call on, at most the rest of the bucket in use and one more window's limit are admitted before `hi`. */
  lemma {:induction false} TwoWindowsSuffice(m: Buckets, calls: seq<Call>, c: Config, key: string, lo: Time, hi: Time)
    requires c.limit >= 0 && c.window > 0 && Bounded(m, c) && NeverFull(m, calls, c) && Ordered(calls)
    requires calls != [] ==> lo <= calls[0].now && hi < Using(m, key, c, calls[0].now).reset + c.window
    ensures calls != [] ==> Admitted(m, calls, c, key, lo, hi) <= 2 * c.limit - Using(m, key, c, calls[0].now).count
    decreases |calls|, 1
  {
    if calls != [] {
      var used := Using(m, key, c, calls[0].now);
      TakeEffect(m, calls[0], c, key);
      var next := After(m, calls[0], c);
      if |calls| == 1 {
        assert Admitted(next, calls[1..], c, key, lo, hi) == 0;
      } else if calls[0].key == key && used.reset <= calls[1].now && calls[1].now <= hi {
        SecondWindow(next, calls[1..], c, key, lo, hi);
      } else if calls[1].now > hi {
        NoneAfter(next, calls[1..], c, key, lo, hi);
      } else {
        TwoWindowsCarryOn(m, calls, c, key, lo, hi);
      }
    }
  }

  /** Once the first window is over, the one opened next outlasts `hi`. */
  lemma SecondWindow(m: Buckets, calls: seq<Call>, c: Config, key: string, lo: Time, hi: Time)
    requires c.limit >= 0 && c.window > 0 && Bounded(m, c) && NeverFull(m, calls, c) && Ordered(calls) && calls != []
    requires lo <= calls[0].now <= hi < calls[0].now + c.window && (key in m ==> m[key].reset <= calls[0].now)
    ensures Admitted(m, calls, c, key, lo, hi) <= c.limit
    decreases |calls|, 0
  {
    TakeEffect(m, calls[0], c, key);
    var next := After(m, calls[0], c);
    if calls[0].key == key {
      LiveBucketAdmits(next, calls[1..], c, key, lo, hi);
    } else if |calls| > 1 {
      if calls[1].now > hi {
        NoneAfter(next, calls[1..], c, key, lo, hi);
      } else {
        SecondWindow(next, calls[1..], c, key, lo, hi);
      }
    }
  }

  lemma TwoWindowsCarryOn(m: Buckets, calls: seq<Call>, c: Config, key: string, lo: Time, hi: Time)
    requires c.limit >= 0 && c.window > 0 && Bounded(m, c) && NeverFull(m, calls, c) && Ordered(calls)
    requires |calls| > 1 && lo <= calls[0].now && hi < Using(m, key, c, calls[0].now).reset + c.window
    requires calls[1].now <= hi && (calls[0].key == key ==> calls[1].now < Using(m, key, c, calls[0].now).reset)
    ensures Admitted(m, calls, c, key, lo, hi) <= 2 * c.limit - Using(m, key, c, calls[0].now).count
    decreases |calls|, 0
  {
    TakeEffect(m, calls[0], c, key);
    var next := After(m, calls[0], c);
    var used := Using(m, key, c, calls[0].now);
    assert calls[1..][0] == calls[1] && calls[0].now <= calls[1].now;
    if calls[0].key != key && key in m && calls[0].now < m[key].reset <= calls[1].now {
      SecondWindow(next, calls[1..], c, key, lo, hi);
    } else {
      TwoWindowsSuffice(next, calls[1..], c, key, lo, hi);
    }
  }

  /**
   Any interval of one window's length, ends included, admits at most twice the limit for a
   key, wherever the windows fall.
   */
  lemma {:induction false} AtMostTwiceTheLimit(m: Buckets, calls: seq<Call>, c: Config, key: string, lo: Time)
    requires c.limit >= 0 && c.window > 0 && Bounded(m, c) && NeverFull(m, calls, c) && Ordered(calls)
    ensures Admitted(m, calls, c, key, lo, lo + c.window) <= 2 * c.limit
    decreases |calls|
  {
    if calls == [] {
    } else if calls[0].now < lo {
      TakeEffect(m, calls[0], c, key);
      AtMostTwiceTheLimit(After(m, calls[0], c), calls[1..], c, key, lo);
    } else {
      TwoWindowsSuffice(m, calls, c, key, lo, lo + c.window);
      assert Using(m, key, c, calls[0].now).count >= 0;
    }
  }
}
