/**
 The in-memory fixed-window limiter: a map of buckets and a binary heap of their
 expirations, against a plain map that forgets expired buckets on every call.
 */
module RateMemory {
  type Time = int

  datatype Bucket = Bucket(count: int, reset: Time)
  datatype Expiration = Expiration(key: string, reset: Time)
  datatype Result = Result(allowed: bool, remaining: int, reset: Time)
  datatype Outcome = Taken(result: Result) | StoreFull

  const DEFAULT_MAX_KEYS := 100_000

  // -------------------------------------------------------------- the plain map

  function Alive(buckets: map<string, Bucket>, now: Time): map<string, Bucket>
  {
    map key | key in buckets && now < buckets[key].reset :: buckets[key]
  }

  function Current(buckets: map<string, Bucket>, key: string, window: Time, now: Time): Bucket
  {
    if key in Alive(buckets, now) then buckets[key] else Bucket(0, now + window)
  }

  function Counted(bucket: Bucket, limit: int): Bucket
  {
    if bucket.count < limit then bucket.(count := bucket.count + 1) else bucket
  }

  function Answer(bucket: Bucket, limit: int): Result
  {
    var counted := Counted(bucket, limit);
    Result(bucket.count < limit, if limit - counted.count > 0 then limit - counted.count else 0, bucket.reset)
  }

  function PlainTake(buckets: map<string, Bucket>, key: string, limit: int, window: Time, now: Time, maxKeys: int)
    : (map<string, Bucket>, Outcome)
  {
    var alive := Alive(buckets, now);
    if key !in alive && |alive| >= maxKeys then (alive, StoreFull)
    else
      var bucket := Current(buckets, key, window, now);
      (alive[key := Counted(bucket, limit)], Taken(Answer(bucket, limit)))
  }

  // -------------------------------------------------------------------- the heap

  function Parent(i: nat): nat
    requires i > 0
  {
    (i - 1) / 2
  }

  ghost predicate InOrder(h: seq<Expiration>, i: nat)
    requires i < |h|
  {
    i == 0 || h[Parent(i)].reset <= h[i].reset
  }

  ghost predicate IsHeap(h: seq<Expiration>)
  {
    forall i {:trigger InOrder(h, i)} :: 0 <= i < |h| ==> InOrder(h, i)
  }

  /** A heap, except that the entry at `j` may belong further up. */
  ghost predicate HeapButUp(h: seq<Expiration>, j: nat)
  {
    && j < |h|
    && (forall i {:trigger InOrder(h, i)} :: 0 <= i < |h| && i != j ==> InOrder(h, i))
    && (forall i {:trigger InOrder(h, i)} :: 0 < i < |h| && j > 0 && Parent(i) == j ==> h[Parent(j)].reset <= h[i].reset)
  }

  /** The first `n` entries are a heap, except that the one at `j` may belong further down. */
  ghost predicate HeapButDown(h: seq<Expiration>, n: nat, j: nat)
  {
    && j <= n <= |h|
    && (forall i {:trigger InOrder(h, i)} :: 0 < i < n && Parent(i) != j ==> InOrder(h, i))
    && (forall i {:trigger InOrder(h, i)} :: 0 < i < n && j > 0 && Parent(i) == j ==> h[Parent(j)].reset <= h[i].reset)
  }

  function Swapped(h: seq<Expiration>, i: nat, j: nat): (h': seq<Expiration>)
    requires i < |h| && j < |h|
    ensures |h'| == |h|
    ensures forall k :: 0 <= k < |h| ==> h'[k] == if k == i then h[j] else if k == j then h[i] else h[k]
    ensures multiset(h') == multiset(h)
  {
    h[i := h[j]][j := h[i]]
  }

  lemma {:induction false} RootIsLeast(h: seq<Expiration>, i: nat)
    requires IsHeap(h) && i < |h|
    ensures h[0].reset <= h[i].reset
    decreases i
  {
    if i > 0 {
      assert InOrder(h, i);
      RootIsLeast(h, Parent(i));
    }
  }

  lemma UpStep(h: seq<Expiration>, j: nat)
    requires HeapButUp(h, j) && j > 0 && h[j].reset < h[Parent(j)].reset
    ensures HeapButUp(Swapped(h, Parent(j), j), Parent(j))
  {
    var p := Parent(j);
    var h' := Swapped(h, p, j);
    forall i | 0 <= i < |h'|
      ensures i != p ==> InOrder(h', i)
      ensures i > 0 && p > 0 && Parent(i) == p ==> h'[Parent(p)].reset <= h'[i].reset
    {
      assert InOrder(h, p) && (i != j ==> InOrder(h, i));
      if i > 0 && Parent(i) == j {
        assert InOrder(h, i);
      }
    }
  }

  /** The child of `j` that comes first, if any child comes before `n`. */
  function LesserChild(h: seq<Expiration>, n: nat, j: nat): (c: nat)
    requires n <= |h| && 2 * j + 1 < n
    ensures j < c < n && Parent(c) == j
    ensures forall i :: 0 < i < n && Parent(i) == j ==> h[c].reset <= h[i].reset
  {
    if 2 * j + 2 < n && h[2 * j + 2].reset < h[2 * j + 1].reset then 2 * j + 2 else 2 * j + 1
  }

  lemma DownStep(h: seq<Expiration>, n: nat, j: nat)
    requires HeapButDown(h, n, j) && 2 * j + 1 < n
    requires h[LesserChild(h, n, j)].reset < h[j].reset
    ensures HeapButDown(Swapped(h, j, LesserChild(h, n, j)), n, LesserChild(h, n, j))
  {
    var c := LesserChild(h, n, j);
    var h' := Swapped(h, j, c);
    forall i | 0 < i < n
      ensures Parent(i) != c ==> InOrder(h', i)
      ensures Parent(i) == c ==> h'[Parent(c)].reset <= h'[i].reset
    {
      assert Parent(i) != j ==> InOrder(h, i);
      assert InOrder(h, c) || Parent(c) == j;
      if i == j {
        assert InOrder(h, c) || h[Parent(j)].reset <= h[c].reset;
      }
    }
  }

  // ------------------------------------------------------------------- the store

  /** One expiration per bucket, carrying that bucket's reset. */
  ghost function Expirations(buckets: map<string, Bucket>): set<Expiration>
  {
    set key | key in buckets :: Expiration(key, buckets[key].reset)
  }

  class MemoryStore {
    var buckets: map<string, Bucket>
    var expirations: seq<Expiration>
    var maxKeys: int

    /** A valid heap that holds exactly one entry per bucket. */
    ghost predicate Valid()
      reads this
    {
      IsHeap(expirations) && multiset(expirations) == multiset(Expirations(buckets)) && maxKeys >= 0
    }

    constructor ()
      ensures Valid() && buckets == map[] && maxKeys == DEFAULT_MAX_KEYS
    {
      buckets, expirations, maxKeys := map[], [], DEFAULT_MAX_KEYS;
    }

    /** container/heap up */
    method Up(start: nat)
      requires HeapButUp(expirations, start)
      modifies this`expirations
      ensures IsHeap(expirations) && multiset(expirations) == multiset(old(expirations))
    {
      var j := start;
      while j > 0 && expirations[j].reset < expirations[Parent(j)].reset
        invariant HeapButUp(expirations, j)
        invariant multiset(expirations) == multiset(old(expirations))
        decreases j
      {
        UpStep(expirations, j);
        expirations := Swapped(expirations, Parent(j), j);
        j := Parent(j);
      }
      assert InOrder(expirations, j);
    }

    /** container/heap down, from the root */
    method Down(n: nat)
      requires HeapButDown(expirations, n, 0)
      modifies this`expirations
      ensures |expirations| == |old(expirations)| && expirations[n..] == old(expirations)[n..]
      ensures IsHeap(expirations[..n]) && multiset(expirations) == multiset(old(expirations))
    {
      var j := 0;
      while 2 * j + 1 < n && expirations[LesserChild(expirations, n, j)].reset < expirations[j].reset
        invariant HeapButDown(expirations, n, j)
        invariant |expirations| == |old(expirations)| && expirations[n..] == old(expirations)[n..]
        invariant multiset(expirations) == multiset(old(expirations))
        decreases n - j
      {
        DownStep(expirations, n, j);
        var c := LesserChild(expirations, n, j);
        expirations := Swapped(expirations, j, c);
        j := c;
      }
      DownEnds(expirations, n, j);
    }

    /** heap.Push */
    method HeapPush(e: Expiration)
      requires IsHeap(expirations)
      modifies this`expirations
      ensures IsHeap(expirations) && multiset(expirations) == multiset(old(expirations)) + multiset{e}
    {
      ghost var before := expirations;
      expirations := expirations + [e];
      PushedIsNearlyHeap(before, e);
      Up(|expirations| - 1);
    }

    /** heap.Pop */
    method HeapPop() returns (e: Expiration)
      requires IsHeap(expirations) && expirations != []
      modifies this`expirations
      ensures IsHeap(expirations) && multiset(expirations) == multiset(old(expirations)) - multiset{e}
      ensures e == old(expirations)[0]
    {
      ghost var before := expirations;
      var n := |expirations| - 1;
      expirations := Swapped(expirations, 0, n);
      PoppedIsNearlyHeap(before);
      Down(n);
      e := expirations[n];
      assert expirations == expirations[..n] + [e];
      assert expirations[n..][0] == before[0];
      expirations := expirations[..n];
    }

    /** The eviction loop of Take. */
    method Evict(now: Time)
      requires Valid()
      modifies this`buckets, this`expirations
      ensures Valid() && buckets == Alive(old(buckets), now)
    {
      while |expirations| > 0 && expirations[0].reset <= now
        invariant Valid()
        invariant buckets.Keys <= old(buckets).Keys && forall key :: key in buckets ==> buckets[key] == old(buckets)[key]
        invariant Alive(old(buckets), now).Keys <= buckets.Keys
        decreases |expirations|
      {
        ghost var before, entries := buckets, expirations;
        var expired := HeapPop();
        assert |multiset(expirations)| == |multiset(entries)| - 1;
        HeapMember(before, entries, expired);
        if expired.key in buckets && buckets[expired.key].reset == expired.reset {
          buckets := buckets - {expired.key};
        }
        ExpirationRemoved(before, expired);
      }
      AllAlive(buckets, expirations, now);
      assert buckets == Alive(old(buckets), now);
    }

    /** Take, once the store is locked and the context is known to be live. */
    method Take(key: string, limit: int, window: Time, now: Time) returns (outcome: Outcome)
      requires Valid()
      modifies this
      ensures Valid() && maxKeys == if old(maxKeys) == 0 then DEFAULT_MAX_KEYS else old(maxKeys)
      ensures (buckets, outcome) == PlainTake(old(buckets), key, limit, window, now, maxKeys)
    {
      if maxKeys == 0 {
        maxKeys := DEFAULT_MAX_KEYS;
      }
      Evict(now);
      ghost var alive := buckets;
      assert forall k :: k in alive ==> alive[k] == old(buckets)[k];
      var bucket := Bucket(0, 0);
      if key !in buckets || buckets[key].reset <= now {
        if key !in buckets && |buckets| >= maxKeys {
          return StoreFull;
        }
        bucket := Bucket(0, now + window);
        HeapPush(Expiration(key, bucket.reset));
        ExpirationAdded(alive, key, bucket);
      } else {
        bucket := buckets[key];
      }
      var allowed := bucket.count < limit;
      var counted := if allowed then bucket.(count := bucket.count + 1) else bucket;
      ExpirationsIgnoreCounts(alive[key := bucket], key, counted);
      assert key in alive ==> alive[key := bucket] == alive;
      buckets := buckets[key := counted];
      assert buckets == alive[key := bucket][key := counted];
      return Taken(Result(allowed, if limit - counted.count > 0 then limit - counted.count else 0, bucket.reset));
    }
  }

  // ------------------------------------------------------------ steps of the proof

  lemma DownEnds(h: seq<Expiration>, n: nat, j: nat)
    requires HeapButDown(h, n, j)
    requires 2 * j + 1 < n ==> h[j].reset <= h[LesserChild(h, n, j)].reset
    ensures IsHeap(h[..n])
  {
    forall i | 0 <= i < n
      ensures InOrder(h[..n], i)
    {
      if i > 0 && Parent(i) != j {
        assert InOrder(h, i);
      }
    }
  }

  lemma PushedIsNearlyHeap(h: seq<Expiration>, e: Expiration)
    requires IsHeap(h)
    ensures HeapButUp(h + [e], |h|)
    ensures multiset(h + [e]) == multiset(h) + multiset{e}
  {
    forall i | 0 <= i < |h|
      ensures InOrder(h + [e], i)
    {
      assert InOrder(h, i);
    }
    assert forall i :: 0 < i <= |h| ==> Parent(i) != |h|;
  }

  lemma PoppedIsNearlyHeap(h: seq<Expiration>)
    requires IsHeap(h) && h != []
    ensures HeapButDown(Swapped(h, 0, |h| - 1), |h| - 1, 0)
  {
    var h' := Swapped(h, 0, |h| - 1);
    forall i | 0 < i < |h| - 1 && Parent(i) != 0
      ensures InOrder(h', i)
    {
      assert InOrder(h, i);
    }
  }

  lemma ExpirationsMembers(buckets: map<string, Bucket>)
    ensures forall e :: e in Expirations(buckets) <==> e.key in buckets && buckets[e.key].reset == e.reset
  {
    forall e: Expiration | e.key in buckets && buckets[e.key].reset == e.reset
      ensures e in Expirations(buckets)
    {
      assert e == Expiration(e.key, buckets[e.key].reset);
    }
  }

  lemma HeapMember(buckets: map<string, Bucket>, h: seq<Expiration>, e: Expiration)
    requires multiset(h) == multiset(Expirations(buckets)) && e in h
    ensures e.key in buckets && buckets[e.key].reset == e.reset
  {
    assert e in multiset(h);
    assert e in Expirations(buckets);
  }

  lemma ExpirationRemoved(buckets: map<string, Bucket>, e: Expiration)
    requires e.key in buckets && buckets[e.key].reset == e.reset
    ensures multiset(Expirations(buckets - {e.key})) == multiset(Expirations(buckets)) - multiset{e}
  {
    ExpirationsMembers(buckets);
    ExpirationsMembers(buckets - {e.key});
    assert Expirations(buckets - {e.key}) == Expirations(buckets) - {e};
  }

  lemma ExpirationAdded(buckets: map<string, Bucket>, key: string, bucket: Bucket)
    requires key !in buckets
    ensures multiset(Expirations(buckets[key := bucket])) == multiset(Expirations(buckets)) + multiset{Expiration(key, bucket.reset)}
  {
    ExpirationsMembers(buckets);
    ExpirationsMembers(buckets[key := bucket]);
    assert Expirations(buckets[key := bucket]) == Expirations(buckets) + {Expiration(key, bucket.reset)};
  }

  lemma ExpirationsIgnoreCounts(buckets: map<string, Bucket>, key: string, bucket: Bucket)
    requires key in buckets && buckets[key].reset == bucket.reset
    ensures Expirations(buckets[key := bucket]) == Expirations(buckets)
  {
    ExpirationsMembers(buckets);
    ExpirationsMembers(buckets[key := bucket]);
  }

  lemma AllAlive(buckets: map<string, Bucket>, h: seq<Expiration>, now: Time)
    requires IsHeap(h) && multiset(h) == multiset(Expirations(buckets))
    requires h == [] || now < h[0].reset
    ensures forall key :: key in buckets ==> now < buckets[key].reset
  {
    forall key | key in buckets
      ensures now < buckets[key].reset
    {
      var e := Expiration(key, buckets[key].reset);
      assert e in multiset(Expirations(buckets));
      assert e in multiset(h);
      var i :| 0 <= i < |h| && h[i] == e;
      RootIsLeast(h, i);
    }
  }
}
