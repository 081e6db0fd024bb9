/**
 The Discord REST rate limiter: routes lead to buckets, a bucket admits one request at a
 time, and response headers rebind routes to shared buckets. Each function is one region
 that runs under the limiter's mutex.
 */
module RestLimits {
  type Time = nat

  datatype Option<T> = None | Some(value: T)

  /** `held` is the one-slot permit channel being full; no request is sent before `reset`. */
  datatype BucketState = BucketState(held: bool, reset: Time)

  datatype Limiter<Id> = Limiter(
    routes: map<string, Id>,
    buckets: map<string, Id>,
    heap: map<Id, BucketState>,
    global: Time)

  /** The rate-limit headers of a response; `None` is a missing or unparsable value. */
  datatype Header = Header(bucket: string, remaining: Option<int>, resetAfter: Option<nat>)

  function Empty<Id>(): Limiter<Id>
  {
    Limiter(map[], map[], map[], 0)
  }

  /** The part of a route after its last space: the path without the method. */
  function Major(route: string): (major: string)
    ensures |major| <= |route| && ' ' !in major
    ensures ' ' !in route ==> major == route
  {
    if route == "" then ""
    else if route[|route| - 1] == ' ' then ""
    else Major(route[..|route| - 1]) + [route[|route| - 1]]
  }

  function SharedKey(route: string, header: Header): string
  {
    header.bucket + " " + Major(route)
  }

  function Max(a: Time, b: Time): Time
  {
    if a < b then b else a
  }

  // ------------------------------------------------------------ locked regions

  /** lock, first region: the route's bucket, created when the route is new. */
  function Lookup<Id>(l: Limiter<Id>, route: string, newId: Id): (Limiter<Id>, Id)
  {
    if route in l.routes then (l, l.routes[route])
    else (l.(routes := l.routes[route := newId], heap := l.heap[newId := BucketState(false, 0)]), newId)
  }

  /** The response names a shared bucket that is already known. */
  predicate Known<Id>(l: Limiter<Id>, route: string, header: Header)
  {
    header.bucket != "" && SharedKey(route, header) in l.buckets
  }

  /** observe's target: the bucket the route leads to afterwards. */
  function Target<Id>(l: Limiter<Id>, route: string, current: Id, header: Header): Id
  {
    if Known(l, route, header) then l.buckets[SharedKey(route, header)] else current
  }

  function Bind<Id>(l: Limiter<Id>, route: string, current: Id, header: Header): Limiter<Id>
  {
    if header.bucket == "" then l
    else if Known(l, route, header) then l.(routes := l.routes[route := l.buckets[SharedKey(route, header)]])
    else l.(buckets := l.buckets[SharedKey(route, header) := current])
  }

  predicate Exhausted(header: Header)
  {
    header.remaining == Some(0) && header.resetAfter.Some?
  }

  function Push<Id>(l: Limiter<Id>, id: Id, deadline: Time): Limiter<Id>
    requires id in l.heap
  {
    l.(heap := l.heap[id := l.heap[id].(reset := Max(l.heap[id].reset, deadline))])
  }

  /** observe */
  function Observe<Id>(l: Limiter<Id>, route: string, current: Id, header: Header, now: Time): Limiter<Id>
    requires current in l.heap && Target(l, route, current, header) in l.heap
  {
    var l1 := Bind(l, route, current, header);
    if !Exhausted(header) then l1
    else Push(Push(l1, current, now + header.resetAfter.value), Target(l, route, current, header), now + header.resetAfter.value)
  }

  /** limited: a 429 answer. A global one delays every route, another one the bucket that was used. */
  function Limited<Id>(l: Limiter<Id>, id: Id, retry: nat, global: bool, now: Time): Limiter<Id>
    requires id in l.heap
  {
    if global then l.(global := Max(l.global, now + retry)) else Push(l, id, now + retry)
  }

  function SetHeld<Id>(l: Limiter<Id>, id: Id, held: bool): Limiter<Id>
    requires id in l.heap
  {
    l.(heap := l.heap[id := l.heap[id].(held := held)])
  }

  /** Buckets never disappear, permits are left alone, and deadlines never move backwards. */
  ghost predicate OnlyDelays<Id>(l: Limiter<Id>, l': Limiter<Id>)
  {
    && l'.heap.Keys == l.heap.Keys && l.global <= l'.global
    && forall b :: b in l.heap ==> l'.heap[b].held == l.heap[b].held && l.heap[b].reset <= l'.heap[b].reset
  }

  lemma ObserveEffect<Id>(l: Limiter<Id>, route: string, current: Id, header: Header, now: Time)
    requires current in l.heap && Target(l, route, current, header) in l.heap
    ensures var l' := Observe(l, route, current, header, now);
            && OnlyDelays(l, l')
            && (forall r :: r in l.routes ==> r in l'.routes && (r != route ==> l'.routes[r] == l.routes[r]))
            && (forall r :: r in l'.routes ==> r in l.routes || r == route)
            && (route in l.routes && l.routes[route] == current ==> l'.routes[route] == Target(l, route, current, header))
            && (forall key :: key in l'.buckets ==> (key in l.buckets && l'.buckets[key] == l.buckets[key]) || l'.buckets[key] == current)
            && (Exhausted(header) ==> l'.heap[Target(l, route, current, header)].reset >= now + header.resetAfter.value)
  {
  }

  /** Which deadlines observe moves, and where to. */
  lemma ObserveResets<Id>(l: Limiter<Id>, route: string, current: Id, header: Header, now: Time)
    requires current in l.heap && Target(l, route, current, header) in l.heap
    ensures var l' := Observe(l, route, current, header, now);
            && l'.heap.Keys == l.heap.Keys && l'.global == l.global
            && forall b :: b in l.heap ==>
                 l'.heap[b].reset == if Exhausted(header) && (b == current || b == Target(l, route, current, header))
                                     then Max(l.heap[b].reset, now + header.resetAfter.value) else l.heap[b].reset
  {
  }

  // -------------------------------------------------- when a 429 delays the route

  /** The response moves the route away from the bucket its request used. */
  predicate Rebinds<Id>(l: Limiter<Id>, route: string, current: Id, header: Header)
  {
    Known(l, route, header) && l.buckets[SharedKey(route, header)] != current
  }

  /**
   A 429 is reported to the bucket the request used, after observe may have moved the route
   to another one. With no other request in between (RestProtocol allows for those), its
   retry delay therefore reaches the route exactly when the response did
   not rebind it, unless the other bucket is already closed for as long.
   */
  lemma RetryReachesRoute<Id>(l: Limiter<Id>, route: string, current: Id, header: Header, retry: nat, seen: Time, now: Time)
    requires current in l.heap && Target(l, route, current, header) in l.heap
    requires route in l.routes && l.routes[route] == current
    ensures var after := Limited(Observe(l, route, current, header, seen), current, retry, false, now);
            var next := after.routes[route];
            && next == Target(l, route, current, header)
            && (next in after.heap && after.heap[next].reset >= now + retry <==>
                !Rebinds(l, route, current, header)
                || Max(l.heap[next].reset, if Exhausted(header) then seen + header.resetAfter.value else 0) >= now + retry)
  {
  }

  /** Two methods of one path are two routes with one major part. */
  lemma TwoRoutes()
    ensures "PUT /a" != "GET /a" && Major("PUT /a") == "/a" && Major("GET /a") == "/a"
  {
    assert Major("PUT /a") == "/a" by {
      assert "PUT /a"[..5] == "PUT /" && "PUT /"[..4] == "PUT " && Major("PUT ") == "" && Major("PUT /") == "" + "/";
    }
    assert Major("GET /a") == "/a" by {
      assert "GET /a"[..5] == "GET /" && "GET /"[..4] == "GET " && Major("GET ") == "" && Major("GET /") == "" + "/";
    }
    assert "PUT /a"[0] != "GET /a"[0];
  }

  /** Two routes of one path: after the second one learns it shares the first one's bucket, its 429 is lost. */
  lemma RetryCanMissRoute(header: Header, seen: Time, retry: nat)
    requires header.bucket != "" && !Exhausted(header) && retry > 0
    ensures var l1 := Lookup(Empty<nat>(), "PUT /a", 0).0;
            var l2 := Observe(l1, "PUT /a", 0, header, seen);
            var l3 := Lookup(l2, "GET /a", 1).0;
            && l3.routes == map["PUT /a" := 0, "GET /a" := 1]
            && Target(l3, "GET /a", 1, header) == 0 && 0 in l3.heap && 1 in l3.heap
            && var after := Limited(Observe(l3, "GET /a", 1, header, seen), 1, retry, false, seen);
               after.routes["GET /a"] == 0 && after.heap[0].reset == 0
  {
    TwoRoutes();
  }

  // ------------------------------------------------------------------ the class

  class RateBucket {
    var held: bool
    var reset: Time

    constructor ()
      ensures State() == BucketState(false, 0)
    {
      held, reset := false, 0;
    }

    function State(): BucketState
      reads this
    {
      BucketState(held, reset)
    }
  }

  class RateLimiter {
    var routes: map<string, RateBucket>
    var buckets: map<string, RateBucket>
    var global: Time
    ghost var Heap: map<RateBucket, BucketState>

    ghost function Contents(): Limiter<RateBucket>
      reads this
    {
      Limiter(routes, buckets, Heap, global)
    }

    ghost predicate Valid()
      reads this, Heap.Keys
    {
      && (forall b :: b in Heap ==> Heap[b] == b.State())
      && routes.Values <= Heap.Keys && buckets.Values <= Heap.Keys
    }

    constructor ()
      ensures Valid() && Contents() == Empty()
    {
      routes, buckets, global, Heap := map[], map[], 0, map[];
    }

    method BucketFor(route: string) returns (bucket: RateBucket)
      requires Valid()
      modifies this`routes, this`Heap
      ensures route !in old(routes) ==> fresh(bucket)
      ensures (Contents(), bucket) == Lookup(old(Contents()), route, bucket)
      ensures Valid()
    {
      if route in routes {
        bucket := routes[route];
      } else {
        bucket := new RateBucket();
        routes := routes[route := bucket];
        Heap := Heap[bucket := bucket.State()];
      }
    }

    method ObserveHeader(route: string, current: RateBucket, header: Header, now: Time)
      requires Valid() && current in Heap
      modifies this`routes, this`buckets, this`Heap, Heap.Keys
      ensures Target(old(Contents()), route, current, header) in old(Heap)
      ensures Contents() == Observe(old(Contents()), route, current, header, now)
      ensures Valid()
    {
      var target := current;
      if header.bucket != "" {
        var bucketKey := header.bucket + " " + Major(route);
        if bucketKey !in buckets {
          buckets := buckets[bucketKey := current];
        } else {
          var known := buckets[bucketKey];
          assert known in buckets.Values;
          routes := routes[route := known];
          target := known;
        }
      }
      if header.remaining != Some(0) || header.resetAfter.None? {
        return;
      }
      var deadline := now + header.resetAfter.value;
      PushBack(current, deadline);
      PushBack(target, deadline);
    }

    method PushBack(bucket: RateBucket, deadline: Time)
      requires Valid() && bucket in Heap
      modifies this`Heap, bucket
      ensures Contents() == Push(old(Contents()), bucket, deadline)
      ensures Valid()
    {
      if deadline > bucket.reset {
        bucket.reset := deadline;
      }
      Heap := Heap[bucket := bucket.State()];
    }

    method ReportLimited(bucket: RateBucket, retry: nat, global: bool, now: Time)
      requires Valid() && bucket in Heap
      modifies this`global, this`Heap, bucket
      ensures Contents() == Limited(old(Contents()), bucket, retry, global, now)
      ensures Valid()
    {
      if global {
        if now + retry > this.global {
          this.global := now + retry;
        }
        return;
      }
      PushBack(bucket, now + retry);
    }
  }
}
