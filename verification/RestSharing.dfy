/**
 Which routes share a bucket: only routes of one resource, and those whose responses name
 one bucket.
 */
module RestSharing {
  import opened RestLimits
  import opened RestProtocol

  // ------------------------------------------------------------------ the major part

  /** The text after the last space of a route, or all of it. */
  ghost predicate IsMajor(route: string, major: string)
  {
    ' ' !in major && (route == major || exists prefix :: HasParts(route, prefix, major))
  }

  predicate HasParts(route: string, prefix: string, major: string)
  {
    route == prefix + " " + major
  }

  lemma {:induction false} MajorIsLast(route: string)
    ensures IsMajor(route, Major(route))
    ensures ' ' in route ==> exists prefix :: HasParts(route, prefix, Major(route))
    decreases |route|
  {
    if route != "" {
      var init, last := route[..|route| - 1], route[|route| - 1];
      if last == ' ' {
        assert HasParts(route, init, "");
      } else {
        MajorIsLast(init);
        if ' ' in init {
          var prefix :| HasParts(init, prefix, Major(init));
          assert HasParts(route, prefix, Major(init) + [last]);
        } else {
          assert ' ' !in route;
        }
      }
    }
  }

  lemma KeyEnds(front: string, init: string, last: char)
    ensures var text := front + " " + (init + [last]); text[..|text| - 1] == front + " " + init && text[|text| - 1] == last
  {
  }

  lemma {:induction false} MajorOfKey(front: string, major: string)
    requires ' ' !in major
    ensures Major(front + " " + major) == major
    decreases |major|
  {
    var text := front + " " + major;
    if major == "" {
      assert text == front + " ";
    } else {
      var init, last := major[..|major| - 1], major[|major| - 1];
      MajorOfKey(front, init);
      KeyEnds(front, init, last);
      assert major == init + [last];
    }
  }

  /** The shared bucket of a route is looked up by the bucket's name and the route's last part. */
  lemma KeyOf(route: string, header: Header)
    ensures Major(SharedKey(route, header)) == Major(route)
    ensures SharedKey(route, header) == header.bucket + " " + Major(route)
  {
    MajorOfKey(header.bucket, Major(route));
  }

  lemma KeysTell(route1: string, header1: Header, route2: string, header2: Header)
    ensures SharedKey(route1, header1) == SharedKey(route2, header2)
            <==> header1.bucket == header2.bucket && Major(route1) == Major(route2)
  {
    KeyOf(route1, header1);
    KeyOf(route2, header2);
    if Major(route1) == Major(route2) {
      Fronts(header1.bucket, header2.bucket, Major(route1));
    }
  }

  lemma Fronts(a: string, b: string, major: string)
    ensures a + " " + major == b + " " + major <==> a == b
  {
    var x, y := a + " " + major, b + " " + major;
    assert x[..|x| - |major| - 1] == a && y[..|y| - |major| - 1] == b;
  }

  // --------------------------------------------------- a bucket belongs to one resource

  /** A route, a shared key, or a request's route that leads to the bucket. */
  ghost predicate Leads(s: System, b: Id, text: string)
  {
    || (text in s.l.routes && s.l.routes[text] == b)
    || (text in s.l.buckets && s.l.buckets[text] == b)
    || exists t :: Uses(s, t, b, text)
  }

  ghost predicate Uses(s: System, t: nat, b: Id, route: string)
  {
    t in s.threads && UsesBucket(s.threads[t].phase) && s.threads[t].phase.b == b && s.threads[t].route == route
  }

  /** Whatever leads to one bucket has one major part. */
  ghost predicate OneResource(s: System)
  {
    forall b, x, y {:trigger Leads(s, b, x), Leads(s, b, y)} :: Leads(s, b, x) && Leads(s, b, y) ==> Major(x) == Major(y)
  }

  lemma LeadsExist(s: System, b: Id, text: string)
    requires WellFormed(s) && Leads(s, b, text)
    ensures b in s.l.heap
  {
    if t :| Uses(s, t, b, text) {
      assert ThreadRefs(s, t);
    }
  }

  /** Every lead after a step was there before, is of the same resource as one, or belongs to a new bucket. */
  lemma LeadsAfter(s: System, a: Action, b: Id, text: string) returns (before: string)
    requires Ready(s, a) && Leads(Apply(s, a), b, text) && !(a.Fetch? && b == a.newId)
    ensures Leads(s, b, before) && Major(before) == Major(text)
  {
    before := text;
    if a.Respond? {
      before := RespondLeads(s, a, b, text);
    } else if a.Fetch? {
      FetchLeads(s, a, b, text);
    } else {
      OtherLeads(s, a, b, text);
    }
  }

  lemma FetchLeads(s: System, a: Action, b: Id, text: string)
    requires Ready(s, a) && a.Fetch? && Leads(Apply(s, a), b, text) && b != a.newId
    ensures Leads(s, b, text)
  {
    if t :| Uses(Apply(s, a), t, b, text) {
      assert t != a.t ==> Uses(s, t, b, text);
    }
  }

  lemma OtherLeads(s: System, a: Action, b: Id, text: string)
    requires Ready(s, a) && !a.Fetch? && !a.Respond? && Leads(Apply(s, a), b, text)
    ensures Leads(s, b, text)
  {
    if t :| Uses(Apply(s, a), t, b, text) {
      assert Uses(s, t, b, text);
    }
  }

  lemma RespondLeads(s: System, a: Action, b: Id, text: string) returns (before: string)
    requires Ready(s, a) && a.Respond? && Leads(Apply(s, a), b, text)
    ensures Leads(s, b, before) && Major(before) == Major(text)
  {
    var route, current := s.threads[a.t].route, s.threads[a.t].phase.b;
    var key, l' := SharedKey(route, a.header), Apply(s, a).l;
    KeyOf(route, a.header);
    before := text;
    if t :| Uses(Apply(s, a), t, b, text) {
      assert Uses(s, t, b, text);
    } else if !Leads(s, b, text) {
      RespondMoves(s, a, b, text);
      if text == route {
        before := key;
      } else {
        assert Uses(s, a.t, b, route);
        before := route;
      }
    }
  }

  /** What observe makes lead elsewhere: its route, to the known bucket, or the key, to the current one. */
  lemma RespondMoves(s: System, a: Action, b: Id, text: string)
    requires Ready(s, a) && a.Respond? && !Leads(s, b, text)
    requires var l := Apply(s, a).l; (text in l.routes && l.routes[text] == b) || (text in l.buckets && l.buckets[text] == b)
    ensures var route, current := s.threads[a.t].route, s.threads[a.t].phase.b;
            var key := SharedKey(route, a.header);
            || (text == route && key in s.l.buckets && s.l.buckets[key] == b)
            || (text != route && text == key && b == current)
            || (text == route && text == key && b == current && Uses(s, a.t, b, route))
  {
    ObserveMaps(s.l, s.threads[a.t].route, s.threads[a.t].phase.b, a.header, s.clock);
    if text == s.threads[a.t].route && s.threads[a.t].phase.b == b {
      assert Uses(s, a.t, b, text);
    }
  }

  lemma ObserveMaps<Key>(l: Limiter<Key>, route: string, current: Key, header: Header, now: Time)
    requires current in l.heap && Target(l, route, current, header) in l.heap
    ensures var l', key := Observe(l, route, current, header, now), SharedKey(route, header);
            if header.bucket == "" then l'.routes == l.routes && l'.buckets == l.buckets
            else if key in l.buckets then l'.routes == l.routes[route := l.buckets[key]] && l'.buckets == l.buckets
            else l'.routes == l.routes && l'.buckets == l.buckets[key := current]
  {
  }

  /**
   What a response does to the limiter: it leads its route to the bucket that the name and
   the route's last part are known for, or makes them known; and only an exhausted bucket,
   with no requests remaining and a time to wait, is closed until then, together with it.
   */
  lemma ObserveAnswers<Key>(l: Limiter<Key>, route: string, current: Key, header: Header, now: Time)
    requires current in l.heap && route in l.routes && l.routes[route] == current
    requires forall key :: key in l.buckets ==> l.buckets[key] in l.heap
    ensures var key := header.bucket + " " + Major(route);
            var known := header.bucket != "" && key in l.buckets;
            var target := if known then l.buckets[key] else current;
            && Target(l, route, current, header) in l.heap
            && var l' := Observe(l, route, current, header, now);
               && l'.routes == l.routes[route := target] && l'.global == l.global && l'.heap.Keys == l.heap.Keys
               && l'.buckets == (if header.bucket != "" && !known then l.buckets[key := current] else l.buckets)
               && forall b :: b in l.heap ==>
                    var d := if header.resetAfter.Some? then now + header.resetAfter.value else 0;
                    l'.heap[b] == if header.remaining == Some(0) && header.resetAfter.Some? && (b == current || b == target)
                                     && l.heap[b].reset < d then BucketState(l.heap[b].held, d) else l.heap[b]
  {
    KeyOf(route, header);
    assert l.routes[route := current] == l.routes;
  }

  lemma NothingLeadsYet(s: System, b: Id, text: string)
    requires WellFormed(s) && b !in s.l.heap
    ensures !Leads(s, b, text) && forall t :: !Uses(s, t, b, text)
  {
    forall t
      ensures !Uses(s, t, b, text)
    {
      assert ThreadRefs(s, t);
    }
  }

  lemma NewBucketLeads(s: System, a: Action, x: string)
    requires Ready(s, a) && a.Fetch? && Leads(Apply(s, a), a.newId, x)
    ensures x == s.threads[a.t].route
  {
    NothingLeadsYet(s, a.newId, x);
    if t :| Uses(Apply(s, a), t, a.newId, x) {
      assert t != a.t ==> Uses(s, t, a.newId, x);
    }
  }

  lemma StepKeepsResource(s: System, a: Action)
    requires Ready(s, a) && OneResource(s)
    ensures OneResource(Apply(s, a))
  {
    var s' := Apply(s, a);
    forall b, x, y | Leads(s', b, x) && Leads(s', b, y)
      ensures Major(x) == Major(y)
    {
      if a.Fetch? && b == a.newId {
        NewBucketLeads(s, a, x);
        NewBucketLeads(s, a, y);
      } else {
        var x' := LeadsAfter(s, a, b, x);
        var y' := LeadsAfter(s, a, b, y);
      }
    }
  }

  lemma {:induction false} ReachableIsOneResource(actions: seq<Action>, s: System)
    requires Reaches(actions, s)
    ensures OneResource(s)
  {
    if actions != [] {
      var before :| StepsTo(actions, before, s);
      ReachableIsOneResource(actions[..|actions| - 1], before);
      StepKeepsResource(before, actions[|actions| - 1]);
    }
  }

  /** In every reachable state, routes that lead to one bucket have the same text after their last space. */
  lemma SharersAreOneResource(actions: seq<Action>, s: System, route1: string, route2: string) returns (major: string)
    requires Reaches(actions, s) && route1 in s.l.routes && route2 in s.l.routes && s.l.routes[route1] == s.l.routes[route2]
    ensures IsMajor(route1, major) && IsMajor(route2, major)
  {
    ReachableIsOneResource(actions, s);
    var b := s.l.routes[route1];
    assert Leads(s, b, route1) && Leads(s, b, route2);
    major := Major(route1);
    MajorIsLast(route1);
    MajorIsLast(route2);
  }

  // --------------------------------------------------- one name leads to one bucket

  /** The route leads to the bucket that its resource has under this name. */
  ghost predicate Joined(s: System, route: string, name: string)
  {
    var key := SharedKey(route, Header(name, None, None));
    route in s.l.routes && key in s.l.buckets && s.l.buckets[key] == s.l.routes[route]
  }

  /** A response on the route that names another bucket. */
  predicate Renames(s: System, a: Action, route: string, name: string)
  {
    a.Respond? && a.t in s.threads && s.threads[a.t].route == route && a.header.bucket != "" && a.header.bucket != name
  }

  /** A response that names a bucket leads its route there, whether the name is new or known. */
  lemma ResponseJoins(actions: seq<Action>, s: System, a: Action)
    requires Reaches(actions, s) && Ready(s, a) && a.Respond? && a.header.bucket != ""
    ensures Joined(Apply(s, a), s.threads[a.t].route, a.header.bucket)
  {
    ReachableIsGood(actions, s);
    var route, current := s.threads[a.t].route, s.threads[a.t].phase.b;
    assert WindowOk(s, a.t);
    ObserveMaps(s.l, route, current, a.header, s.clock);
  }

  /** It stays there until a response on it names another one. */
  lemma StaysJoined(actions: seq<Action>, s: System, a: Action, route: string, name: string)
    requires Reaches(actions, s) && Ready(s, a) && Joined(s, route, name) && name != "" && !Renames(s, a, route, name)
    ensures Joined(Apply(s, a), route, name)
  {
    if a.Respond? {
      var current := s.threads[a.t].phase.b;
      ObserveMaps(s.l, s.threads[a.t].route, current, a.header, s.clock);
      KeysTell(s.threads[a.t].route, a.header, route, Header(name, None, None));
    }
  }

  /** From a reachable state, some further actions. */
  ghost predicate Continues(actions: seq<Action>, s: System, more: seq<Action>, s': System)
    decreases |more|, 1
  {
    if more == [] then s' == s && Reaches(actions, s) else exists before :: ContinuesTo(actions, s, more, before, s')
  }

  ghost predicate ContinuesTo(actions: seq<Action>, s: System, more: seq<Action>, before: System, s': System)
    requires more != []
    decreases |more|, 0
  {
    var last := |more| - 1;
    && Continues(actions, s, more[..last], before) && Reaches(actions + more[..last], before)
    && Ready(before, more[last]) && s' == Apply(before, more[last])
  }

  /** No response on the route names another bucket. */
  ghost predicate NeverRenamed(actions: seq<Action>, s: System, more: seq<Action>, route: string, name: string)
  {
    forall n, before {:trigger Continues(actions, s, more[..n], before)} ::
      0 <= n < |more| && Continues(actions, s, more[..n], before) ==> !Renames(before, more[n], route, name)
  }

  lemma {:induction false} StaysJoinedFor(actions: seq<Action>, s: System, more: seq<Action>, s': System, route: string, name: string)
    requires Continues(actions, s, more, s') && Joined(s, route, name) && name != ""
    requires NeverRenamed(actions, s, more, route, name)
    ensures Joined(s', route, name)
    decreases |more|
  {
    if more != [] {
      var last := |more| - 1;
      var before :| ContinuesTo(actions, s, more, before, s');
      forall n, earlier | 0 <= n < last && Continues(actions, s, more[..last][..n], earlier)
        ensures !Renames(earlier, more[..last][n], route, name)
      {
        assert more[..last][..n] == more[..n];
      }
      StaysJoinedFor(actions, s, more[..last], before, route, name);
      StaysJoined(actions + more[..last], before, more[last], route, name);
    }
  }

  /**
   Two routes of one resource whose responses have named the same bucket lead to one bucket,
   whatever happened in between, if no response on the first named another.
   */
  lemma NamedAlikeShare(actions: seq<Action>, s: System, first: Action, more: seq<Action>, s': System, second: Action)
    requires Reaches(actions, s) && first.Respond? && Ready(s, first) && first.header.bucket != ""
    requires Continues(actions + [first], Apply(s, first), more, s') && Reaches(actions + [first] + more, s')
    requires second.Respond? && Ready(s', second) && second.header.bucket == first.header.bucket
    requires var route1, route2 := s.threads[first.t].route, s'.threads[second.t].route;
             && Major(route1) == Major(route2)
             && NeverRenamed(actions + [first], Apply(s, first), more, route1, first.header.bucket)
    ensures var route1, route2, l := s.threads[first.t].route, s'.threads[second.t].route, Apply(s', second).l;
            route1 in l.routes && route2 in l.routes && l.routes[route1] == l.routes[route2]
  {
    var route1, route2, name := s.threads[first.t].route, s'.threads[second.t].route, first.header.bucket;
    ResponseJoins(actions, s, first);
    StaysJoinedFor(actions + [first], Apply(s, first), more, s', route1, name);
    ResponseJoins(actions + [first] + more, s', second);
    StaysJoined(actions + [first] + more, s', second, route1, name);
    KeysTell(route1, Header(name, None, None), route2, Header(name, None, None));
  }
}
