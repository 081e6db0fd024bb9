/**
 The bounded duplicate filter for interaction events: a set of recent identifiers and the
 order in which they were accepted, oldest first.
 */
module Interactions {
  const RECENT := 4096

  /** The most recent `RECENT` elements. */
  function Recent(accepted: seq<string>): (recent: seq<string>)
    ensures |recent| <= RECENT && |recent| <= |accepted|
    ensures forall i :: 0 <= i < |recent| ==> recent[i] == accepted[|accepted| - |recent| + i]
  {
    if |accepted| <= RECENT then accepted else accepted[|accepted| - RECENT..]
  }

  /**
   The filter's intended behaviour over a whole run: which events are accepted, given the
   identifiers accepted so far. An event without an identifier is always accepted.
   */
  function Remember(accepted: seq<string>, id: string): seq<string>
  {
    if id == "" || id in Recent(accepted) then accepted else accepted + [id]
  }

  function Run(accepted: seq<string>, ids: seq<string>): (after: seq<string>)
    ensures accepted <= after
    decreases |ids|
  {
    if ids == [] then accepted else Run(Remember(accepted, ids[0]), ids[1..])
  }

  /** Equal identifiers among the accepted ones are more than `RECENT` apart. */
  ghost predicate Spaced(accepted: seq<string>)
  {
    forall i, j :: 0 <= i < j < |accepted| && accepted[i] == accepted[j] ==> j - i > RECENT
  }

  /** Over any run of events an identifier is accepted again only after 4096 others. */
  lemma {:induction false} AcceptedAreSpaced(accepted: seq<string>, ids: seq<string>)
    requires Spaced(accepted)
    ensures Spaced(Run(accepted, ids))
    decreases |ids|
  {
    if ids != [] {
      RememberSpaced(accepted, ids[0]);
      AcceptedAreSpaced(Remember(accepted, ids[0]), ids[1..]);
    }
  }

  lemma RememberSpaced(accepted: seq<string>, id: string)
    requires Spaced(accepted)
    ensures Spaced(Remember(accepted, id))
  {
    var recent := Recent(accepted);
    forall k | |accepted| - |recent| <= k < |accepted|
      ensures accepted[k] in recent
    {
      assert accepted[k] == recent[k - (|accepted| - |recent|)];
    }
  }

  /** An identifier is accepted exactly if it is none of the last 4096 accepted ones. */
  lemma AcceptsExactly(accepted: seq<string>, id: string)
    requires id != ""
    ensures Remember(accepted, id)
            == if exists k :: 0 <= k < |accepted| && |accepted| - 4096 <= k && accepted[k] == id then accepted else accepted + [id]
  {
    var recent := Recent(accepted);
    if k :| 0 <= k < |accepted| && |accepted| - 4096 <= k && accepted[k] == id {
      assert recent[k - (|accepted| - |recent|)] == id;
    }
  }

  class Filter {
    var interactions: set<string>
    var order: seq<string>
    ghost var accepted: seq<string>  // every identifier ever accepted

    /** Set and order hold the same distinct identifiers: the most recently accepted ones. */
    ghost predicate Valid()
      reads this
    {
      && order == Recent(accepted)
      && Spaced(accepted)
      && interactions == (set id | id in order)
    }

    constructor ()
      ensures Valid() && accepted == []
    {
      interactions, order, accepted := {}, [], [];
    }

    /** claimInteraction; an empty `id` stands for data without a usable identifier. */
    method Claim(id: string) returns (claimed: bool)
      requires Valid()
      modifies this
      ensures Valid()
      ensures claimed <==> id == "" || id !in Recent(old(accepted))
      ensures accepted == Remember(old(accepted), id)
    {
      if id == "" {
        return true;
      }
      if id in interactions {
        return false;
      }
      RememberSpaced(accepted, id);
      DistinctRecent(accepted);
      RecentGrows(accepted, id);
      if |order| == RECENT {
        SetRotates(order, id);
        interactions := interactions - {order[0]};
        order := order[1..] + [id];
      } else {
        order := order + [id];
      }
      interactions := interactions + {id};
      accepted := accepted + [id];
      return true;
    }
  }

  lemma RecentGrows(accepted: seq<string>, id: string)
    ensures Recent(accepted + [id]) ==
              if |Recent(accepted)| == RECENT then Recent(accepted)[1..] + [id] else Recent(accepted) + [id]
  {
  }

  lemma SetRotates(order: seq<string>, id: string)
    requires order != [] && forall i, j :: 0 <= i < j < |order| ==> order[i] != order[j]
    ensures (set x | x in order) - {order[0]} + {id} == (set x | x in order[1..] + [id])
  {
    var rest := order[1..];
    assert order[0] !in rest;
    assert forall x :: x in order <==> x == order[0] || x in rest;
  }

  /** The set never holds more than 4096 identifiers. */
  lemma FilterBounded(accepted: seq<string>)
    ensures |set id | id in Recent(accepted)| <= RECENT
  {
    SetOfSeq(Recent(accepted));
  }

  lemma DistinctRecent(accepted: seq<string>)
    requires Spaced(accepted)
    ensures forall i, j :: 0 <= i < j < |Recent(accepted)| ==> Recent(accepted)[i] != Recent(accepted)[j]
  {
  }

  lemma {:induction false} SetOfSeq(s: seq<string>)
    ensures |set x | x in s| <= |s|
  {
    if s != [] {
      SetOfSeq(s[1..]);
      assert (set x | x in s) == (set x | x in s[1..]) + {s[0]};
    }
  }
}
