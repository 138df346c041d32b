/** Depth-bounded causal search over recorded work proposals. */
module CausalAncestry {
  import opened Base

  const DESIGNATION_MAX_CAUSAL_DEPTH: nat := 32

  datatype Decision = Decision(messageId: Id, orderedAfter: Option<Id>)

  datatype Proposal = Proposal(
    agent: string,
    intent: Id,
    source: Id,
    causalBase: Option<Id>,
    superseded: seq<Id>,
    decision: Option<Decision>)

  function AsSeq<T>(o: Option<T>): seq<T> {
    if o.Some? then [o.value] else []
  }

  /** `r` refers to the earlier message `id`: as its causal base, as a
      decision it superseded, or as what its decision was ordered after. */
  predicate Refers(r: Proposal, id: Id) {
    || r.causalBase == Some(id)
    || id in r.superseded
    || (r.decision.Some? && r.decision.value.orderedAfter == Some(id))
  }

  /** `r` declares `id` as its own: its intent, its source or its decision. */
  predicate Declares(r: Proposal, id: Id) {
    r.intent == id || r.source == id || (r.decision.Some? && r.decision.value.messageId == id)
  }

  /** The references one record carries to earlier messages. */
  function RecordedCausalRefs(r: Proposal): (ids: seq<Id>)
    ensures forall id :: id in ids <==> Refers(r, id)
  {
    AsSeq(r.causalBase) + r.superseded +
    (if r.decision.Some? then AsSeq(r.decision.value.orderedAfter) else [])
  }

  /** The message ids a record declares as its own. */
  function DeclaredIds(r: Proposal): (ids: seq<Id>)
    ensures forall id :: id in ids <==> Declares(r, id)
  {
    [r.intent, r.source] + (if r.decision.Some? then [r.decision.value.messageId] else [])
  }

  predicate IsOwn(older: Proposal, id: Id) {
    id == older.intent || id == older.source
  }

  /** A chain of exactly `n` recorded references leads from `newer` to `id`. */
  ghost predicate Chain(records: set<Proposal>, newer: Proposal, id: Id, n: nat)
    decreases n
  {
    if n == 0 then false
    else if n == 1 then Refers(newer, id)
    else exists mid, r :: Chain(records, newer, mid, n - 1) && Hop(records, mid, r, id)
  }

  ghost predicate Hop(records: set<Proposal>, mid: Id, r: Proposal, id: Id) {
    r in records && Declares(r, mid) && Refers(r, id)
  }

  /** `older` is within 32 references of `newer`. */
  ghost predicate OlderThan(records: set<Proposal>, older: Proposal, newer: Proposal) {
    exists n: nat, id :: n <= DESIGNATION_MAX_CAUSAL_DEPTH && Chain(records, newer, id, n)
                         && (older.intent == id || older.source == id)
  }

  /** Everything a visited id leads to has been visited or is waiting. */
  ghost predicate Expanded(records: set<Proposal>, visited: set<Id>, waiting: set<Id>) {
    forall mid, r, id :: mid in visited && Hop(records, mid, r, id) ==> id in visited || id in waiting
  }

  ghost predicate VisitedTo(records: set<Proposal>, newer: Proposal, visited: set<Id>, depth: nat) {
    forall n: nat, id :: n <= depth && Chain(records, newer, id, n) ==> id in visited
  }

  ghost predicate Waiting(records: set<Proposal>, newer: Proposal, ids: seq<Id>, depth: nat) {
    forall id :: id in ids ==> Chain(records, newer, id, depth)
  }

  lemma NextChainWaits(records: set<Proposal>, newer: Proposal, visited: set<Id>, waiting: set<Id>, depth: nat)
    requires VisitedTo(records, newer, visited, depth) && Expanded(records, visited, waiting)
    requires forall id :: Refers(newer, id) ==> id in visited || id in waiting
    ensures forall id :: Chain(records, newer, id, depth + 1) ==> id in visited || id in waiting
  {
    forall id | Chain(records, newer, id, depth + 1)
      ensures id in visited || id in waiting
    {
      if depth > 0 {
        var mid, r :| Chain(records, newer, mid, depth) && Hop(records, mid, r, id);
      }
    }
  }

  /** An exhausted search has visited every chain of every length. */
  lemma {:induction false} ExhaustedVisitsAll(records: set<Proposal>, newer: Proposal, visited: set<Id>, n: nat, id: Id)
    requires Expanded(records, visited, {}) && Chain(records, newer, id, n)
    requires forall x :: Refers(newer, x) ==> x in visited
    ensures id in visited
    decreases n
  {
    if n > 1 {
      var mid, r :| Chain(records, newer, mid, n - 1) && Hop(records, mid, r, id);
      ExhaustedVisitsAll(records, newer, visited, n - 1, mid);
    }
  }

  class Ancestry {
    ghost const records: set<Proposal>
    var byMessage: map<Id, seq<Proposal>>

    ghost predicate Valid()
      reads this
    {
      forall id, r :: (id in byMessage && r in byMessage[id]) <==> (r in records && Declares(r, id))
    }

    /** Indexes every proposal by each message id it declares. */
    constructor (all: seq<Proposal>)
      ensures Valid() && records == Elements(all)
    {
      records := Elements(all);
      byMessage := map[];
      new;
      for i := 0 to |all|
        invariant forall id, r :: (id in byMessage && r in byMessage[id]) <==> (r in all[..i] && Declares(r, id))
      {
        assert all[..i + 1] == all[..i] + [all[i]];
        var ids := DeclaredIds(all[i]);
        for k := 0 to |ids|
          invariant forall id, r :: (id in byMessage && r in byMessage[id]) <==>
                      ((r in all[..i] && Declares(r, id)) || (r == all[i] && id in ids[..k]))
        {
          assert ids[..k + 1] == ids[..k] + [ids[k]];
          var before := if ids[k] in byMessage then byMessage[ids[k]] else [];
          byMessage := byMessage[ids[k] := before + [all[i]]];
        }
        assert ids[..|ids|] == ids;
      }
      assert all[..|all|] == all;
    }

    /** The references reached through every record that declares `id`. */
    method RefsThrough(id: Id) returns (refs: seq<Id>)
      requires Valid()
      ensures forall x :: x in refs <==> exists r :: Hop(records, id, r, x)
    {
      refs := [];
      if id in byMessage {
        var rs := byMessage[id];
        for i := 0 to |rs|
          invariant forall x :: x in refs <==> exists r :: r in rs[..i] && Refers(r, x)
        {
          assert rs[..i + 1] == rs[..i] + [rs[i]];
          refs := refs + RecordedCausalRefs(rs[i]);
        }
        assert rs[..|rs|] == rs;
        assert forall r, x :: Hop(records, id, r, x) <==> r in rs && Refers(r, x);
      } else {
        assert forall r, x :: !Hop(records, id, r, x);
      }
    }

    /** One level: visits the waiting ids and collects the next level. */
    method VisitLevel(older: Proposal, ghost newer: Proposal, seen: set<Id>, frontier: seq<Id>, ghost depth: nat)
      returns (found: bool, visited: set<Id>, next: seq<Id>)
      requires Valid()
      requires Waiting(records, newer, frontier, depth + 1)
      requires Expanded(records, seen, Elements(frontier))
      requires forall x :: x in seen ==> !IsOwn(older, x)
      ensures found ==> exists id :: id in frontier && IsOwn(older, id)
      ensures !found ==>
                && visited == seen + Elements(frontier)
                && (forall x :: x in visited ==> !IsOwn(older, x))
                && Expanded(records, visited, Elements(next))
                && Waiting(records, newer, next, depth + 2)
    {
      visited, next, found := seen, [], false;
      for i := 0 to |frontier|
        invariant visited == seen + Elements(frontier[..i])
        invariant forall x :: x in visited ==> !IsOwn(older, x)
        invariant Expanded(records, visited, Elements(frontier) + Elements(next))
        invariant Waiting(records, newer, next, depth + 2)
      {
        var id := frontier[i];
        assert Elements(frontier[..i + 1]) == Elements(frontier[..i]) + {id};
        if id in visited {
          continue;
        }
        if IsOwn(older, id) {
          return true, visited, next;
        }
        visited := visited + {id};
        var refs := RefsThrough(id);
        forall x | x in refs
          ensures Chain(records, newer, x, depth + 2)
        {
          var r :| Hop(records, id, r, x);
          assert Chain(records, newer, id, depth + 1) && Hop(records, id, r, x);
        }
        assert Elements(next + refs) == Elements(next) + Elements(refs);
        next := next + refs;
      }
      assert frontier[..|frontier|] == frontier;
    }

    /** True exactly when a chain of at most 32 recorded references leads from
        `newer` to `older`'s intent or source message, cycles or not. */
    method CausallyReferences(older: Proposal, newer: Proposal) returns (yes: bool)
      requires Valid()
      ensures yes <==> OlderThan(records, older, newer)
    {
      var visited: set<Id> := {};
      var frontier := RecordedCausalRefs(newer);
      var depth := 0;
      while frontier != [] && depth < DESIGNATION_MAX_CAUSAL_DEPTH
        invariant depth <= DESIGNATION_MAX_CAUSAL_DEPTH
        invariant Waiting(records, newer, frontier, depth + 1)
        invariant Expanded(records, visited, Elements(frontier))
        invariant VisitedTo(records, newer, visited, depth)
        invariant forall x :: Refers(newer, x) ==> x in visited || x in Elements(frontier)
        invariant forall x :: x in visited ==> !IsOwn(older, x)
        decreases DESIGNATION_MAX_CAUSAL_DEPTH - depth
      {
        NextChainWaits(records, newer, visited, Elements(frontier), depth);
        var found, seen, next := VisitLevel(older, newer, visited, frontier, depth);
        depth := depth + 1;
        if found {
          return true;
        }
        visited, frontier := seen, next;
      }
      if frontier == [] {
        forall n: nat, id | Chain(records, newer, id, n)
          ensures id in visited
        {
          ExhaustedVisitsAll(records, newer, visited, n, id);
        }
      }
      return false;
    }

    /** Index `i` is older than every other eligible author. */
    ghost predicate OldestAt(eligible: seq<Proposal>, i: int)
      requires 0 <= i < |eligible|
    {
      forall k :: 0 <= k < |eligible| && k != i ==> OlderThan(records, eligible[i], eligible[k])
    }

    /** The unique eligible author strictly older than every other one. */
    method StrictlyOldestAuthor(eligible: seq<Proposal>) returns (oldest: Option<nat>)
      requires Valid()
      ensures oldest.Some? ==>
                && oldest.value < |eligible| && OldestAt(eligible, oldest.value)
                && forall k :: 0 <= k < |eligible| && OldestAt(eligible, k) ==> k == oldest.value
      ensures oldest.None? ==>
                || |eligible| == 0
                || (forall k :: 0 <= k < |eligible| ==> !OldestAt(eligible, k))
                || (exists a, b :: 0 <= a < b < |eligible| && OldestAt(eligible, a) && OldestAt(eligible, b))
    {
      if |eligible| < 2 {
        return if eligible == [] then None else Some(0);
      }
      oldest := None;
      for i := 0 to |eligible|
        invariant oldest.Some? ==> oldest.value < i && OldestAt(eligible, oldest.value)
        invariant forall k :: 0 <= k < i && OldestAt(eligible, k) ==> oldest == Some(k)
      {
        var olderThanAll := true;
        for k := 0 to |eligible|
          invariant olderThanAll <==>
                      forall x :: 0 <= x < k && x != i ==> OlderThan(records, eligible[i], eligible[x])
        {
          if i != k {
            var older := CausallyReferences(eligible[i], eligible[k]);
            olderThanAll := olderThanAll && older;
          }
        }
        assert olderThanAll <==> OldestAt(eligible, i);
        if olderThanAll {
          if oldest.Some? {
            return None;
          }
          oldest := Some(i);
        }
      }
    }
  }
}
