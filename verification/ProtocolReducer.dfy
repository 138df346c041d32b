/** The reducer as it runs: a projection updated in place, proved to compute
    the reduction. */
module ProtocolReducer {
  import opened Base
  import opened Sorting
  import opened Protocol
  import opened ProtocolRuns

  lemma {:induction false} InsertIdAt(s: seq<Id>, id: Id, at: nat)
    requires Ascending(s) && at <= |s|
    requires (forall i :: 0 <= i < at ==> s[i] < id) && (forall i :: at <= i < |s| ==> id < s[i])
    ensures InsertId(s, id) == s[..at] + [id] + s[at..]
  {
    if at > 0 {
      InsertIdAt(s[1..], id, at - 1);
    }
  }

  /** Binary search in the ascending ids: where `id` is or belongs. */
  method FindId(s: seq<Id>, id: Id) returns (found: bool, at: nat)
    requires Ascending(s)
    ensures at <= |s| && (found <==> id in s) && (found ==> at < |s| && s[at] == id)
    ensures !found ==> (forall i :: 0 <= i < at ==> s[i] < id) && (forall i :: at <= i < |s| ==> id < s[i])
  {
    var lo, hi := 0, |s|;
    while lo < hi
      invariant 0 <= lo <= hi <= |s|
      invariant forall i :: 0 <= i < lo ==> s[i] < id
      invariant forall i :: hi <= i < |s| ==> id < s[i]
    {
      var mid := (lo + hi) / 2;
      if s[mid] == id {
        return true, mid;
      } else if s[mid] < id {
        lo := mid + 1;
      } else {
        hi := mid;
      }
    }
    return false, lo;
  }

  method HoldsId(held: seq<Held>, id: Id) returns (found: bool)
    ensures found <==> AlreadyHeld(held, id)
  {
    for i := 0 to |held|
      invariant forall k :: 0 <= k < i ==> held[k].message.id != id
    {
      if held[i].message.id == id {
        return true;
      }
    }
    return false;
  }

  method FindRevoked(entries: map<Id, Entry>) returns (key: Option<Id>)
    ensures key == FirstRevoked(entries)
  {
    key := None;
    var left := entries.Keys;
    while left != {}
      invariant left <= entries.Keys
      invariant key.Some? ==> key.value in entries && entries[key.value].state.Revoked?
      invariant forall k :: k in entries && k !in left && entries[k].state.Revoked? ==>
                  key.Some? && key.value <= k
      decreases left
    {
      var k := TakeAny(left);
      if entries[k].state.Revoked? && (key.None? || k < key.value) {
        key := Some(k);
      }
      left := left - {k};
    }
    if key.Some? {
      FirstRevokedIs(entries, key.value);
    } else {
      assert forall k :: !IsFirstRevoked(entries, k);
    }
  }

  lemma FirstRevokedIs(entries: map<Id, Entry>, key: Id)
    requires IsFirstRevoked(entries, key)
    ensures FirstRevoked(entries) == Some(key)
  {
  }

  class Reducer {
    var incomplete: bool
    var applied: seq<Id>
    var entries: map<Id, Entry>
    var pending: map<Id, seq<Held>>

    constructor ()
      ensures State() == Empty && Valid()
    {
      incomplete, applied, entries, pending := false, [], map[], map[];
    }

    ghost function State(): Projection
      reads this
    {
      Projection(incomplete, applied, entries, pending)
    }

    ghost predicate Valid()
      reads this
    {
      WellFormed(State())
    }

    /** The outcome and the fields are what the reduction says. */
    ghost predicate Matches(r: Result<seq<Job>, ProtocolError>, spec: Result<Reduced, ProtocolError>)
      reads this
    {
      match r
      case Err(error) => spec == Err(error)
      case Ok(imports) => Valid() && spec == Ok(Reduced(State(), imports))
    }

    method Register(id: Id)
      requires Ascending(applied)
      modifies this`incomplete, this`applied
      ensures State() == RegisterApplied(old(State()), id)
    {
      var found, at := FindId(applied, id);
      if found {
        return;
      }
      if |applied| >= MAX_APPLIED {
        incomplete := true;
        applied := applied[MAX_APPLIED / 2..];
      }
      found, at := FindId(applied, id);
      InsertIdAt(applied, id, at);
      applied := applied[..at] + [id] + applied[at..];
    }

    /** Applies one profile to an existing entry. */
    method ApplyToEntry(fp: Id, profile: Profile, id: Id, sender: string)
      returns (r: Result<Outcome, ProtocolError>)
      requires fp in entries
      modifies this`entries
      ensures r == ApplyProfile(old(entries)[fp], profile, id, sender)
      ensures r.Ok? ==> entries == old(entries)[fp := r.value.entry]
    {
      r := ApplyProfile(entries[fp], profile, id, sender);
      if r.Ok? {
        entries := entries[fp := r.value.entry];
      }
    }

    method Push(fp: Id, item: Held)
      modifies this`pending
      ensures State() == PushHeld(old(State()), fp, item)
    {
      var held := if fp in pending then pending[fp] else [];
      pending := pending[fp := SortBy(held + [item], HeldBefore)];
    }

    method HoldForLater(fp: Id, item: Held)
      modifies this`pending, this`incomplete
      ensures State() == HoldMessage(old(State()), fp, item)
    {
      var held := if fp in pending then pending[fp] else [];
      var already := HoldsId(held, item.message.id);
      if already {
        return;
      }
      if |held| >= MAX_PENDING_PER_FINGERPRINT || (|pending| >= MAX_PENDING_FINGERPRINTS && fp !in pending) {
        incomplete := true;
      }
      Push(fp, item);
    }

    /** One pass over the profiles held for `fp`. */
    method DrainPending(fp: Id, imports0: seq<Job>) returns (r: Result<seq<Job>, ProtocolError>)
      requires Valid() && fp in entries
      modifies this
      ensures Matches(r, Drain(Reduced(old(State()), imports0), fp))
    {
      if fp !in pending {
        DrainKeeps(Reduced(State(), imports0), fp);
        return Ok(imports0);
      }
      var held := pending[fp];
      pending := pending - {fp};
      r := Retry(fp, held, imports0);
    }

    method Retry(fp: Id, held: seq<Held>, imports0: seq<Job>) returns (r: Result<seq<Job>, ProtocolError>)
      requires Valid() && fp in entries
      modifies this
      ensures Matches(r, DrainAll(Reduced(old(State()), imports0), fp, held))
    {
      var imports := imports0;
      ghost var spec := DrainAll(Reduced(State(), imports), fp, held);
      for i := 0 to |held|
        invariant Valid() && fp in entries
        invariant spec == DrainAll(Reduced(State(), imports), fp, held[i..])
      {
        ghost var here := Reduced(State(), imports);
        assert held[i..][0] == held[i] && held[i..][1..] == held[i + 1..];
        var outcome := RetryOne(fp, held[i], imports);
        if outcome.Err? {
          return Err(outcome.error);
        }
        imports := outcome.value;
        assert DrainAll(here, fp, held[i..]) == DrainAll(Reduced(State(), imports), fp, held[i + 1..]);
      }
      return Ok(imports);
    }

    method RetryOne(fp: Id, item: Held, imports0: seq<Job>) returns (r: Result<seq<Job>, ProtocolError>)
      requires Valid() && fp in entries
      modifies this
      ensures Matches(r, DrainOne(Reduced(old(State()), imports0), fp, item))
      ensures r.Ok? ==> fp in entries
    {
      ghost var before := Reduced(State(), imports0);
      var outcome := ApplyToEntry(fp, item.profile, item.message.id, item.message.sender);
      if outcome.Err? {
        return Err(outcome.error);
      }
      DrainOneKeeps(before, fp, item);
      if outcome.value.held {
        assert entries == before.p.entries;
        Push(fp, item);
        return Ok(imports0);
      }
      Register(item.message.id);
      return Ok(imports0 + (if outcome.value.job.Some? then [outcome.value.job.value] else []));
    }

    /** Drops the first revoked entry when the projection is full. */
    method Evict()
      modifies this`entries, this`incomplete
      ensures State() == MakeRoom(old(State()))
    {
      if |entries| < MAX_ENTRIES {
        return;
      }
      var key := FindRevoked(entries);
      if key.Some? {
        entries := entries - {key.value};
      } else {
        incomplete := true;
      }
    }

    method AssignFirst(job: Job, generation: Option<nat>, id: Id, imports0: seq<Job>)
      returns (r: Result<seq<Job>, ProtocolError>)
      requires Valid()
      modifies this
      ensures Matches(r, FirstAssignment(Reduced(old(State()), imports0), job, generation, id))
    {
      ghost var before := Reduced(State(), imports0);
      if FirstAssignment(before, job, generation, id).Ok? {
        FirstAssignmentKeeps(before, job, generation, id);
      }
      MakeRoomKeeps(State());
      Evict();
      if |entries| >= MAX_ENTRIES {
        return Ok(imports0);
      }
      RegisterKeeps(State(), id);
      Register(id);
      SizeWith(entries, job.fingerprint, Assigning(job, generation, id));
      entries := entries[job.fingerprint := Assigning(job, generation, id)];
      r := DrainPending(job.fingerprint, imports0 + [job]);
    }

    method ApplyMessage(m: Message, profile: Profile, imports0: seq<Job>)
      returns (r: Result<seq<Job>, ProtocolError>)
      requires Valid()
      modifies this
      ensures Matches(r, StepProfile(Reduced(old(State()), imports0), m, profile))
    {
      var fp := FingerprintOf(profile);
      if fp in entries {
        r := ApplyBound(fp, m, profile, imports0);
      } else if profile.Assignment? {
        r := AssignFirst(profile.job, profile.generation, m.id, imports0);
      } else {
        var found, _ := FindId(applied, m.id);
        if !found {
          HoldForLater(fp, Held(m, profile));
        }
        r := Ok(imports0);
      }
    }

    /** A profile whose entry exists. */
    method ApplyBound(fp: Id, m: Message, profile: Profile, imports0: seq<Job>)
      returns (r: Result<seq<Job>, ProtocolError>)
      requires Valid() && fp in entries && fp == FingerprintOf(profile)
      modifies this
      ensures Matches(r, StepProfile(Reduced(old(State()), imports0), m, profile))
    {
      ghost var before := Reduced(State(), imports0);
      var outcome := ApplyToEntry(fp, profile, m.id, m.sender);
      if outcome.Err? {
        return Err(outcome.error);
      }
      if outcome.value.held {
        assert entries == before.p.entries;
        HoldForLater(fp, Held(m, profile));
        return Ok(imports0);
      }
      AppliedKeeps(before, fp, outcome.value, m.id);
      Register(m.id);
      var imports := imports0 + (if outcome.value.job.Some? then [outcome.value.job.value] else []);
      assert Applied(before, fp, outcome.value, m.id) == Reduced(State(), imports);
      r := DrainPending(fp, imports);
    }

    /**
     * Applies one batch in canonical id order. It computes exactly the
     * reduction of the batch and fails exactly when the reduction does. What
     * is stored then, and imported, is what some message said, and the last
     * message of each entry explains its state. A failed batch is thrown away
     * by the caller, so nothing is said about the fields then.
     */
    method ApplyBatch(messages: seq<Message>, parse: Parser) returns (r: Result<seq<Job>, ProtocolError>)
      requires Valid()
      modifies this
      ensures Matches(r, Batch(Reduced(old(State()), []), messages, parse))
      ensures r.Ok? ==> forall log :: Sourced(log, parse, old(State())) && Elements(messages) <= log ==>
                Sourced(log, parse, State()) && Imported(log, parse, old(State()), Reduced(State(), r.value))
    {
      var imports: seq<Job> := [];
      var ordered := SortBy(messages, ById);
      ghost var start := State();
      ghost var spec := Fold(Reduced(start, imports), ordered, parse);
      for i := 0 to |ordered|
        invariant Valid()
        invariant spec == Fold(Reduced(State(), imports), ordered[i..], parse)
      {
        ghost var here := Reduced(State(), imports);
        var m := ordered[i];
        assert ordered[i..][0] == m && ordered[i..][1..] == ordered[i + 1..];
        var profile := parse(m.body);
        if profile.Some? {
          var outcome := ApplyMessage(m, profile.value, imports);
          if outcome.Err? {
            return Err(outcome.error);
          }
          imports := outcome.value;
        }
        assert Step(here, m, parse) == Ok(Reduced(State(), imports));
      }
      assert ordered[|ordered|..] == [];
      forall log | Sourced(log, parse, start) && Elements(messages) <= log
        ensures Sourced(log, parse, State()) && Imported(log, parse, start, Reduced(State(), imports))
      {
        BatchSourced(log, parse, start, messages);
      }
      return Ok(imports);
    }
  }
}
