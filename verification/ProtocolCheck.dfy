/** The check a projection must pass to be stored, and exactly which message
    makes it fail. */
module ProtocolCheck {
  import opened Base
  import opened Sorting
  import opened Protocol
  import opened ProtocolRuns
  import opened ProtocolPass

  // ----- the check as written

  predicate EntryValid(fp: Id, e: Entry) {
    && e.fingerprint == fp
    && (e.job.Some? ==> JobBinds(e.job.value, e))
    && (e.result.Some? ==> ResultBinds(e.result.value, e))
    && (e.answer.Some? ==> AnswerBinds(e.answer.value, e) && e.answer.value.generation == e.generation)
  }

  predicate PendingBounded(p: Projection) {
    && |p.pending| <= MAX_PENDING_FINGERPRINTS
    && (forall fp :: fp in p.pending ==> |p.pending[fp]| <= MAX_PENDING_PER_FINGERPRINT)
  }

  /** The bounds on held profiles are looked at once per entry, so not at all
      while there is none. */
  predicate Checks(p: Projection) {
    && |p.entries| <= MAX_ENTRIES && |p.applied| <= MAX_APPLIED
    && (forall fp :: fp in p.entries ==> EntryValid(fp, p.entries[fp]) && PendingBounded(p))
  }

  /** The stored answer is to another generation than the entry's. */
  predicate Outdated(e: Entry) {
    e.answer.Some? && e.answer.value.generation != e.generation
  }

  lemma SourcedIsValid(log: set<Message>, parse: Parser, fp: Id, e: Entry)
    requires EntrySourced(log, parse, fp, e)
    ensures EntryValid(fp, e) <==> !Outdated(e)
  {
  }

  // ----- which held profiles matter

  /** Applying the held profile changes the entry. */
  predicate Takes(e: Entry, h: Held) {
    ApplyHeld(e, h).Ok? && ApplyHeld(e, h).value.entry != e
  }

  /** Position of the first held profile that changes the entry. */
  function FirstTaker(e: Entry, items: seq<Held>): (k: nat)
    ensures k <= |items|
    ensures forall i :: 0 <= i < k ==> !Takes(e, items[i])
    ensures k < |items| ==> Takes(e, items[k])
  {
    if items == [] || Takes(e, items[0]) then 0 else 1 + FirstTaker(e, items[1..])
  }

  /** The entry after the first held profile that changes it, if any. */
  function AfterFirst(e: Entry, items: seq<Held>): Entry {
    var k := FirstTaker(e, items);
    if k < |items| then ApplyHeld(e, items[k]).value.entry else e
  }

  /** An answer is stored for which the result is still to come. */
  predicate AwaitsResult(e: Entry) {
    !e.state.Revoked? && e.result.None? && e.answer.Some?
  }

  /** The pass leaves an outdated answer: two of the held profiles decide, the
      first that changes the entry and, if an answer then awaits its result,
      the next one. */
  predicate LeavesOutdated(e: Entry, items: seq<Held>) {
    var k, e2 := FirstTaker(e, items), AfterFirst(e, items);
    if k < |items| && AwaitsResult(e2) then Outdated(AfterFirst(e2, items[k + 1..])) else Outdated(e2)
  }

  /** All ids come after the last profile the entry observed. */
  ghost predicate AllLater(e: Entry, items: seq<Held>) {
    forall i :: 0 <= i < |items| ==> e.observed < items[i].message.id
  }

  lemma TidyRest(items: seq<Held>)
    requires items != [] && TidyList(items)
    ensures TidyList(items[1..]) && !items[0].profile.Assignment?
    ensures forall i :: 0 <= i < |items[1..]| ==> items[0].message.id < items[1..][i].message.id
  {
    assert forall i :: 0 <= i < |items[1..]| ==> items[1..][i] == items[i + 1];
  }

  lemma TidyFrom(items: seq<Held>, k: nat)
    requires TidyList(items) && k <= |items|
    ensures TidyList(items[k..])
    ensures k > 0 ==> forall i :: 0 <= i < |items[k..]| ==> items[k - 1].message.id < items[k..][i].message.id
  {
    assert forall i :: 0 <= i < |items[k..]| ==> items[k..][i] == items[k + i];
  }

  /** Profiles that change nothing can be skipped. */
  lemma {:induction false} SkipToTaker(e: Entry, items: seq<Held>, k: nat)
    requires Pass(e, items).Ok? && k <= FirstTaker(e, items)
    ensures Pass(e, items[k..]).Ok? && Pass(e, items[k..]).value.entry == Pass(e, items).value.entry
    decreases k
  {
    if k == 0 {
      assert items[0..] == items;
    } else {
      assert !Takes(e, items[0]);
      SkipToTaker(e, items[1..], k - 1);
      assert items[1..][k - 1..] == items[k..];
    }
  }

  /** A revoked entry stays as it is. */
  lemma {:induction false} RevokedPass(e: Entry, items: seq<Held>)
    requires e.state.Revoked? && TidyList(items) && Pass(e, items).Ok?
    ensures Pass(e, items).value.entry == e
    decreases |items|
  {
    if items != [] {
      TidyRest(items);
      RevokedPass(e, items[1..]);
    }
  }

  /** With result and answer both stored, later profiles can only revoke. */
  lemma {:induction false} SettledPass(e: Entry, items: seq<Held>)
    requires e.result.Some? && e.answer.Some? && TidyList(items) && AllLater(e, items) && Pass(e, items).Ok?
    ensures Outdated(Pass(e, items).value.entry) <==> Outdated(e)
    decreases |items|
  {
    if items != [] {
      TidyRest(items);
      var o := ApplyHeld(e, items[0]).value;
      if o.entry.state.Revoked? {
        RevokedPass(o.entry, items[1..]);
      } else {
        assert o.entry == e;
        assert forall i :: 0 <= i < |items[1..]| ==> items[1..][i] == items[i + 1];
        SettledPass(e, items[1..]);
      }
    }
  }

  /** With only a result stored, an answer is taken for the generation in
      force or not at all. */
  lemma {:induction false} AnswerablePass(e: Entry, items: seq<Held>)
    requires e.result.Some? && e.answer.None? && TidyList(items) && AllLater(e, items) && Pass(e, items).Ok?
    ensures !Outdated(Pass(e, items).value.entry)
    decreases |items|
  {
    if items != [] {
      TidyRest(items);
      var o := ApplyHeld(e, items[0]).value;
      assert forall i :: 0 <= i < |items[1..]| ==> items[1..][i] == items[i + 1];
      if o.entry.state.Revoked? {
        RevokedPass(o.entry, items[1..]);
      } else if o.entry == e {
        AnswerablePass(e, items[1..]);
      } else {
        SettledPass(o.entry, items[1..]);
      }
    }
  }

  lemma PassFront(e: Entry, h: Held, rest: seq<Held>)
    requires Pass(e, [h] + rest).Ok?
    ensures ApplyHeld(e, h).Ok? && Pass(ApplyHeld(e, h).value.entry, rest).Ok?
    ensures Pass(e, [h] + rest).value.entry == Pass(ApplyHeld(e, h).value.entry, rest).value.entry
  {
    assert ([h] + rest)[1..] == rest;
  }

  /** `e2` takes over from `e` for what follows position `k`. */
  ghost predicate TakesOver(e: Entry, items: seq<Held>, k: nat, e2: Entry)
    requires k < |items|
  {
    var rest := items[k + 1..];
    && Pass(e, items).Ok? && Pass(e2, rest).Ok? && Pass(e2, rest).value.entry == Pass(e, items).value.entry
    && TidyList(rest) && AllLater(e2, rest)
  }

  /** What the first taker leaves is passed over the rest. */
  lemma FromTaker(e: Entry, items: seq<Held>)
    requires TidyList(items) && Pass(e, items).Ok?
    ensures var k := FirstTaker(e, items);
            if k == |items| then Pass(e, items).value.entry == e
            else TakesOver(e, items, k, ApplyHeld(e, items[k]).value.entry)
  {
    var k := FirstTaker(e, items);
    SkipToTaker(e, items, k);
    if k == |items| {
      assert items[k..] == [];
    } else {
      TakerTakesOver(e, items, k);
    }
  }

  lemma TakerTakesOver(e: Entry, items: seq<Held>, k: nat)
    requires TidyList(items) && Pass(e, items).Ok? && k < |items| && Takes(e, items[k])
    requires Pass(e, items[k..]).Ok? && Pass(e, items[k..]).value.entry == Pass(e, items).value.entry
    ensures TakesOver(e, items, k, ApplyHeld(e, items[k]).value.entry)
  {
    TidyFrom(items, k + 1);
    TakerShape(e, items[k]);
    assert items[k..] == [items[k]] + items[k + 1..];
    PassFront(e, items[k], items[k + 1..]);
  }

  /** Where an answer awaits its result, the next taker decides. */
  lemma AwaitingPass(e: Entry, items: seq<Held>)
    requires AwaitsResult(e) && TidyList(items) && AllLater(e, items) && Pass(e, items).Ok?
    ensures Outdated(Pass(e, items).value.entry) <==> Outdated(AfterFirst(e, items))
  {
    FromTaker(e, items);
    var k, e2 := FirstTaker(e, items), AfterFirst(e, items);
    if k < |items| {
      assert TakesOver(e, items, k, e2);
      AwaitedTaker(e, items[k]);
      SettledOrRevokedPass(e2, items[k + 1..]);
    }
  }

  lemma AwaitedTaker(e: Entry, h: Held)
    requires AwaitsResult(e) && Takes(e, h) && e.observed < h.message.id && !h.profile.Assignment?
    ensures var e2 := ApplyHeld(e, h).value.entry; e2.state.Revoked? || (e2.result.Some? && e2.answer.Some?)
  {
  }

  lemma SettledOrRevokedPass(e: Entry, items: seq<Held>)
    requires e.state.Revoked? || (e.result.Some? && e.answer.Some?)
    requires TidyList(items) && AllLater(e, items) && Pass(e, items).Ok?
    ensures Outdated(Pass(e, items).value.entry) <==> Outdated(e)
  {
    if e.state.Revoked? {
      RevokedPass(e, items);
    } else {
      SettledPass(e, items);
    }
  }

  lemma TakerShape(e: Entry, h: Held)
    requires Takes(e, h) && !h.profile.Assignment?
    ensures var e2 := ApplyHeld(e, h).value.entry; e2.state.Revoked? || e2.result.Some? || e2.answer.Some?
    ensures ApplyHeld(e, h).value.entry.observed == h.message.id
  {
  }

  lemma PassAfterTaker(e: Entry, rest: seq<Held>)
    requires e.state.Revoked? || e.result.Some? || e.answer.Some?
    requires TidyList(rest) && AllLater(e, rest) && Pass(e, rest).Ok?
    ensures Outdated(Pass(e, rest).value.entry) <==>
            if AwaitsResult(e) then Outdated(AfterFirst(e, rest)) else Outdated(e)
  {
    if e.state.Revoked? {
      RevokedPass(e, rest);
    } else if AwaitsResult(e) {
      AwaitingPass(e, rest);
    } else if e.answer.Some? {
      SettledPass(e, rest);
    } else {
      AnswerablePass(e, rest);
    }
  }

  /** However many profiles are held, two of them decide whether the pass
      leaves an outdated answer. */
  lemma PassOutdatedIff(e: Entry, items: seq<Held>)
    requires TidyList(items) && Pass(e, items).Ok?
    ensures Outdated(Pass(e, items).value.entry) <==> LeavesOutdated(e, items)
  {
    FromTaker(e, items);
    var k := FirstTaker(e, items);
    if k < |items| {
      TakerShape(e, items[k]);
      PassAfterTaker(AfterFirst(e, items), items[k + 1..]);
    }
  }

  // ----- what a first assignment leaves held

  /** Not a profile about the assignment of this entry. */
  predicate Unbound(e: Entry, h: Held) {
    match h.profile
    case Assignment(_, _) => false
    case Finished(r) => !(ResultBinds(r, e) && h.message.sender == e.owner)
    case Revoke(r) => !RevokeBinds(r, e)
    case Answered(a) => !AnswerBinds(a, e)
  }

  /** What stays held for a new entry: profiles about something else, and
      answers to another generation than the one in force. The first result
      or revocation settles the generation. */
  function LeftHeld(e: Entry, items: seq<Held>, generation: nat, settled: bool): seq<Held>
    decreases |items|
  {
    if items == [] then []
    else
      var h, rest := items[0], items[1..];
      if Unbound(e, h) || (h.profile.Answered? && h.profile.answer.generation != generation) then
        [h] + LeftHeld(e, rest, generation, settled)
      else if h.profile.Finished? && !settled then LeftHeld(e, rest, h.profile.result.generation, true)
      else LeftHeld(e, rest, generation, settled || h.profile.Revoke?)
  }

  predicate SameAssignment(a: Entry, b: Entry) {
    && a.fingerprint == b.fingerprint && a.jobId == b.jobId && a.assignmentId == b.assignmentId
    && a.attempt == b.attempt && a.owner == b.owner
  }

  predicate IsSettled(e: Entry) {
    e.result.Some? || e.state.Revoked?
  }

  lemma {:induction false} KeptIsLeft(e0: Entry, e: Entry, items: seq<Held>)
    requires SameAssignment(e0, e) && TidyList(items) && Pass(e, items).Ok?
    requires e.result.Some? && !e.state.Revoked? ==> AllLater(e, items)
    ensures Pass(e, items).value.kept == LeftHeld(e0, items, e.generation, IsSettled(e))
    decreases |items|
  {
    if items != [] {
      TidyRest(items);
      assert forall i :: 0 <= i < |items[1..]| ==> items[1..][i] == items[i + 1];
      var e' := ApplyHeld(e, items[0]).value.entry;
      HeldStepLeft(e0, e, items[0]);
      KeptIsLeft(e0, e', items[1..]);
    }
  }

  /** One profile against a new or settled entry. */
  lemma HeldStepLeft(e0: Entry, e: Entry, h: Held)
    requires SameAssignment(e0, e) && !h.profile.Assignment? && ApplyHeld(e, h).Ok?
    requires e.result.Some? && !e.state.Revoked? ==> e.observed < h.message.id
    ensures var o := ApplyHeld(e, h).value;
            var stays := Unbound(e0, h) || (h.profile.Answered? && h.profile.answer.generation != e.generation);
            && SameAssignment(e0, o.entry) && (o.held <==> stays)
            && (stays ==> o.entry == e)
            && (!stays && h.profile.Finished? && !IsSettled(e) ==>
                  o.entry.generation == h.profile.result.generation && o.entry.result.Some?)
            && (!stays && !(h.profile.Finished? && !IsSettled(e)) ==>
                  o.entry.generation == e.generation && IsSettled(o.entry) == (IsSettled(e) || h.profile.Revoke?))
            && (o.entry.observed == e.observed || o.entry.observed == h.message.id)
            && (o.entry.result.Some? && e.result.None? ==> o.entry.observed == h.message.id)
  {
  }

  // ----- one message

  /** Holding this message would exceed a bound. */
  predicate Overflows(p: Projection, fp: Id, id: Id) {
    !AlreadyHeld(HeldFor(p, fp), id) && PendingFull(p, fp)
  }

  ghost predicate HasRoom(p: Projection) {
    |p.entries| < MAX_ENTRIES || exists k :: k in p.entries && p.entries[k].state.Revoked?
  }

  /** Bounds hold once exactly `left` is held for `fp`. */
  predicate FitsWith(p: Projection, fp: Id, left: seq<Held>) {
    && (forall f :: f in p.pending && f != fp ==> |p.pending[f]| <= MAX_PENDING_PER_FINGERPRINT)
    && |left| <= MAX_PENDING_PER_FINGERPRINT
    && |p.pending.Keys - {fp}| + (if left == [] then 0 else 1) <= MAX_PENDING_FINGERPRINTS
  }

  /**
   * The message makes the projection fail its check: it overflows the held
   * profiles while there is an entry, it leaves an outdated answer, or it is
   * the first assignment while too much is already held.
   */
  ghost predicate BreaksCheck(p: Projection, m: Message, profile: Profile) {
    var fp := FingerprintOf(profile);
    if fp in p.entries then
      var o := ApplyProfile(p.entries[fp], profile, m.id, m.sender);
      && o.Ok?
      && if o.value.held then Overflows(p, fp, m.id) else LeavesOutdated(o.value.entry, HeldFor(p, fp))
    else if !profile.Assignment? then
      p.entries != map[] && m.id !in p.applied && Overflows(p, fp, m.id)
    else
      var e := Assigning(profile.job, profile.generation, m.id);
      && HasRoom(p)
      && (LeavesOutdated(e, HeldFor(p, fp))
          || (p.entries == map[] && !FitsWith(p, fp, LeftHeld(e, HeldFor(p, fp), e.generation, false))))
  }

  lemma ReplacedBounded(p: Projection, q: Projection, fp: Id, e: Entry, held: seq<Held>)
    requires Replaced(p, q, fp, e, held)
    ensures PendingBounded(q) <==> FitsWith(p, fp, held)
  {
    var others := p.pending.Keys - {fp};
    forall f
      ensures f in q.pending.Keys <==> f in others || (f == fp && held != [])
    {
      assert f != fp ==> (f in q.pending <==> f in p.pending);
    }
    if held == [] {
      SameKeys(q.pending.Keys, others);
    } else {
      SameKeys(q.pending.Keys, others + {fp});
    }
    assert |q.pending| == |q.pending.Keys|;
    if PendingBounded(q) {
      forall f | f in p.pending && f != fp
        ensures |p.pending[f]| <= MAX_PENDING_PER_FINGERPRINT
      {
        assert f in q.pending;
      }
    }
  }

  lemma ShrunkStaysBounded(p: Projection, q: Projection, fp: Id, e: Entry, held: seq<Held>)
    requires PendingBounded(p) && Replaced(p, q, fp, e, held) && |held| <= |HeldFor(p, fp)|
    ensures PendingBounded(q)
  {
    ReplacedBounded(p, q, fp, e, held);
    assert |p.pending| == |p.pending.Keys|;
    if fp in p.pending {
      OneLessLeft(p.pending.Keys, {}, fp);
      SameKeys(p.pending.Keys - ({} + {fp}), p.pending.Keys - {fp});
      SameKeys(p.pending.Keys - {}, p.pending.Keys);
    } else {
      SameKeys(p.pending.Keys - {fp}, p.pending.Keys);
    }
  }

  lemma AddedBounded(p: Projection, fp: Id, items: seq<Held>, flag: bool)
    requires PendingBounded(p) && |items| == |HeldFor(p, fp)| + 1
    ensures PendingBounded(p.(incomplete := flag, pending := p.pending[fp := items])) <==> !PendingFull(p, fp)
  {
    var q := p.pending[fp := items];
    KeysOfUpdate(p.pending, fp, items);
    assert |q| == |q.Keys| && |p.pending| == |p.pending.Keys|;
    if fp in p.pending {
      assert p.pending.Keys + {fp} == p.pending.Keys;
    }
    assert q[fp] == items;
    assert forall f :: f in q && f != fp ==> f in p.pending && q[f] == p.pending[f];
  }

  /** Past the bound a profile is held all the same. */
  lemma HoldBounded(p: Projection, fp: Id, item: Held)
    requires PendingBounded(p)
    ensures PendingBounded(HoldMessage(p, fp, item)) <==> !Overflows(p, fp, item.message.id)
  {
    if !AlreadyHeld(HeldFor(p, fp), item.message.id) {
      var longer := HeldFor(p, fp) + [item];
      Rearranged(longer, SortBy(longer, HeldBefore));
      AddedBounded(p, fp, SortBy(longer, HeldBefore), p.incomplete || PendingFull(p, fp));
    }
  }

  lemma HoldChecks(p: Projection, fp: Id, item: Held)
    requires Checks(p)
    ensures Checks(HoldMessage(p, fp, item)) <==> p.entries == map[] || !Overflows(p, fp, item.message.id)
  {
    if p.entries != map[] {
      var f := SomeKey(p.entries);
      HoldBounded(p, fp, item);
    }
  }

  lemma {:induction false} SmallestRevoked(entries: map<Id, Entry>, among: set<Id>) returns (key: Id)
    requires among != {} && forall k :: k in among ==> k in entries && entries[k].state.Revoked?
    ensures key in among && forall k :: k in among ==> key <= k
    decreases |among|
  {
    var k := Pick(among);
    key := k;
    var rest := among - {k};
    if rest != {} {
      var least := SmallestRevoked(entries, rest);
      key := if least < k then least else k;
    }
    forall x | x in among
      ensures key <= x
    {
      assert x == k || x in rest;
    }
  }

  /** Room is made exactly when there is room or a revoked entry. */
  lemma RoomIff(p: Projection)
    requires |p.entries| <= MAX_ENTRIES
    ensures |MakeRoom(p).entries| < MAX_ENTRIES <==> HasRoom(p)
  {
    if |p.entries| >= MAX_ENTRIES && HasRoom(p) {
      var revoked := set k | k in p.entries && p.entries[k].state.Revoked?;
      var some :| some in p.entries && p.entries[some].state.Revoked?;
      assert some in revoked;
      var key := SmallestRevoked(p.entries, revoked);
      forall k | k in p.entries && p.entries[k].state.Revoked?
        ensures key <= k
      {
        assert k in revoked;
      }
      assert IsFirstRevoked(p.entries, key);
    }
    if |p.entries| >= MAX_ENTRIES && FirstRevoked(p.entries).Some? {
      SizeWithout(p.entries, FirstRevoked(p.entries).value);
    }
  }

  /** Once sizes, sources and the other entries are in order, two things are
      left to check. */
  lemma ChecksDrained(
    log: set<Message>, parse: Parser, p: Projection, q: Projection, fp: Id, e: Entry, held: seq<Held>)
    requires Replaced(p, q, fp, e, held) && WellFormed(q) && Sourced(log, parse, q)
    requires forall f :: f in p.entries && f != fp ==> EntryValid(f, p.entries[f])
    ensures Checks(q) <==> !Outdated(e) && PendingBounded(q)
  {
    assert fp in q.entries && q.entries[fp] == e;
    SourcedIsValid(log, parse, fp, e);
    assert forall f :: f in q.entries && f != fp ==> f in p.entries && q.entries[f] == p.entries[f];
  }

  lemma DrainedFacts(r: Reduced, fp: Id) returns (pass: Passed)
    requires Tidy(r.p) && fp in r.p.entries && Drain(r, fp).Ok?
    ensures Pass(r.p.entries[fp], HeldFor(r.p, fp)) == Ok(pass)
    ensures Replaced(r.p, Drain(r, fp).value.p, fp, pass.entry, pass.kept) && |pass.kept| <= |HeldFor(r.p, fp)|
    ensures Outdated(pass.entry) <==> LeavesOutdated(r.p.entries[fp], HeldFor(r.p, fp))
  {
    var e, items := r.p.entries[fp], HeldFor(r.p, fp);
    assert TidyList(items);
    DrainIsPass(r, fp);
    PassOutdatedIff(e, items);
    KeptIsPart(e, items);
    pass := Pass(e, items).value;
    assert [] + pass.kept == pass.kept;
  }

  /** A message for an existing entry that applies to it. */
  lemma AppliedChecksIff(log: set<Message>, parse: Parser, r: Reduced, fp: Id, o: Outcome, id: Id)
    requires Tidy(r.p) && Checks(r.p) && fp in r.p.entries
    requires Drain(Applied(r, fp, o, id), fp).Ok?
    requires WellFormed(Drain(Applied(r, fp, o, id), fp).value.p)
    requires Sourced(log, parse, Drain(Applied(r, fp, o, id), fp).value.p)
    ensures Checks(Drain(Applied(r, fp, o, id), fp).value.p) <==> !LeavesOutdated(o.entry, HeldFor(r.p, fp))
  {
    var applied := Applied(r, fp, o, id);
    var q, items := Drain(applied, fp).value.p, HeldFor(r.p, fp);
    assert applied.p.entries == r.p.entries[fp := o.entry] && applied.p.pending == r.p.pending;
    var pass := DrainedFacts(applied, fp);
    assert PendingBounded(r.p) && PendingBounded(applied.p);
    ShrunkStaysBounded(applied.p, q, fp, pass.entry, pass.kept);
    ChecksDrained(log, parse, applied.p, q, fp, pass.entry, pass.kept);
  }

  /** With entries the held profiles were counted already; without any they
      are counted now. */
  lemma BoundedAfterFirst(p: Projection, started: Projection, q: Projection, fp: Id, e: Entry, held: seq<Held>)
    requires Checks(p) && started.pending == p.pending && Replaced(started, q, fp, e, held)
    requires |held| <= |HeldFor(p, fp)|
    ensures PendingBounded(q) <==> !(p.entries == map[] && !FitsWith(p, fp, held))
  {
    ReplacedBounded(started, q, fp, e, held);
    assert FitsWith(started, fp, held) <==> FitsWith(p, fp, held);
    if p.entries != map[] {
      var f := SomeKey(p.entries);
      assert PendingBounded(p) && PendingBounded(started);
      ShrunkStaysBounded(started, q, fp, e, held);
    }
  }

  /** A first assignment. */
  lemma FirstChecksIff(log: set<Message>, parse: Parser, r: Reduced, job: Job, generation: Option<nat>, id: Id)
    requires Tidy(r.p) && Checks(r.p) && WellFormed(r.p) && job.fingerprint !in r.p.entries
    requires |MakeRoom(r.p).entries| < MAX_ENTRIES && FirstAssignment(r, job, generation, id).Ok?
    requires WellFormed(FirstAssignment(r, job, generation, id).value.p)
    requires Sourced(log, parse, FirstAssignment(r, job, generation, id).value.p)
    ensures var e, items := Assigning(job, generation, id), HeldFor(r.p, job.fingerprint);
            Checks(FirstAssignment(r, job, generation, id).value.p) <==>
            !(LeavesOutdated(e, items)
              || (r.p.entries == map[] && !FitsWith(r.p, job.fingerprint, LeftHeld(e, items, e.generation, false))))
  {
    var fp, e, items := job.fingerprint, Assigning(job, generation, id), HeldFor(r.p, job.fingerprint);
    MakeRoomKeeps(r.p);
    RegisterKeeps(MakeRoom(r.p), id);
    var started := Reduced(Started(r.p, job, generation, id), r.imports + [job]);
    assert started.p.pending == r.p.pending && started.p.entries[fp] == e;
    var pass := DrainedFacts(started, fp);
    KeptIsLeft(e, e, items);
    var q := FirstAssignment(r, job, generation, id).value.p;
    ChecksDrained(log, parse, started.p, q, fp, pass.entry, pass.kept);
    BoundedAfterFirst(r.p, started.p, q, fp, pass.entry, pass.kept);
  }

  /**
   * After any message that does not fail, a projection that passed its check
   * passes it again exactly unless the message breaks it, which can be read
   * off the projection and the message beforehand.
   */
  lemma StepChecksIff(log: set<Message>, parse: Parser, r: Reduced, m: Message)
    requires Sourced(log, parse, r.p) && WellFormed(r.p) && Tidy(r.p) && Checks(r.p) && m in log
    requires Step(r, m, parse).Ok?
    ensures Checks(Step(r, m, parse).value.p) <==>
            !(parse(m.body).Some? && BreaksCheck(r.p, m, parse(m.body).value))
  {
    if parse(m.body).Some? {
      var profile := parse(m.body).value;
      var fp := FingerprintOf(profile);
      StepSourced(log, parse, r, m);
      StepKeeps(r, m, parse);
      if fp in r.p.entries {
        var o := ApplyProfile(r.p.entries[fp], profile, m.id, m.sender).value;
        if o.held {
          HoldChecks(r.p, fp, Held(m, profile));
        } else {
          AppliedChecksIff(log, parse, r, fp, o, m.id);
        }
      } else if !profile.Assignment? {
        HoldChecks(r.p, fp, Held(m, profile));
      } else {
        RoomIff(r.p);
        if HasRoom(r.p) {
          FirstChecksIff(log, parse, r, profile.job, profile.generation, m.id);
        }
      }
    }
  }

  // ----- what is stored

  /** The batch reduces and the outcome passes its check. */
  ghost predicate Storable(p: Projection, batch: seq<Message>, parse: Parser) {
    var r := Batch(Reduced(p, []), batch, parse);
    r.Ok? && Checks(r.value.p)
  }

  /** The projection on disk after a run of observations; an observation that
      fails or does not pass the check leaves it alone. */
  ghost function Stored(batches: seq<seq<Message>>, parse: Parser): Projection
    decreases |batches|
  {
    if batches == [] then Empty
    else
      var before, last := Stored(batches[..|batches| - 1], parse), batches[|batches| - 1];
      if Storable(before, last, parse) then Batch(Reduced(before, []), last, parse).value.p else before
  }

  /** The observations that were stored. */
  ghost function Accepted(batches: seq<seq<Message>>, parse: Parser): seq<seq<Message>>
    decreases |batches|
  {
    if batches == [] then []
    else
      var earlier, last := batches[..|batches| - 1], batches[|batches| - 1];
      Accepted(earlier, parse) + (if Storable(Stored(earlier, parse), last, parse) then [last] else [])
  }

  /** What is stored always passes its check and is the projection of the
      observations that were stored, so all that holds of every projection
      holds of it. */
  lemma {:induction false} StoredIsProjection(batches: seq<seq<Message>>, parse: Parser)
    ensures Stored(batches, parse) == Project(Accepted(batches, parse), parse)
    ensures Checks(Stored(batches, parse))
    decreases |batches|
  {
    if batches != [] {
      var earlier, last := batches[..|batches| - 1], batches[|batches| - 1];
      StoredIsProjection(earlier, parse);
      if Storable(Stored(earlier, parse), last, parse) {
        var kept := Accepted(earlier, parse) + [last];
        assert kept[..|kept| - 1] == Accepted(earlier, parse);
      } else {
        assert Accepted(earlier, parse) + [] == Accepted(earlier, parse);
      }
    }
  }

  /** Over every run of observations, one more message is stored exactly when
      it reduces and does not break the check. */
  lemma MessageStoredIff(batches: seq<seq<Message>>, m: Message, parse: Parser)
    ensures var p := Stored(batches, parse);
            Storable(p, [m], parse) <==>
            Step(Reduced(p, []), m, parse).Ok? && !(parse(m.body).Some? && BreaksCheck(p, m, parse(m.body).value))
  {
    StoredIsProjection(batches, parse);
    var kept, p := Accepted(batches, parse), Stored(batches, parse);
    NothingLostSilently(kept, parse);
    RunTidy(kept, parse);
    var log := ProcessedFinite(kept, parse);
    StoredFactsAreSourced(kept, parse, log);
    SourcedGrows(log, log + {m}, parse, p);
    SortOfSorted([m], ById);
    BatchOfOne(Reduced(p, []), m, parse);
    if Step(Reduced(p, []), m, parse).Ok? {
      StepChecksIff(log + {m}, parse, Reduced(p, []), m);
    }
  }

  lemma BatchOfOne(r: Reduced, m: Message, parse: Parser)
    ensures Batch(r, [m], parse) == Step(r, m, parse)
  {
    SortOfSorted([m], ById);
    assert [m][1..] == [];
    var next := Step(r, m, parse);
    if next.Ok? {
      assert Fold(next.value, [], parse) == next;
    }
  }
}
