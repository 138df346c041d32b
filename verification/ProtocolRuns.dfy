/** What the profile reducer guarantees over every run of batches. */
module ProtocolRuns {
  import opened Base
  import opened Sorting
  import opened Protocol

  // ----- bounds

  ghost predicate WellFormed(p: Projection) {
    Ascending(p.applied) && |p.applied| <= MAX_APPLIED && |p.entries| <= MAX_ENTRIES
  }

  lemma {:induction false} InsertIdKeeps(s: seq<Id>, id: Id)
    requires Ascending(s) && id !in s
    ensures Ascending(InsertId(s, id)) && |InsertId(s, id)| == |s| + 1
    ensures forall x :: x in InsertId(s, id) <==> x == id || x in s
  {
    if s == [] || id < s[0] {
      Prepended(id, s);
    } else {
      var rest := s[1..];
      assert s == [s[0]] + rest && s[0] in s;
      InsertIdKeeps(rest, id);
      Prepended(s[0], InsertId(rest, id));
    }
  }

  lemma Prepended(x: Id, s: seq<Id>)
    requires Ascending(s) && forall y :: y in s ==> x < y
    ensures Ascending([x] + s) && |[x] + s| == |s| + 1
    ensures forall y :: y in [x] + s <==> y == x || y in s
  {
    forall i, j | 0 <= i < j < |[x] + s|
      ensures ([x] + s)[i] < ([x] + s)[j]
    {
      assert s[j - 1] in s;
    }
  }

  lemma RegisterKeeps(p: Projection, id: Id)
    requires WellFormed(p)
    ensures var q := RegisterApplied(p, id);
            && WellFormed(q) && id in q.applied
            && q.entries == p.entries && q.pending == p.pending && (p.incomplete ==> q.incomplete)
            && (!q.incomplete ==> forall x :: x in p.applied ==> x in q.applied)
            && (forall x :: x in q.applied ==> x == id || x in p.applied)
    ensures var q := RegisterApplied(p, id);
            var over := id !in p.applied && |p.applied| == MAX_APPLIED;
            && (q.incomplete <==> p.incomplete || over)
            && (id in p.applied ==> q.applied == p.applied)
            && (over ==> |q.applied| == MAX_APPLIED / 2 + 1)
            && (forall x, y :: x in p.applied && x !in q.applied && y in q.applied && y in p.applied ==> x < y)
  {
    if id !in p.applied {
      if |p.applied| >= MAX_APPLIED {
        var later := p.applied[MAX_APPLIED / 2..];
        InsertIdKeeps(later, id);
        assert p.applied == p.applied[..MAX_APPLIED / 2] + later;
      } else {
        InsertIdKeeps(p.applied, id);
      }
    }
  }

  // ----- nothing is lost silently

  ghost predicate IsHeld(p: Projection, id: Id) {
    exists fp :: fp in p.pending && AlreadyHeld(p.pending[fp], id)
  }

  ghost predicate Accounted(p: Projection, id: Id) {
    id in p.applied || IsHeld(p, id)
  }

  /** The flag is sticky, and without it nothing accounted for goes missing. */
  ghost predicate Keeps(p: Projection, q: Projection) {
    && (p.incomplete ==> q.incomplete)
    && (!q.incomplete ==> forall id :: Accounted(p, id) ==> Accounted(q, id))
  }

  lemma SortedHeld(held: seq<Held>, item: Held, id: Id)
    ensures AlreadyHeld(SortBy(held + [item], HeldBefore), id) <==> item.message.id == id || AlreadyHeld(held, id)
  {
    var longer := held + [item];
    var order := SortBy(longer, HeldBefore);
    Rearranged(longer, order);
    if AlreadyHeld(order, id) {
      var i :| 0 <= i < |order| && order[i].message.id == id;
      assert order[i] in longer;
      assert order[i] == item || order[i] in held;
    }
    if item.message.id == id {
      assert longer[|held|] in order;
    } else if AlreadyHeld(held, id) {
      var i :| 0 <= i < |held| && held[i].message.id == id;
      assert longer[i] in order;
    }
  }

  lemma PushKeeps(p: Projection, fp: Id, item: Held)
    ensures Keeps(p, PushHeld(p, fp, item)) && Accounted(PushHeld(p, fp, item), item.message.id)
  {
    var q := PushHeld(p, fp, item);
    SortedHeld(HeldFor(p, fp), item, item.message.id);
    assert fp in q.pending && AlreadyHeld(q.pending[fp], item.message.id);
    forall id | IsHeld(p, id)
      ensures IsHeld(q, id)
    {
      var f :| f in p.pending && AlreadyHeld(p.pending[f], id);
      SortedHeld(HeldFor(p, fp), item, id);
      assert f in q.pending && AlreadyHeld(q.pending[f], id);
    }
  }

  /** Holding accounts for the message and loses nothing. The flag is raised
      exactly for a new one past the bounds, and holding one again changes
      nothing. */
  lemma HoldKeeps(p: Projection, fp: Id, item: Held)
    ensures Keeps(p, HoldMessage(p, fp, item)) && Accounted(HoldMessage(p, fp, item), item.message.id)
    ensures var q := HoldMessage(p, fp, item);
            && q.applied == p.applied && q.entries == p.entries
            && fp in q.pending && AlreadyHeld(q.pending[fp], item.message.id)
            && (forall f :: f in p.pending && f != fp ==> f in q.pending && q.pending[f] == p.pending[f])
            && (q.incomplete <==> p.incomplete || !WasRoomFor(p, fp, item.message.id))
            && HoldMessage(q, fp, item) == q
  {
    if AlreadyHeld(HeldFor(p, fp), item.message.id) {
      assert IsHeld(p, item.message.id);
    } else {
      var flagged := p.(incomplete := p.incomplete || PendingFull(p, fp));
      assert forall id :: Accounted(p, id) ==> Accounted(flagged, id);
      PushKeeps(flagged, fp, item);
      SortedHeld(HeldFor(p, fp), item, item.message.id);
    }
  }

  /** The message is held already, or one more fits: fewer than eight for its
      fingerprint, and fewer than sixty-four fingerprints or it is one. */
  ghost predicate WasRoomFor(p: Projection, fp: Id, id: Id) {
    if fp in p.pending then AlreadyHeld(p.pending[fp], id) || |p.pending[fp]| < MAX_PENDING_PER_FINGERPRINT
    else |p.pending| < MAX_PENDING_FINGERPRINTS
  }

  lemma AppliedKeeps(r: Reduced, fp: Id, o: Outcome, id: Id)
    requires WellFormed(r.p) && fp in r.p.entries
    ensures var q := Applied(r, fp, o, id).p;
            && WellFormed(q) && Keeps(r.p, q) && Accounted(q, id)
            && q.pending == r.p.pending && fp in q.entries
  {
    var changed := r.p.(entries := r.p.entries[fp := o.entry]);
    KeysOfUpdate(r.p.entries, fp, o.entry);
    assert r.p.entries.Keys + {fp} == r.p.entries.Keys;
    assert |changed.entries| == |changed.entries.Keys| == |r.p.entries.Keys|;
    RegisterKeeps(changed, id);
    assert forall x :: IsHeld(r.p, x) ==> IsHeld(Applied(r, fp, o, id).p, x);
  }

  lemma DrainOneKeeps(r: Reduced, fp: Id, item: Held)
    requires WellFormed(r.p) && fp in r.p.entries && DrainOne(r, fp, item).Ok?
    ensures var q := DrainOne(r, fp, item).value.p;
            WellFormed(q) && Keeps(r.p, q) && Accounted(q, item.message.id)
  {
    var o := ApplyProfile(r.p.entries[fp], item.profile, item.message.id, item.message.sender).value;
    if o.held {
      PushKeeps(r.p, fp, item);
    } else {
      AppliedKeeps(r, fp, o, item.message.id);
    }
  }

  /** Every drained profile is applied or held again. */
  lemma {:induction false} DrainAllKeeps(r: Reduced, fp: Id, items: seq<Held>)
    requires WellFormed(r.p) && fp in r.p.entries && DrainAll(r, fp, items).Ok?
    ensures var q := DrainAll(r, fp, items).value.p;
            && WellFormed(q) && Keeps(r.p, q)
            && (!q.incomplete ==> forall i :: 0 <= i < |items| ==> Accounted(q, items[i].message.id))
    decreases |items|
  {
    if items != [] {
      DrainOneKeeps(r, fp, items[0]);
      var next := DrainOne(r, fp, items[0]).value;
      DrainAllKeeps(next, fp, items[1..]);
      assert forall i :: 1 <= i < |items| ==> items[i] == items[1..][i - 1];
    }
  }

  lemma DrainKeeps(r: Reduced, fp: Id)
    requires WellFormed(r.p) && fp in r.p.entries && Drain(r, fp).Ok?
    ensures WellFormed(Drain(r, fp).value.p) && Keeps(r.p, Drain(r, fp).value.p)
  {
    if fp in r.p.pending {
      var items := r.p.pending[fp];
      var without := r.(p := r.p.(pending := r.p.pending - {fp}));
      DrainAllKeeps(without, fp, items);
      var q := Drain(r, fp).value.p;
      if !q.incomplete {
        forall id | IsHeld(r.p, id)
          ensures Accounted(q, id)
        {
          var f :| f in r.p.pending && AlreadyHeld(r.p.pending[f], id);
          if f == fp {
            var i :| 0 <= i < |items| && items[i].message.id == id;
          } else {
            assert f in without.p.pending;
            assert Accounted(without.p, id);
          }
        }
      }
    }
  }

  lemma SizeWithout(entries: map<Id, Entry>, key: Id)
    requires key in entries
    ensures |entries - {key}| == |entries| - 1
  {
    assert (entries - {key}).Keys == entries.Keys - {key};
    assert |entries - {key}| == |(entries - {key}).Keys| && |entries| == |entries.Keys|;
  }

  lemma SizeWith(entries: map<Id, Entry>, key: Id, e: Entry)
    ensures |entries[key := e]| <= |entries| + 1
  {
    KeysOfUpdate(entries, key, e);
    assert |entries[key := e]| == |entries[key := e].Keys| && |entries| == |entries.Keys|;
  }

  /** The revoked entry with the smallest fingerprint goes first. */
  ghost predicate Evictable(entries: map<Id, Entry>, fp: Id) {
    fp in entries && entries[fp].state == Revoked &&
    forall k :: k in entries && k < fp ==> entries[k].state != Revoked
  }

  /** Room is made by dropping one revoked entry, or the flag is raised. */
  lemma MakeRoomKeeps(p: Projection)
    requires WellFormed(p)
    ensures var q := MakeRoom(p);
            && WellFormed(q) && Keeps(p, q) && q.applied == p.applied && q.pending == p.pending
            && (|q.entries| < MAX_ENTRIES || q.incomplete)
            && (forall fp :: fp in q.entries ==> fp in p.entries && q.entries[fp] == p.entries[fp])
            && (forall fp :: fp in p.entries && fp !in q.entries ==> Evictable(p.entries, fp))
            && |p.entries| <= |q.entries| + 1
            && (|p.entries| < MAX_ENTRIES ==> q == p)
  {
    var q := MakeRoom(p);
    if |p.entries| >= MAX_ENTRIES && FirstRevoked(p.entries).Some? {
      SizeWithout(p.entries, FirstRevoked(p.entries).value);
    }
    assert forall id :: IsHeld(p, id) ==> IsHeld(q, id);
  }

  lemma FirstAssignmentKeeps(r: Reduced, job: Job, generation: Option<nat>, id: Id)
    requires WellFormed(r.p) && FirstAssignment(r, job, generation, id).Ok?
    ensures var q := FirstAssignment(r, job, generation, id).value.p;
            WellFormed(q) && Keeps(r.p, q) && (!q.incomplete ==> Accounted(q, id))
  {
    MakeRoomKeeps(r.p);
    var p := MakeRoom(r.p);
    if |p.entries| < MAX_ENTRIES {
      RegisterKeeps(p, id);
      var registered := RegisterApplied(p, id);
      var e := Assigning(job, generation, id);
      SizeWith(registered.entries, job.fingerprint, e);
      var started := registered.(entries := registered.entries[job.fingerprint := e]);
      assert forall x :: IsHeld(p, x) ==> IsHeld(started, x);
      DrainKeeps(Reduced(started, r.imports + [job]), job.fingerprint);
    }
  }

  lemma StepKeeps(r: Reduced, m: Message, parse: Parser)
    requires WellFormed(r.p) && Step(r, m, parse).Ok?
    ensures var q := Step(r, m, parse).value.p;
            && WellFormed(q) && Keeps(r.p, q)
            && (parse(m.body).Some? && !q.incomplete ==> Accounted(q, m.id))
  {
    if parse(m.body).Some? {
      var profile := parse(m.body).value;
      var fp := FingerprintOf(profile);
      if fp in r.p.entries {
        var o := ApplyProfile(r.p.entries[fp], profile, m.id, m.sender).value;
        if o.held {
          HoldKeeps(r.p, fp, Held(m, profile));
        } else {
          AppliedKeeps(r, fp, o, m.id);
          DrainKeeps(Applied(r, fp, o, m.id), fp);
        }
      } else if profile.Assignment? {
        FirstAssignmentKeeps(r, profile.job, profile.generation, m.id);
      } else if m.id !in r.p.applied {
        HoldKeeps(r.p, fp, Held(m, profile));
      }
    }
  }

  lemma {:induction false} FoldKeeps(r: Reduced, ms: seq<Message>, parse: Parser)
    requires WellFormed(r.p) && Fold(r, ms, parse).Ok?
    ensures var q := Fold(r, ms, parse).value.p;
            && WellFormed(q) && Keeps(r.p, q)
            && (!q.incomplete ==> forall m :: m in ms && parse(m.body).Some? ==> Accounted(q, m.id))
    decreases |ms|
  {
    if ms != [] {
      StepKeeps(r, ms[0], parse);
      FoldKeeps(Step(r, ms[0], parse).value, ms[1..], parse);
      assert forall m :: m in ms ==> m == ms[0] || m in ms[1..];
    }
  }

  /** Batches one after another, from an empty projection; a failed batch
      leaves what was stored before it. */
  ghost function Project(batches: seq<seq<Message>>, parse: Parser): Projection
    decreases |batches|
  {
    if batches == [] then Empty
    else
      var before := Project(batches[..|batches| - 1], parse);
      match Batch(Reduced(before, []), batches[|batches| - 1], parse)
      case Ok(r) => r.p
      case Err(_) => before
  }

  /** `m` was in a batch that was applied. */
  ghost predicate Processed(batches: seq<seq<Message>>, parse: Parser, m: Message)
    decreases |batches|
  {
    batches != [] &&
    var earlier, last := batches[..|batches| - 1], batches[|batches| - 1];
    || Processed(earlier, parse, m)
    || (m in last && Batch(Reduced(Project(earlier, parse), []), last, parse).Ok?)
  }

  /**
   * The reducer loses nothing silently: after every run, unless the
   * projection is flagged incomplete, each profile message it processed is
   * recorded as applied or is held; the applied ids stay in ascending order
   * without repetition and within their bound, and so do the entries.
   */
  lemma {:induction false} NothingLostSilently(batches: seq<seq<Message>>, parse: Parser)
    ensures var p := Project(batches, parse);
            && WellFormed(p)
            && (!p.incomplete ==>
                  forall m :: Processed(batches, parse, m) && parse(m.body).Some? ==> Accounted(p, m.id))
    decreases |batches|
  {
    if batches != [] {
      var earlier, last := batches[..|batches| - 1], batches[|batches| - 1];
      NothingLostSilently(earlier, parse);
      var before := Project(earlier, parse);
      var r := Batch(Reduced(before, []), last, parse);
      if r.Ok? {
        FoldKeeps(Reduced(before, []), SortBy(last, ById), parse);
        Rearranged(last, SortBy(last, ById));
      }
    }
  }

  // ----- delivery order and batch boundaries

  ghost predicate DistinctIds(ms: seq<Message>) {
    forall i, j :: 0 <= i < j < |ms| ==> ms[i].id != ms[j].id
  }

  lemma IdsNameMessages(ms: seq<Message>)
    requires DistinctIds(ms)
    ensures forall a, b :: a in ms && b in ms && a.id == b.id ==> a == b
  {
    forall a, b | a in ms && b in ms && a.id == b.id
      ensures a == b
    {
      var i :| 0 <= i < |ms| && ms[i] == a;
      var j :| 0 <= j < |ms| && ms[j] == b;
      assert i == j;
    }
  }

  /** Any rearrangement of the same messages reduces to the same projection
      and the same imports, or fails the same way. */
  lemma DeliveryOrderDoesNotMatter(r: Reduced, a: seq<Message>, b: seq<Message>, parse: Parser)
    requires DistinctIds(a) && multiset(a) == multiset(b)
    ensures Batch(r, a, parse) == Batch(r, b, parse)
  {
    SortBySorted(b, ById);
    SortIsOnly(a, SortBy(b, ById));
  }

  ghost function Then(first: Result<Reduced, ProtocolError>, ms: seq<Message>, parse: Parser)
    : Result<Reduced, ProtocolError>
  {
    match first
    case Err(error) => Err(error)
    case Ok(r) => Batch(r, ms, parse)
  }

  lemma {:induction false} FoldConcat(r: Reduced, a: seq<Message>, b: seq<Message>, parse: Parser)
    ensures Fold(r, a + b, parse) ==
            match Fold(r, a, parse) { case Err(error) => Err(error) case Ok(next) => Fold(next, b, parse) }
    decreases |a|
  {
    if a == [] {
      assert a + b == b;
    } else {
      assert (a + b)[0] == a[0] && (a + b)[1..] == a[1..] + b;
      var next := Step(r, a[0], parse);
      if next.Ok? {
        FoldConcat(next.value, a[1..], b, parse);
      }
    }
  }

  ghost predicate Below(low: seq<Message>, high: seq<Message>) {
    forall a, b :: a in low && b in high ==> a.id < b.id
  }

  lemma SortedJoin(x: seq<Message>, y: seq<Message>)
    requires Sorted(x, ById) && Sorted(y, ById) && Below(x, y)
    ensures Sorted(x + y, ById)
  {
    forall i, j | 0 <= i < j < |x + y|
      ensures ById((x + y)[i], (x + y)[j])
    {
      if i < |x| <= j {
        assert x[i] in x && y[j - |x|] in y;
      }
    }
  }

  lemma SortSplits(low: seq<Message>, high: seq<Message>)
    requires DistinctIds(low + high) && Below(low, high)
    ensures SortBy(low + high, ById) == SortBy(low, ById) + SortBy(high, ById)
  {
    var x, y := SortBy(low, ById), SortBy(high, ById);
    SortBySorted(low, ById);
    SortBySorted(high, ById);
    Rearranged(low, x);
    Rearranged(high, y);
    SortedJoin(x, y);
    JoinRearranged(low, high, x, y);
    SortIsOnly(low + high, x + y);
  }

  lemma JoinRearranged(a: seq<Message>, b: seq<Message>, x: seq<Message>, y: seq<Message>)
    requires multiset(a) == multiset(x) && multiset(b) == multiset(y)
    ensures multiset(a + b) == multiset(x + y)
  {
  }

  /** The only sorted arrangement of messages with distinct ids. */
  lemma SortIsOnly(ms: seq<Message>, order: seq<Message>)
    requires DistinctIds(ms) && multiset(ms) == multiset(order) && Sorted(order, ById)
    ensures SortBy(ms, ById) == order
  {
    SortBySorted(ms, ById);
    IdsNameMessages(ms);
    Rearranged(ms, SortBy(ms, ById));
    SortedUnique(SortBy(ms, ById), order, ById);
  }

  /** Feeding the lower ids first and then the higher ones is feeding all of
      them at once. */
  lemma CutAtIdBoundary(r: Reduced, low: seq<Message>, high: seq<Message>, parse: Parser)
    requires DistinctIds(low + high) && Below(low, high)
    ensures Batch(r, low + high, parse) == Then(Batch(r, low, parse), high, parse)
  {
    SortSplits(low, high);
    FoldConcat(r, SortBy(low, ById), SortBy(high, ById), parse);
  }

  ghost function Together(batches: seq<seq<Message>>): seq<Message> {
    if batches == [] then [] else Together(batches[..|batches| - 1]) + batches[|batches| - 1]
  }

  ghost function OneByOne(r: Reduced, batches: seq<seq<Message>>, parse: Parser): Result<Reduced, ProtocolError>
    decreases |batches|
  {
    if batches == [] then Ok(r)
    else Then(OneByOne(r, batches[..|batches| - 1], parse), batches[|batches| - 1], parse)
  }

  /** Each batch holds only ids above those of all batches before it. */
  ghost predicate Climbing(batches: seq<seq<Message>>)
    decreases |batches|
  {
    batches != [] ==>
      var earlier := batches[..|batches| - 1];
      Climbing(earlier) && Below(Together(earlier), batches[|batches| - 1])
  }

  /** A history cut at id boundaries, however often, and delivered in any
      order within each piece, reduces to what the whole reduces to. */
  lemma {:induction false} BatchingDoesNotMatter(r: Reduced, batches: seq<seq<Message>>, whole: seq<Message>, parse: Parser)
    requires Climbing(batches) && DistinctIds(Together(batches))
    requires multiset(whole) == multiset(Together(batches))
    ensures OneByOne(r, batches, parse) == Batch(r, whole, parse)
    decreases |batches|
  {
    DeliveryOrderDoesNotMatter(r, Together(batches), whole, parse);
    if batches != [] {
      var earlier, last := batches[..|batches| - 1], batches[|batches| - 1];
      assert Together(batches)[..|Together(earlier)|] == Together(earlier);
      assert DistinctIds(Together(earlier)) by {
        assert forall i :: 0 <= i < |Together(earlier)| ==> Together(earlier)[i] == Together(batches)[i];
      }
      BatchingDoesNotMatter(r, earlier, Together(earlier), parse);
      CutAtIdBoundary(r, Together(earlier), last, parse);
    }
  }

  // ----- where stored facts come from

  ghost predicate Said(log: set<Message>, parse: Parser, profile: Profile) {
    exists m :: m in log && parse(m.body) == Some(profile)
  }

  ghost predicate SaidBy(log: set<Message>, parse: Parser, sender: string, profile: Profile) {
    exists m :: m in log && m.sender == sender && parse(m.body) == Some(profile)
  }

  ghost predicate SaidAs(log: set<Message>, parse: Parser, id: Id, profile: Profile) {
    exists m :: m in log && m.id == id && parse(m.body) == Some(profile)
  }

  /** Message `m` is the last one that changed `e`, and explains its state. */
  predicate Explains(m: Message, parse: Parser, e: Entry) {
    && m.id == e.observed
    && match (e.state, parse(m.body))
       case (Assigned, Some(Assignment(job, generation))) =>
         && e.job == Some(job) && e.generation == (if generation.Some? then generation.value else 0)
         && e.result.None? && e.answer.None? && e.revokeReason.None?
       case (ResultReceived, Some(Finished(result))) =>
         && e.result == Some(result) && e.generation == result.generation && m.sender == e.owner
         && e.revokeReason.None?
       case (HumanAnswered, Some(Answered(answer))) =>
         e.answer == Some(answer) && answer.generation == e.generation && e.revokeReason.None?
       case (Revoked, Some(Revoke(r))) =>
         && e.revokeReason == Some(r.reason) && r.jobId == e.jobId && r.assignmentId == e.assignmentId
         && r.fingerprint == e.fingerprint && r.attempt >= e.attempt
       case _ => false
  }

  ghost predicate Explained(log: set<Message>, parse: Parser, e: Entry) {
    exists m :: m in log && Explains(m, parse, e)
  }

  /** These fields name the assignment of the entry. */
  predicate Names(jobId: Id, assignmentId: Id, attempt: nat, fingerprint: Id, e: Entry) {
    jobId == e.jobId && assignmentId == e.assignmentId && attempt == e.attempt && fingerprint == e.fingerprint
  }

  /** An entry holds an assignment somebody made, at most one result that its
      owner sent for exactly that assignment, at most one answer to it, and a
      state that its last message explains. */
  ghost predicate EntrySourced(log: set<Message>, parse: Parser, fp: Id, e: Entry) {
    && e.fingerprint == fp
    && e.job.Some? && JobBinds(e.job.value, e)
    && (exists g :: Said(log, parse, Assignment(e.job.value, g)))
    && (e.result.Some? ==>
          var r := e.result.value;
          Names(r.jobId, r.assignmentId, r.attempt, r.fingerprint, e) && SaidBy(log, parse, e.owner, Finished(r)))
    && (e.answer.Some? ==>
          var a := e.answer.value;
          Names(a.jobId, a.assignmentId, a.attempt, a.fingerprint, e) && Said(log, parse, Answered(a)))
    && Explained(log, parse, e)
  }

  predicate JobBinds(j: Job, e: Entry) {
    && j.jobId == e.jobId && j.assignmentId == e.assignmentId && j.attempt == e.attempt
    && j.owner == e.owner && j.fingerprint == e.fingerprint
  }

  ghost predicate HeldSourced(log: set<Message>, parse: Parser, fp: Id, h: Held) {
    h.message in log && parse(h.message.body) == Some(h.profile) && FingerprintOf(h.profile) == fp
  }

  ghost predicate AllHeldSourced(log: set<Message>, parse: Parser, fp: Id, items: seq<Held>) {
    forall h :: h in items ==> HeldSourced(log, parse, fp, h)
  }

  ghost predicate Sourced(log: set<Message>, parse: Parser, p: Projection) {
    && (forall fp :: fp in p.entries ==> EntrySourced(log, parse, fp, p.entries[fp]))
    && (forall fp :: fp in p.pending ==> AllHeldSourced(log, parse, fp, p.pending[fp]))
  }

  lemma ApplySourced(log: set<Message>, parse: Parser, fp: Id, e: Entry, m: Message, profile: Profile)
    requires EntrySourced(log, parse, fp, e) && HeldSourced(log, parse, fp, Held(m, profile))
    requires ApplyProfile(e, profile, m.id, m.sender).Ok?
    ensures EntrySourced(log, parse, fp, ApplyProfile(e, profile, m.id, m.sender).value.entry)
  {
    var e' := ApplyProfile(e, profile, m.id, m.sender).value.entry;
    if e' != e {
      ChangeIsExplained(parse, e, m, profile);
      assert Said(log, parse, profile);
      assert profile.Finished? ==> SaidBy(log, parse, e.owner, profile);
      if profile.Assignment? {
        assert Said(log, parse, Assignment(e'.job.value, profile.generation));
      } else {
        var g :| Said(log, parse, Assignment(e.job.value, g));
        assert Said(log, parse, Assignment(e'.job.value, g));
      }
    }
  }

  /** A profile that changes an entry explains what it became. */
  lemma ChangeIsExplained(parse: Parser, e: Entry, m: Message, profile: Profile)
    requires parse(m.body) == Some(profile) && ApplyProfile(e, profile, m.id, m.sender).Ok?
    requires ApplyProfile(e, profile, m.id, m.sender).value.entry != e && !(e.state != Revoked && e.revokeReason.Some?)
    ensures Explains(m, parse, ApplyProfile(e, profile, m.id, m.sender).value.entry)
  {
  }

  lemma PushSourced(log: set<Message>, parse: Parser, p: Projection, fp: Id, item: Held)
    requires Sourced(log, parse, p) && HeldSourced(log, parse, fp, item)
    ensures Sourced(log, parse, PushHeld(p, fp, item))
  {
    var longer := HeldFor(p, fp) + [item];
    Rearranged(longer, SortBy(longer, HeldBefore));
    assert AllHeldSourced(log, parse, fp, longer);
  }

  lemma AppliedSourced(log: set<Message>, parse: Parser, r: Reduced, fp: Id, m: Message, profile: Profile)
    requires Sourced(log, parse, r.p) && fp in r.p.entries && HeldSourced(log, parse, fp, Held(m, profile))
    requires ApplyProfile(r.p.entries[fp], profile, m.id, m.sender).Ok?
    ensures Sourced(log, parse, Applied(r, fp, ApplyProfile(r.p.entries[fp], profile, m.id, m.sender).value, m.id).p)
  {
    ApplySourced(log, parse, fp, r.p.entries[fp], m, profile);
  }

  lemma {:induction false} DrainAllSourced(log: set<Message>, parse: Parser, r: Reduced, fp: Id, items: seq<Held>)
    requires Sourced(log, parse, r.p) && fp in r.p.entries && AllHeldSourced(log, parse, fp, items)
    requires DrainAll(r, fp, items).Ok?
    ensures Sourced(log, parse, DrainAll(r, fp, items).value.p)
    decreases |items|
  {
    if items != [] {
      var item := items[0];
      assert item in items;
      var o := ApplyProfile(r.p.entries[fp], item.profile, item.message.id, item.message.sender).value;
      if o.held {
        PushSourced(log, parse, r.p, fp, item);
      } else {
        AppliedSourced(log, parse, r, fp, item.message, item.profile);
      }
      assert AllHeldSourced(log, parse, fp, items[1..]);
      DrainAllSourced(log, parse, DrainOne(r, fp, item).value, fp, items[1..]);
    }
  }

  lemma DrainSourced(log: set<Message>, parse: Parser, r: Reduced, fp: Id)
    requires Sourced(log, parse, r.p) && fp in r.p.entries && Drain(r, fp).Ok?
    ensures Sourced(log, parse, Drain(r, fp).value.p)
  {
    if fp in r.p.pending {
      var without := r.(p := r.p.(pending := r.p.pending - {fp}));
      DrainAllSourced(log, parse, without, fp, r.p.pending[fp]);
    }
  }

  lemma StartSourced(
    log: set<Message>, parse: Parser, p: Projection, job: Job, generation: Option<nat>, id: Id)
    requires Sourced(log, parse, p) && SaidAs(log, parse, id, Assignment(job, generation))
    ensures Sourced(log, parse, p.(entries := p.entries[job.fingerprint := Assigning(job, generation, id)]))
  {
    var m :| m in log && m.id == id && parse(m.body) == Some(Assignment(job, generation));
    assert Explains(m, parse, Assigning(job, generation, id));
    assert Said(log, parse, Assignment(job, generation));
    assert EntrySourced(log, parse, job.fingerprint, Assigning(job, generation, id));
  }

  lemma RegisteredSourced(log: set<Message>, parse: Parser, p: Projection, id: Id)
    requires Sourced(log, parse, p)
    ensures Sourced(log, parse, RegisterApplied(MakeRoom(p), id))
    ensures RegisterApplied(MakeRoom(p), id).entries == MakeRoom(p).entries
  {
    assert Sourced(log, parse, MakeRoom(p));
  }

  lemma FirstAssignmentSourced(
    log: set<Message>, parse: Parser, r: Reduced, job: Job, generation: Option<nat>, id: Id)
    requires Sourced(log, parse, r.p) && SaidAs(log, parse, id, Assignment(job, generation))
    requires FirstAssignment(r, job, generation, id).Ok?
    ensures Sourced(log, parse, FirstAssignment(r, job, generation, id).value.p)
  {
    var p := MakeRoom(r.p);
    if |p.entries| < MAX_ENTRIES {
      var registered := RegisterApplied(p, id);
      RegisteredSourced(log, parse, r.p, id);
      StartSourced(log, parse, registered, job, generation, id);
      var started := registered.(entries := registered.entries[job.fingerprint := Assigning(job, generation, id)]);
      DrainSourced(log, parse, Reduced(started, r.imports + [job]), job.fingerprint);
    }
  }

  lemma StepSourced(log: set<Message>, parse: Parser, r: Reduced, m: Message)
    requires Sourced(log, parse, r.p) && m in log && Step(r, m, parse).Ok?
    ensures Sourced(log, parse, Step(r, m, parse).value.p)
  {
    if parse(m.body).Some? {
      var profile := parse(m.body).value;
      var fp := FingerprintOf(profile);
      if fp in r.p.entries {
        var o := ApplyProfile(r.p.entries[fp], profile, m.id, m.sender).value;
        if o.held {
          HoldSourced(log, parse, r.p, fp, Held(m, profile));
        } else {
          AppliedSourced(log, parse, r, fp, m, profile);
          DrainSourced(log, parse, Applied(r, fp, o, m.id), fp);
        }
      } else if profile.Assignment? {
        assert SaidAs(log, parse, m.id, profile);
        FirstAssignmentSourced(log, parse, r, profile.job, profile.generation, m.id);
      } else {
        HoldSourced(log, parse, r.p, fp, Held(m, profile));
      }
    }
  }

  lemma HoldSourced(log: set<Message>, parse: Parser, p: Projection, fp: Id, item: Held)
    requires Sourced(log, parse, p) && HeldSourced(log, parse, fp, item)
    ensures Sourced(log, parse, HoldMessage(p, fp, item))
  {
    if !AlreadyHeld(HeldFor(p, fp), item.message.id) {
      PushSourced(log, parse, p.(incomplete := p.incomplete || PendingFull(p, fp)), fp, item);
    }
  }

  lemma {:induction false} FoldSourced(log: set<Message>, parse: Parser, r: Reduced, ms: seq<Message>)
    requires Sourced(log, parse, r.p) && (forall m :: m in ms ==> m in log) && Fold(r, ms, parse).Ok?
    ensures Sourced(log, parse, Fold(r, ms, parse).value.p)
    decreases |ms|
  {
    if ms != [] {
      assert ms[0] in ms;
      StepSourced(log, parse, r, ms[0]);
      FoldSourced(log, parse, Step(r, ms[0], parse).value, ms[1..]);
    }
  }

  lemma {:induction false} ProcessedFinite(batches: seq<seq<Message>>, parse: Parser) returns (log: set<Message>)
    ensures forall m :: m in log <==> Processed(batches, parse, m)
    decreases |batches|
  {
    if batches == [] {
      log := {};
    } else {
      var earlier, last := batches[..|batches| - 1], batches[|batches| - 1];
      log := ProcessedFinite(earlier, parse);
      if Batch(Reduced(Project(earlier, parse), []), last, parse).Ok? {
        log := log + set m | m in last;
      }
    }
  }

  lemma SourcedGrows(log: set<Message>, more: set<Message>, parse: Parser, p: Projection)
    requires Sourced(log, parse, p) && log <= more
    ensures Sourced(more, parse, p)
  {
    assert forall profile :: Said(log, parse, profile) ==> Said(more, parse, profile);
    assert forall sender, profile :: SaidBy(log, parse, sender, profile) ==> SaidBy(more, parse, sender, profile);
    assert forall e :: Explained(log, parse, e) ==> Explained(more, parse, e);
  }

  /** After every run, all that is stored was said in a processed message:
      a result by the owner of its entry, and results, answers and jobs
      match the job, assignment, attempt and fingerprint of their entry. */
  lemma {:induction false} StoredFactsAreSourced(batches: seq<seq<Message>>, parse: Parser, log: set<Message>)
    requires forall m :: m in log <==> Processed(batches, parse, m)
    ensures Sourced(log, parse, Project(batches, parse))
    decreases |batches|
  {
    if batches != [] {
      var earlier, last := batches[..|batches| - 1], batches[|batches| - 1];
      var before := ProcessedFinite(earlier, parse);
      StoredFactsAreSourced(earlier, parse, before);
      SourcedGrows(before, log, parse, Project(earlier, parse));
      if Batch(Reduced(Project(earlier, parse), []), last, parse).Ok? {
        Rearranged(last, SortBy(last, ById));
        FoldSourced(log, parse, Reduced(Project(earlier, parse), []), SortBy(last, ById));
      }
    }
  }

  // ----- imports

  /** Every job an entry holds now was held there before or is imported, and
      every imported job was assigned in a message. */
  ghost predicate Imported(log: set<Message>, parse: Parser, before: Projection, r: Reduced) {
    && (forall fp :: fp in r.p.entries ==> KeepsJob(before, r, fp))
    && (forall job :: job in r.imports ==> exists g :: Said(log, parse, Assignment(job, g)))
  }

  ghost predicate KeepsJob(before: Projection, r: Reduced, fp: Id)
    requires fp in r.p.entries
  {
    || (fp in before.entries && r.p.entries[fp].job == before.entries[fp].job)
    || (r.p.entries[fp].job.Some? && r.p.entries[fp].job.value in r.imports)
  }

  lemma AppliedImported(
    log: set<Message>, parse: Parser, before: Projection, r: Reduced, fp: Id, m: Message, profile: Profile)
    requires Imported(log, parse, before, r) && fp in r.p.entries && HeldSourced(log, parse, fp, Held(m, profile))
    requires ApplyProfile(r.p.entries[fp], profile, m.id, m.sender).Ok?
    ensures Imported(log, parse, before,
                     Applied(r, fp, ApplyProfile(r.p.entries[fp], profile, m.id, m.sender).value, m.id))
  {
    var o := ApplyProfile(r.p.entries[fp], profile, m.id, m.sender).value;
    var next := Applied(r, fp, o, m.id);
    assert next.p.entries == r.p.entries[fp := o.entry];
    forall f | f in next.p.entries
      ensures KeepsJob(before, next, f)
    {
      assert f in r.p.entries && KeepsJob(before, r, f);
    }
    if o.job.Some? {
      assert Said(log, parse, Assignment(o.job.value, profile.generation));
    }
  }

  lemma {:induction false} DrainAllImported(
    log: set<Message>, parse: Parser, before: Projection, r: Reduced, fp: Id, items: seq<Held>)
    requires Imported(log, parse, before, r) && fp in r.p.entries && AllHeldSourced(log, parse, fp, items)
    requires DrainAll(r, fp, items).Ok?
    ensures Imported(log, parse, before, DrainAll(r, fp, items).value)
    decreases |items|
  {
    if items != [] {
      var item := items[0];
      assert item in items;
      var next := DrainOne(r, fp, item).value;
      var o := ApplyProfile(r.p.entries[fp], item.profile, item.message.id, item.message.sender).value;
      if o.held {
        SameImported(log, parse, before, r, next);
      } else {
        AppliedImported(log, parse, before, r, fp, item.message, item.profile);
      }
      assert AllHeldSourced(log, parse, fp, items[1..]);
      DrainAllImported(log, parse, before, next, fp, items[1..]);
    }
  }

  lemma SameImported(log: set<Message>, parse: Parser, before: Projection, r: Reduced, q: Reduced)
    requires Imported(log, parse, before, r) && q.imports == r.imports
    requires forall fp :: fp in q.p.entries ==> fp in r.p.entries && q.p.entries[fp] == r.p.entries[fp]
    ensures Imported(log, parse, before, q)
  {
    forall fp | fp in q.p.entries
      ensures KeepsJob(before, q, fp)
    {
      assert KeepsJob(before, r, fp);
    }
  }

  lemma DrainImported(log: set<Message>, parse: Parser, before: Projection, r: Reduced, fp: Id)
    requires Imported(log, parse, before, r) && fp in r.p.entries && Drain(r, fp).Ok?
    requires Sourced(log, parse, r.p)
    ensures Imported(log, parse, before, Drain(r, fp).value)
  {
    if fp in r.p.pending {
      var without := r.(p := r.p.(pending := r.p.pending - {fp}));
      SameImported(log, parse, before, r, without);
      DrainAllImported(log, parse, before, without, fp, r.p.pending[fp]);
    }
  }

  lemma FirstAssignmentImported(
    log: set<Message>, parse: Parser, before: Projection, r: Reduced, job: Job, generation: Option<nat>, id: Id)
    requires Imported(log, parse, before, r) && Sourced(log, parse, r.p)
    requires SaidAs(log, parse, id, Assignment(job, generation)) && FirstAssignment(r, job, generation, id).Ok?
    ensures Imported(log, parse, before, FirstAssignment(r, job, generation, id).value)
  {
    var p := MakeRoom(r.p);
    SameImported(log, parse, before, r, r.(p := p));
    if |p.entries| < MAX_ENTRIES {
      var registered := RegisterApplied(p, id);
      RegisteredSourced(log, parse, r.p, id);
      StartSourced(log, parse, registered, job, generation, id);
      var e := Assigning(job, generation, id);
      var started := Reduced(registered.(entries := registered.entries[job.fingerprint := e]), r.imports + [job]);
      assert Said(log, parse, Assignment(job, generation));
      forall fp | fp in started.p.entries
        ensures KeepsJob(before, started, fp)
      {
        assert fp == job.fingerprint || KeepsJob(before, r, fp);
      }
      DrainImported(log, parse, before, started, job.fingerprint);
    }
  }

  lemma StepImported(log: set<Message>, parse: Parser, before: Projection, r: Reduced, m: Message)
    requires Imported(log, parse, before, r) && Sourced(log, parse, r.p) && m in log && Step(r, m, parse).Ok?
    ensures Imported(log, parse, before, Step(r, m, parse).value)
  {
    if parse(m.body).Some? {
      var profile := parse(m.body).value;
      var fp := FingerprintOf(profile);
      if fp in r.p.entries {
        var o := ApplyProfile(r.p.entries[fp], profile, m.id, m.sender).value;
        if o.held {
          SameImported(log, parse, before, r, Step(r, m, parse).value);
        } else {
          AppliedSourced(log, parse, r, fp, m, profile);
          AppliedImported(log, parse, before, r, fp, m, profile);
          DrainImported(log, parse, before, Applied(r, fp, o, m.id), fp);
        }
      } else if profile.Assignment? {
        assert SaidAs(log, parse, m.id, profile);
        FirstAssignmentImported(log, parse, before, r, profile.job, profile.generation, m.id);
      } else {
        SameImported(log, parse, before, r, Step(r, m, parse).value);
      }
    }
  }

  lemma {:induction false} FoldImported(
    log: set<Message>, parse: Parser, before: Projection, r: Reduced, ms: seq<Message>)
    requires Imported(log, parse, before, r) && Sourced(log, parse, r.p)
    requires (forall m :: m in ms ==> m in log) && Fold(r, ms, parse).Ok?
    ensures Imported(log, parse, before, Fold(r, ms, parse).value)
    decreases |ms|
  {
    if ms != [] {
      assert ms[0] in ms;
      StepSourced(log, parse, r, ms[0]);
      StepImported(log, parse, before, r, ms[0]);
      FoldImported(log, parse, before, Step(r, ms[0], parse).value, ms[1..]);
    }
  }

  /** A batch leaves only what messages said, and imports exactly for what
      they assigned. */
  lemma BatchSourced(log: set<Message>, parse: Parser, p: Projection, ms: seq<Message>)
    requires Sourced(log, parse, p) && (forall m :: m in ms ==> m in log) && Batch(Reduced(p, []), ms, parse).Ok?
    ensures var r := Batch(Reduced(p, []), ms, parse).value;
            Sourced(log, parse, r.p) && Imported(log, parse, p, r)
  {
    Rearranged(ms, SortBy(ms, ById));
    FoldSourced(log, parse, Reduced(p, []), SortBy(ms, ById));
    FoldImported(log, parse, p, Reduced(p, []), SortBy(ms, ById));
  }

  /** After every run a further batch imports every job that an entry newly
      holds, and nothing that no processed message assigned. */
  lemma BatchImports(batches: seq<seq<Message>>, last: seq<Message>, parse: Parser, log: set<Message>)
    requires forall m :: m in log <==> Processed(batches, parse, m) || m in last
    requires Batch(Reduced(Project(batches, parse), []), last, parse).Ok?
    ensures Imported(log, parse, Project(batches, parse), Batch(Reduced(Project(batches, parse), []), last, parse).value)
  {
    var before := ProcessedFinite(batches, parse);
    StoredFactsAreSourced(batches, parse, before);
    SourcedGrows(before, log, parse, Project(batches, parse));
    BatchSourced(log, parse, Project(batches, parse), last);
  }

  // ----- short histories

  lemma FirstStep(a: Message, parse: Parser, job: Job) returns (r: Reduced)
    requires parse(a.body) == Some(Assignment(job, None))
    ensures r == Reduced(Projection(false, [a.id], map[job.fingerprint := Assigning(job, None, a.id)], map[]), [job])
    ensures Step(Reduced(Empty, []), a, parse) == Ok(r)
  {
    var e := Assigning(job, None, a.id);
    r := Reduced(Projection(false, [a.id], map[job.fingerprint := e], map[]), [job]);
    assert MakeRoom(Empty) == Empty && RegisterApplied(Empty, a.id) == Empty.(applied := [a.id]);
    assert Empty.entries[job.fingerprint := e] == map[job.fingerprint := e];
    assert [] + [job] == [job];
    assert FirstAssignment(Reduced(Empty, []), job, None, a.id) == Ok(r);
  }

  /** One batch that is already in order. */
  lemma ProjectOne(ms: seq<Message>, parse: Parser)
    requires DistinctIds(ms) && Sorted(ms, ById) && Fold(Reduced(Empty, []), ms, parse).Ok?
    ensures Project([ms], parse) == Fold(Reduced(Empty, []), ms, parse).value.p
  {
    SortIsOnly(ms, ms);
    assert [ms][..0] == [];
    assert Project([], parse) == Empty;
  }

  /** A profile that applies to its entry while nothing is held for it. */
  lemma PlainStep(r: Reduced, m: Message, parse: Parser, profile: Profile, o: Outcome) returns (next: Reduced)
    requires parse(m.body) == Some(profile) && FingerprintOf(profile) in r.p.entries && r.p.pending == map[]
    requires ApplyProfile(r.p.entries[FingerprintOf(profile)], profile, m.id, m.sender) == Ok(o) && !o.held
    requires Ascending(r.p.applied) && |r.p.applied| < 10 && |r.p.entries| <= MAX_ENTRIES
    ensures Step(r, m, parse) == Ok(next)
    ensures next.p.entries == r.p.entries[FingerprintOf(profile) := o.entry] && next.p.pending == map[]
    ensures next.p.incomplete == r.p.incomplete
    ensures Ascending(next.p.applied) && |next.p.applied| <= |r.p.applied| + 1
  {
    next := Applied(r, FingerprintOf(profile), o, m.id);
    if m.id !in r.p.applied {
      InsertIdKeeps(r.p.applied, m.id);
    }
  }

  lemma FoldThree(
    r: Reduced, r1: Reduced, r2: Reduced, r3: Reduced, a: Message, b: Message, c: Message, parse: Parser)
    requires Step(r, a, parse) == Ok(r1) && Step(r1, b, parse) == Ok(r2) && Step(r2, c, parse) == Ok(r3)
    ensures Fold(r, [a, b, c], parse) == Ok(r3)
  {
    assert [a, b, c][1..] == [b, c] && [b, c][1..] == [c] && [c][1..] == [];
    assert Fold(r3, [], parse) == Ok(r3);
    assert Fold(r2, [c], parse) == Fold(r3, [], parse);
    assert Fold(r1, [b, c], parse) == Fold(r2, [c], parse);
  }

  lemma FoldMore(r: Reduced, ms: seq<Message>, m: Message, r1: Reduced, r2: Reduced, parse: Parser)
    requires Fold(r, ms, parse) == Ok(r1) && Step(r1, m, parse) == Ok(r2)
    ensures Fold(r, ms + [m], parse) == Ok(r2)
  {
    FoldConcat(r, ms, [m], parse);
    assert [m][1..] == [];
    assert Fold(r1, [m], parse) == Fold(r2, [], parse);
  }
}
