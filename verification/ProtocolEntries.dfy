/** How one entry of the projection may change over a run. */
module ProtocolEntries {
  import opened Base
  import opened Sorting
  import opened Protocol
  import opened ProtocolRuns
  import opened ProtocolPass

  /** The fingerprint covers the assignment, its attempt and its owner, but
      not the job id: that much two recognised assignments with one
      fingerprint share. */
  ghost predicate FingerprintsIdentify(log: set<Message>, parse: Parser) {
    forall a, b, g, h ::
      (Said(log, parse, Assignment(a, g)) && Said(log, parse, Assignment(b, h)) && a.fingerprint == b.fingerprint) ==>
      a.assignmentId == b.assignmentId && a.attempt == b.attempt && a.owner == b.owner
  }

  /** `e'` is `e` some profiles later: the assignment never changes, a stored
      result or answer is never dropped, nothing returns to Assigned, and a
      revoked entry is final. */
  ghost predicate Later(e: Entry, e': Entry) {
    && e'.job == e.job && e'.fingerprint == e.fingerprint && e'.owner == e.owner
    && e'.jobId == e.jobId && e'.assignmentId == e.assignmentId && e'.attempt == e.attempt
    && (e.result.Some? ==> e'.result.Some?) && (e.answer.Some? ==> e'.answer.Some?)
    && (e'.state.Assigned? || e.state.Revoked? ==> e' == e)
  }

  lemma LaterTransitive(a: Entry, b: Entry, c: Entry)
    requires Later(a, b) && Later(b, c)
    ensures Later(a, c)
  {
  }

  /** An assignment of another job to the same fingerprint. */
  predicate Reassigns(e: Entry, profile: Profile) {
    profile.Assignment? && profile.job.jobId != e.jobId
  }

  /** A profile never collides with its entry, and moves it forward exactly
      unless it reassigns it; then the entry starts over and its job is
      imported. */
  lemma ApplyIsLaterIff(log: set<Message>, parse: Parser, fp: Id, e: Entry, m: Message, profile: Profile)
    requires FingerprintsIdentify(log, parse)
    requires EntrySourced(log, parse, fp, e) && HeldSourced(log, parse, fp, Held(m, profile))
    ensures var r := ApplyProfile(e, profile, m.id, m.sender);
            && r != Err(FingerprintCollision)
            && (r.Ok? ==> (Later(e, r.value.entry) <==> !Reassigns(e, profile)))
            && (r.Ok? ==>
                  if Reassigns(e, profile)
                  then r.value == Outcome(Assigning(profile.job, profile.generation, m.id), false, Some(profile.job))
                  else r.value.job.None?)
  {
    if profile.Assignment? {
      assert Said(log, parse, profile);
      var g :| Said(log, parse, Assignment(e.job.value, g));
      assert e.job.value.assignmentId == profile.job.assignmentId;
    }
  }

  // ----- what each kind of profile does

  /** An assignment of the job the entry is for changes nothing, one of another
      job to the same assignment and attempt starts the entry over, and any
      other collides. */
  lemma AssignmentOutcome(e: Entry, job: Job, generation: Option<nat>, id: Id, sender: string)
    ensures var out := ApplyProfile(e, Assignment(job, generation), id, sender);
            var same := job.jobId == e.jobId && job.assignmentId == e.assignmentId;
            var again := job.assignmentId == e.assignmentId && job.attempt == e.attempt;
            && (same ==> out == Ok(Outcome(e, false, None)))
            && (!same && again ==>
                  && out.Ok? && !out.value.held && out.value.job == Some(job)
                  && out.value.entry.job == Some(job) && out.value.entry.state == Assigned
                  && out.value.entry.result.None? && out.value.entry.answer.None?
                  && out.value.entry.revokeReason.None? && out.value.entry.observed == id)
            && (!same && !again ==> out == Err(FingerprintCollision))
  {
  }

  /** A result waits unless it is its owner's for this very assignment. It is
      ignored once the entry is revoked or holds it already, refused when a
      different one is stored under no larger an id, and stored otherwise. */
  lemma ResultOutcome(e: Entry, r: ResolutionResult, id: Id, sender: string)
    ensures var out := ApplyProfile(e, Finished(r), id, sender);
            var mine := Names(r.jobId, r.assignmentId, r.attempt, r.fingerprint, e) && sender == e.owner;
            var ignored := e.state == Revoked || e.result == Some(r);
            var late := e.result.Some? && e.observed <= id;
            && (!mine ==> out == Ok(Outcome(e, true, None)))
            && (mine && ignored ==> out == Ok(Outcome(e, false, None)))
            && (mine && !ignored && late ==> out == Err(LateResult))
            && (mine && !ignored && !late ==>
                  && out.Ok? && !out.value.held && out.value.job.None?
                  && out.value.entry.result == Some(r) && out.value.entry.generation == r.generation
                  && out.value.entry.state == ResultReceived && out.value.entry.observed == id
                  && out.value.entry.answer == e.answer && out.value.entry.job == e.job)
  {
  }

  /** An answer also waits until it is for the question generation in force. */
  lemma AnswerOutcome(e: Entry, a: HumanAnswer, id: Id, sender: string)
    ensures var out := ApplyProfile(e, Answered(a), id, sender);
            var mine := Names(a.jobId, a.assignmentId, a.attempt, a.fingerprint, e) && a.generation == e.generation;
            var ignored := e.state == Revoked || e.answer == Some(a);
            var late := e.answer.Some? && e.observed <= id;
            && (!mine ==> out == Ok(Outcome(e, true, None)))
            && (mine && ignored ==> out == Ok(Outcome(e, false, None)))
            && (mine && !ignored && late ==> out == Err(LateAnswer))
            && (mine && !ignored && !late ==>
                  && out.Ok? && !out.value.held && out.value.job.None?
                  && out.value.entry.answer == Some(a) && out.value.entry.state == HumanAnswered
                  && out.value.entry.observed == id && out.value.entry.generation == e.generation
                  && out.value.entry.result == e.result && out.value.entry.job == e.job)
  {
  }

  /** A revocation of this attempt or a later one revokes, once. */
  lemma RevokeOutcome(e: Entry, r: Revocation, id: Id, sender: string)
    ensures var out := ApplyProfile(e, Revoke(r), id, sender);
            var mine := r.jobId == e.jobId && r.assignmentId == e.assignmentId
                        && r.fingerprint == e.fingerprint && e.attempt <= r.attempt;
            && (!mine ==> out == Ok(Outcome(e, true, None)))
            && (mine && e.state == Revoked ==> out == Ok(Outcome(e, false, None)))
            && (mine && e.state != Revoked ==>
                  && out.Ok? && !out.value.held && out.value.job.None?
                  && out.value.entry.state == Revoked && out.value.entry.revokeReason == Some(r.reason)
                  && out.value.entry.observed == id && out.value.entry.result == e.result
                  && out.value.entry.answer == e.answer && out.value.entry.generation == e.generation
                  && out.value.entry.job == e.job)
  {
  }

  /** A profile of kind and fields as given is about fingerprint `f`. */
  predicate IsAbout(profile: Profile, f: Id) {
    match profile
    case Assignment(job, _) => job.fingerprint == f
    case Finished(r) => r.fingerprint == f
    case Revoke(r) => r.fingerprint == f
    case Answered(a) => a.fingerprint == f
  }

  /** A profile reaches the entry of its own fingerprint: it is applied there,
      or held for exactly that fingerprint when the entry cannot take it yet. */
  lemma ProfileReachesItsEntry(r: Reduced, m: Message, parse: Parser, profile: Profile, f: Id)
    requires WellFormed(r.p) && parse(m.body) == Some(profile) && IsAbout(profile, f) && f in r.p.entries
    requires Step(r, m, parse).Ok? && !Step(r, m, parse).value.p.incomplete
    ensures var q := Step(r, m, parse).value.p;
            var o := ApplyProfile(r.p.entries[f], profile, m.id, m.sender);
            && o.Ok?
            && (if o.value.held then f in q.pending && AlreadyHeld(q.pending[f], m.id) else Accounted(q, m.id))
  {
    StepKeeps(r, m, parse);
    var o := ApplyProfile(r.p.entries[f], profile, m.id, m.sender).value;
    if o.held && !AlreadyHeld(HeldFor(r.p, f), m.id) {
      SortedHeld(HeldFor(r.p, f), Held(m, profile), m.id);
    }
  }

  /** A message delivered again after its entry went changes nothing, be it
      applied already or held already. */
  lemma RedeliveryIsIgnored(r: Reduced, m: Message, parse: Parser, profile: Profile, f: Id)
    requires parse(m.body) == Some(profile) && IsAbout(profile, f) && f !in r.p.entries && !profile.Assignment?
    requires m.id in r.p.applied || (f in r.p.pending && AlreadyHeld(r.p.pending[f], m.id))
    ensures Step(r, m, parse) == Ok(r)
  {
  }

  lemma HeldIsLater(e: Entry, h: Held)
    requires !h.profile.Assignment?
    ensures ApplyHeld(e, h) != Err(FingerprintCollision)
    ensures ApplyHeld(e, h).Ok? ==> Later(e, ApplyHeld(e, h).value.entry)
  {
  }

  /** A pass over held profiles moves its entry forward only. */
  lemma {:induction false} PassIsLater(e: Entry, items: seq<Held>)
    requires TidyList(items)
    ensures Pass(e, items) != Err(FingerprintCollision)
    ensures Pass(e, items).Ok? ==> Later(e, Pass(e, items).value.entry)
    decreases |items|
  {
    if items != [] {
      assert [] + items == items;
      TidySplit([], items);
      HeldIsLater(e, items[0]);
      var o := ApplyHeld(e, items[0]);
      if o.Ok? {
        PassIsLater(o.value.entry, items[1..]);
        if Pass(e, items).Ok? {
          LaterTransitive(e, o.value.entry, Pass(e, items).value.entry);
        }
      }
    }
  }

  lemma DrainIsLater(r: Reduced, fp: Id)
    requires fp in r.p.entries && Tidy(r.p)
    ensures Drain(r, fp) != Err(FingerprintCollision)
    ensures Drain(r, fp).Ok? ==>
              var q := Drain(r, fp).value;
              && q.imports == r.imports && fp in q.p.entries
              && q.p.entries == r.p.entries[fp := q.p.entries[fp]] && Later(r.p.entries[fp], q.p.entries[fp])
  {
    DrainIsPass(r, fp);
    PassIsLater(r.p.entries[fp], HeldFor(r.p, fp));
  }

  // ----- one message

  /** What one message may do to the entries: move the one it names forward,
      start it over with an import when it reassigns it, add the one it
      assigns with its import, or evict a revoked one to make room. */
  ghost predicate StepOk(r: Reduced, r': Reduced, m: Message, profile: Profile) {
    var fp := FingerprintOf(profile);
    if fp in r.p.entries then
      && fp in r'.p.entries && r'.p.entries == r.p.entries[fp := r'.p.entries[fp]]
      && (Later(r.p.entries[fp], r'.p.entries[fp]) <==> !Reassigns(r.p.entries[fp], profile))
      && (if Reassigns(r.p.entries[fp], profile)
          then && Later(Assigning(profile.job, profile.generation, m.id), r'.p.entries[fp])
               && r'.imports == r.imports + [profile.job]
          else r'.imports == r.imports)
    else
      && (forall f :: f in r.p.entries && f in r'.p.entries ==> r'.p.entries[f] == r.p.entries[f])
      && (forall f :: f in r.p.entries && f !in r'.p.entries ==>
            r.p.entries[f].state.Revoked? && |r.p.entries| >= MAX_ENTRIES && fp in r'.p.entries)
      && (forall f :: f in r'.p.entries && f !in r.p.entries ==> f == fp)
      && (if fp in r'.p.entries
          then && profile.Assignment? && r'.imports == r.imports + [profile.job]
               && Later(Assigning(profile.job, profile.generation, m.id), r'.p.entries[fp])
          else r'.imports == r.imports)
  }

  lemma BoundStepMoves(log: set<Message>, parse: Parser, r: Reduced, m: Message, profile: Profile)
    requires FingerprintsIdentify(log, parse) && Sourced(log, parse, r.p) && Tidy(r.p) && m in log
    requires parse(m.body) == Some(profile) && FingerprintOf(profile) in r.p.entries
    ensures StepProfile(r, m, profile) != Err(FingerprintCollision)
    ensures StepProfile(r, m, profile).Ok? ==> StepOk(r, StepProfile(r, m, profile).value, m, profile)
  {
    var fp := FingerprintOf(profile);
    var e := r.p.entries[fp];
    ApplyIsLaterIff(log, parse, fp, e, m, profile);
    var o := ApplyProfile(e, profile, m.id, m.sender);
    if o.Ok? && o.value.held {
      HeldIsNoAssignment(e, profile, m.id, m.sender);
      assert r.p.entries == r.p.entries[fp := e];
    } else if o.Ok? {
      var applied := Applied(r, fp, o.value, m.id);
      assert applied.p.entries == r.p.entries[fp := o.value.entry];
      DrainIsLater(applied, fp);
      if Drain(applied, fp).Ok? {
        AppliedThenLater(r, Drain(applied, fp).value, m, profile, o.value);
      }
    }
  }

  lemma AppliedThenLater(r: Reduced, q: Reduced, m: Message, profile: Profile, o: Outcome)
    requires var fp := FingerprintOf(profile);
             && fp in r.p.entries && fp in q.p.entries
             && q.p.entries == r.p.entries[fp := o.entry][fp := q.p.entries[fp]] && Later(o.entry, q.p.entries[fp])
             && (Later(r.p.entries[fp], o.entry) <==> !Reassigns(r.p.entries[fp], profile))
             && (if Reassigns(r.p.entries[fp], profile)
                 then o == Outcome(Assigning(profile.job, profile.generation, m.id), false, Some(profile.job))
                 else o.job.None?)
             && q.imports == r.imports + (if o.job.Some? then [o.job.value] else [])
    ensures StepOk(r, q, m, profile)
  {
    var fp := FingerprintOf(profile);
    assert r.p.entries[fp := o.entry][fp := q.p.entries[fp]] == r.p.entries[fp := q.p.entries[fp]];
    if !Reassigns(r.p.entries[fp], profile) {
      LaterTransitive(r.p.entries[fp], o.entry, q.p.entries[fp]);
    }
  }

  lemma FirstAssignmentMoves(r: Reduced, m: Message, profile: Profile)
    requires Tidy(r.p) && WellFormed(r.p) && profile.Assignment? && profile.job.fingerprint !in r.p.entries
    ensures StepProfile(r, m, profile) != Err(FingerprintCollision)
    ensures StepProfile(r, m, profile).Ok? ==> StepOk(r, StepProfile(r, m, profile).value, m, profile)
  {
    MakeRoomKeeps(r.p);
    var job, p := profile.job, MakeRoom(r.p);
    if |p.entries| < MAX_ENTRIES {
      RegisterKeeps(p, m.id);
      var started := Reduced(Started(r.p, job, profile.generation, m.id), r.imports + [job]);
      DrainIsLater(started, job.fingerprint);
    }
  }

  /** One message at a time, an entry moves forward exactly unless the message
      reassigns it; every new or restarted entry comes with exactly one import
      of its job; and no fingerprint ever collides. */
  lemma StepMoves(log: set<Message>, parse: Parser, r: Reduced, m: Message)
    requires FingerprintsIdentify(log, parse) && Sourced(log, parse, r.p) && WellFormed(r.p) && Tidy(r.p) && m in log
    ensures Step(r, m, parse) != Err(FingerprintCollision)
    ensures Step(r, m, parse).Ok? && parse(m.body).Some? ==>
              StepOk(r, Step(r, m, parse).value, m, parse(m.body).value)
    ensures Step(r, m, parse).Ok? && parse(m.body).None? ==> Step(r, m, parse).value == r
  {
    if parse(m.body).Some? {
      var profile := parse(m.body).value;
      if FingerprintOf(profile) in r.p.entries {
        BoundStepMoves(log, parse, r, m, profile);
      } else if profile.Assignment? {
        FirstAssignmentMoves(r, m, profile);
      }
    }
  }

  // ----- whole runs

  lemma {:induction false} FoldNeverCollides(log: set<Message>, parse: Parser, r: Reduced, ms: seq<Message>)
    requires FingerprintsIdentify(log, parse) && Sourced(log, parse, r.p) && WellFormed(r.p) && Tidy(r.p)
    requires forall m :: m in ms ==> m in log
    ensures Fold(r, ms, parse) != Err(FingerprintCollision)
    decreases |ms|
  {
    if ms != [] {
      assert ms[0] in ms;
      StepMoves(log, parse, r, ms[0]);
      var next := Step(r, ms[0], parse);
      if next.Ok? {
        StepSourced(log, parse, r, ms[0]);
        StepKeeps(r, ms[0], parse);
        StepTidy(r, ms[0], parse);
        FoldNeverCollides(log, parse, next.value, ms[1..]);
      }
    }
  }

  /** Over every run, the next batch never fails on a colliding fingerprint:
      the only errors left are a second, different result or answer. */
  lemma RunNeverCollides(batches: seq<seq<Message>>, next: seq<Message>, parse: Parser, log: set<Message>)
    requires forall m :: m in log <==> Processed(batches, parse, m) || m in next
    requires FingerprintsIdentify(log, parse)
    ensures Batch(Reduced(Project(batches, parse), []), next, parse) != Err(FingerprintCollision)
  {
    var before := ProcessedFinite(batches, parse);
    StoredFactsAreSourced(batches, parse, before);
    SourcedGrows(before, log, parse, Project(batches, parse));
    NothingLostSilently(batches, parse);
    RunTidy(batches, parse);
    Rearranged(next, SortBy(next, ById));
    FoldNeverCollides(log, parse, Reduced(Project(batches, parse), []), SortBy(next, ById));
  }

  /** Three messages that assign, finish and revoke one job. */
  predicate RevokedHistory(
    a: Message, b: Message, c: Message, parse: Parser, job: Job, result: ResolutionResult, reason: nat)
  {
    && a.id < b.id < c.id && b.sender == job.owner
    && parse(a.body) == Some(Assignment(job, None)) && parse(b.body) == Some(Finished(result))
    && parse(c.body) == Some(Revoke(Revocation(job.jobId, job.assignmentId, job.attempt, job.fingerprint, reason)))
    && result == ResolutionResult(job.jobId, job.assignmentId, job.attempt, job.fingerprint, 0, result.body)
  }

  lemma RevokedByHistory(
    a: Message, b: Message, c: Message, parse: Parser, job: Job, result: ResolutionResult, reason: nat)
    returns (r: Reduced)
    requires RevokedHistory(a, b, c, parse, job, result, reason)
    ensures Fold(Reduced(Empty, []), [a, b, c], parse) == Ok(r)
    ensures r.p.entries.Keys == {job.fingerprint} && r.p.pending == map[] && !r.p.incomplete
    ensures r.p.entries[job.fingerprint] ==
            Assigning(job, None, a.id).(state := Revoked, result := Some(result), revokeReason := Some(reason), observed := c.id)
    ensures Ascending(r.p.applied) && |r.p.applied| <= 3
  {
    var r1 := FirstStep(a, parse, job);
    var done := Assigning(job, None, a.id).(state := ResultReceived, generation := 0, result := Some(result), observed := b.id);
    var r2 := PlainStep(r1, b, parse, Finished(result), Outcome(done, false, None));
    var revoked := done.(state := Revoked, revokeReason := Some(reason), observed := c.id);
    r := PlainStep(r2, c, parse, parse(c.body).value, Outcome(revoked, false, None));
    FoldThree(Reduced(Empty, []), r1, r2, r, a, b, c, parse);
  }

  /** A revoked entry is not final over a run: an assignment of another job
      to the same fingerprint, with the same assignment, attempt and owner,
      revives it and drops its result. */
  lemma ReassignmentRevives(
    a: Message, b: Message, c: Message, d: Message, parse: Parser, job: Job, other: Job, result: ResolutionResult, reason: nat)
    requires RevokedHistory(a, b, c, parse, job, result, reason) && c.id < d.id
    requires parse(d.body) == Some(Assignment(other, None))
    requires other == job.(jobId := other.jobId, body := other.body) && other.jobId != job.jobId
    ensures var before, after := Project([[a, b, c]], parse), Project([[a, b, c, d]], parse);
            && job.fingerprint in before.entries && before.entries[job.fingerprint].state.Revoked?
            && before.entries[job.fingerprint].result == Some(result)
            && job.fingerprint in after.entries && after.entries[job.fingerprint] == Assigning(other, None, d.id)
            && !before.incomplete && !after.incomplete
  {
    var r3 := RevokedByHistory(a, b, c, parse, job, result, reason);
    ProjectThree(a, b, c, parse);
    var r4 := Reassigned(r3, d, parse, other);
    FoldMore(Reduced(Empty, []), [a, b, c], d, r3, r4, parse);
    ProjectFour(a, b, c, d, parse);
  }

  lemma ProjectThree(a: Message, b: Message, c: Message, parse: Parser)
    requires a.id < b.id < c.id && Fold(Reduced(Empty, []), [a, b, c], parse).Ok?
    ensures Project([[a, b, c]], parse) == Fold(Reduced(Empty, []), [a, b, c], parse).value.p
  {
    ProjectOne([a, b, c], parse);
  }

  lemma ProjectFour(a: Message, b: Message, c: Message, d: Message, parse: Parser)
    requires a.id < b.id < c.id < d.id && Fold(Reduced(Empty, []), [a, b, c] + [d], parse).Ok?
    ensures Project([[a, b, c, d]], parse) == Fold(Reduced(Empty, []), [a, b, c] + [d], parse).value.p
  {
    var all := [a, b, c, d];
    assert all == [a, b, c] + [d];
    ProjectOne(all, parse);
  }

  lemma Reassigned(r: Reduced, d: Message, parse: Parser, other: Job) returns (next: Reduced)
    requires parse(d.body) == Some(Assignment(other, None)) && r.p.entries.Keys == {other.fingerprint}
    requires r.p.pending == map[] && Ascending(r.p.applied) && |r.p.applied| < 10
    requires var e := r.p.entries[other.fingerprint];
             e.jobId != other.jobId && e.assignmentId == other.assignmentId && e.attempt == other.attempt
    ensures Step(r, d, parse) == Ok(next) && next.p.incomplete == r.p.incomplete
    ensures other.fingerprint in next.p.entries && next.p.entries[other.fingerprint] == Assigning(other, None, d.id)
  {
    assert |r.p.entries| == |r.p.entries.Keys|;
    next := PlainStep(r, d, parse, Assignment(other, None), Outcome(Assigning(other, None, d.id), false, Some(other)));
  }
}
