/** Histories whose projection fails its own check, one for each way. */
module ProtocolWitnesses {
  import opened Base
  import opened Sorting
  import opened Protocol
  import opened ProtocolRuns
  import opened ProtocolPass
  import opened ProtocolCheck

  // ----- an outdated answer

  /** An assignment, an answer to its first question, then a result that
      raises the question generation. */
  lemma AnswerOvertakenByResult(
    a: Message, b: Message, c: Message, parse: Parser, job: Job, answer: HumanAnswer, result: ResolutionResult)
    requires a.id < b.id < c.id && c.sender == job.owner
    requires parse(a.body) == Some(Assignment(job, None)) && parse(b.body) == Some(Answered(answer))
    requires parse(c.body) == Some(Finished(result))
    requires answer == HumanAnswer(job.jobId, job.assignmentId, job.attempt, job.fingerprint, 0, answer.body)
    requires result == ResolutionResult(job.jobId, job.assignmentId, job.attempt, job.fingerprint, 1, result.body)
    ensures !Checks(Project([[a, b, c]], parse)) && !Project([[a, b, c]], parse).incomplete
  {
    var start := Reduced(Empty, []);
    var r1 := FirstStep(a, parse, job);
    var begun := Assigning(job, None, a.id);
    var answered := begun.(state := HumanAnswered, answer := Some(answer), observed := b.id);
    var r2 := PlainStep(r1, b, parse, Answered(answer), Outcome(answered, false, None));
    var last := answered.(state := ResultReceived, generation := 1, result := Some(result), observed := c.id);
    var r3 := PlainStep(r2, c, parse, Finished(result), Outcome(last, false, None));
    FoldThree(start, r1, r2, r3, a, b, c, parse);
    ProjectOne([a, b, c], parse);
    assert job.fingerprint in r3.p.entries && !EntryValid(job.fingerprint, r3.p.entries[job.fingerprint]);
  }

  // ----- too much held

  ghost predicate Ascend(ms: seq<Message>) {
    forall i, j :: 0 <= i < j < |ms| ==> ms[i].id < ms[j].id
  }

  /** A profile about `f` that is no assignment. */
  predicate About(m: Message, parse: Parser, f: Id) {
    parse(m.body).Some? && !parse(m.body).value.Assignment? && FingerprintOf(parse(m.body).value) == f
  }

  /** Messages for a fingerprint that has no entry pile up. */
  ghost predicate AllAbout(ms: seq<Message>, parse: Parser, f: Id) {
    Ascend(ms) && forall i :: 0 <= i < |ms| ==> About(ms[i], parse, f)
  }

  /** Nothing of `ms` is applied or held for `f` yet. */
  ghost predicate News(p: Projection, ms: seq<Message>, f: Id) {
    forall i :: 0 <= i < |ms| ==> ms[i].id !in p.applied && !AlreadyHeld(HeldFor(p, f), ms[i].id)
  }

  lemma StrayStep(r: Reduced, m: Message, parse: Parser, f: Id) returns (next: Reduced)
    requires About(m, parse, f) && f !in r.p.entries && m.id !in r.p.applied && !AlreadyHeld(HeldFor(r.p, f), m.id)
    ensures Step(r, m, parse) == Ok(next)
    ensures next.p.entries == r.p.entries && next.p.applied == r.p.applied && next.imports == r.imports
    ensures f in next.p.pending && |next.p.pending[f]| == |HeldFor(r.p, f)| + 1
    ensures next.p.pending.Keys == r.p.pending.Keys + {f}
    ensures forall id :: AlreadyHeld(next.p.pending[f], id) <==> id == m.id || AlreadyHeld(HeldFor(r.p, f), id)
  {
    var item := Held(m, parse(m.body).value);
    next := Step(r, m, parse).value;
    var longer := HeldFor(r.p, f) + [item];
    Rearranged(longer, SortBy(longer, HeldBefore));
    KeysOfUpdate(r.p.pending, f, SortBy(longer, HeldBefore));
    forall id
      ensures AlreadyHeld(next.p.pending[f], id) <==> id == m.id || AlreadyHeld(HeldFor(r.p, f), id)
    {
      SortedHeld(HeldFor(r.p, f), item, id);
    }
  }

  lemma {:induction false} StraysPileUp(r: Reduced, ms: seq<Message>, parse: Parser, f: Id) returns (q: Reduced)
    requires AllAbout(ms, parse, f) && f !in r.p.entries && News(r.p, ms, f)
    ensures Fold(r, ms, parse) == Ok(q) && q.p.entries == r.p.entries && q.p.applied == r.p.applied
    ensures |HeldFor(q.p, f)| == |HeldFor(r.p, f)| + |ms|
    ensures forall x :: x in q.p.pending <==> x in r.p.pending || (x == f && ms != [])
    decreases |ms|
  {
    if ms == [] {
      q := r;
    } else {
      var next := StrayStep(r, ms[0], parse, f);
      var rest := ms[1..];
      assert forall i :: 0 <= i < |rest| ==> rest[i] == ms[i + 1];
      q := StraysPileUp(next, rest, parse, f);
    }
  }

  lemma AscendIsOrder(ms: seq<Message>)
    requires Ascend(ms)
    ensures DistinctIds(ms) && Sorted(ms, ById)
  {
  }

  lemma AllAfter(a: Message, ms: seq<Message>)
    requires Ascend([a] + ms)
    ensures forall i :: 0 <= i < |ms| ==> a.id < ms[i].id
  {
    forall i | 0 <= i < |ms|
      ensures a.id < ms[i].id
    {
      assert ([a] + ms)[0] == a && ([a] + ms)[i + 1] == ms[i];
    }
  }

  /** With an entry present, nine stray profiles for one fingerprint are held
      and the check fails. */
  lemma TooManyForOneFingerprint(a: Message, ms: seq<Message>, parse: Parser, job: Job, f: Id)
    requires parse(a.body) == Some(Assignment(job, None)) && f != job.fingerprint
    requires AllAbout(ms, parse, f) && Ascend([a] + ms) && |ms| > MAX_PENDING_PER_FINGERPRINT
    ensures !Checks(Project([[a] + ms], parse))
  {
    var r1 := FirstStep(a, parse, job);
    AllAfter(a, ms);
    var q := StraysPileUp(r1, ms, parse, f);
    FoldFront(Reduced(Empty, []), a, ms, r1, parse);
    AscendIsOrder([a] + ms);
    ProjectOne([a] + ms, parse);
    assert job.fingerprint in q.p.entries && !PendingBounded(q.p);
  }

  lemma FoldFront(r: Reduced, m: Message, ms: seq<Message>, next: Reduced, parse: Parser)
    requires Step(r, m, parse) == Ok(next)
    ensures Fold(r, [m] + ms, parse) == Fold(next, ms, parse)
  {
    assert ([m] + ms)[1..] == ms;
  }

  /** Without an entry they pass; the first assignment, whatever it is about,
      makes the check fail. */
  lemma OverflowShowsWithFirstEntry(ms: seq<Message>, a: Message, parse: Parser, job: Job, f: Id)
    requires parse(a.body) == Some(Assignment(job, None)) && f != job.fingerprint
    requires AllAbout(ms, parse, f) && Ascend(ms + [a]) && |ms| > MAX_PENDING_PER_FINGERPRINT
    ensures Checks(Project([ms], parse)) && !Checks(Project([ms + [a]], parse))
  {
    assert forall i :: 0 <= i < |ms| ==> ms[i] == (ms + [a])[i];
    var q := StraysPileUp(Reduced(Empty, []), ms, parse, f);
    AscendIsOrder(ms);
    ProjectOne(ms, parse);
    var next := LateFirstStep(q, a, parse, job, f);
    FoldMore(Reduced(Empty, []), ms, a, q, next, parse);
    AscendIsOrder(ms + [a]);
    ProjectOne(ms + [a], parse);
  }

  lemma LateFirstStep(q: Reduced, a: Message, parse: Parser, job: Job, f: Id) returns (next: Reduced)
    requires parse(a.body) == Some(Assignment(job, None)) && f != job.fingerprint
    requires q.p.entries == map[] && q.p.applied == [] && job.fingerprint !in q.p.pending
    requires f in q.p.pending && |q.p.pending[f]| > MAX_PENDING_PER_FINGERPRINT
    ensures Step(q, a, parse) == Ok(next) && !Checks(next.p)
  {
    next := FirstAssignment(q, job, None, a.id).value;
    assert job.fingerprint in next.p.entries && next.p.pending == q.p.pending;
  }

  // ----- too many fingerprints

  /** Each message is about its own fingerprint. */
  ghost predicate Spread(ms: seq<Message>, parse: Parser, fps: seq<Id>) {
    && |fps| == |ms| && Ascend(ms) && Distinct(fps)
    && forall i :: 0 <= i < |ms| ==> About(ms[i], parse, fps[i])
  }

  lemma {:induction false} StraysSpread(r: Reduced, ms: seq<Message>, parse: Parser, fps: seq<Id>) returns (q: Reduced)
    requires Spread(ms, parse, fps)
    requires forall i :: 0 <= i < |ms| ==> fps[i] !in r.p.entries && fps[i] !in r.p.pending && ms[i].id !in r.p.applied
    ensures Fold(r, ms, parse) == Ok(q) && q.p.entries == r.p.entries
    ensures |q.p.pending| == |r.p.pending| + |ms|
    decreases |ms|
  {
    if ms == [] {
      q := r;
    } else {
      var next := StrayStep(r, ms[0], parse, fps[0]);
      assert |next.p.pending| == |next.p.pending.Keys| && |r.p.pending| == |r.p.pending.Keys|;
      var rest, others := ms[1..], fps[1..];
      DistinctUnfold(fps);
      forall i | 0 <= i < |rest|
        ensures others[i] !in next.p.entries && others[i] !in next.p.pending && rest[i].id !in next.p.applied
        ensures About(rest[i], parse, others[i])
      {
        assert rest[i] == ms[i + 1] && others[i] == fps[i + 1] && others[i] in others;
      }
      assert Ascend(rest) by {
        assert forall i :: 0 <= i < |rest| ==> rest[i] == ms[i + 1];
      }
      q := StraysSpread(next, rest, parse, others);
    }
  }

  /** With an entry present, sixty-five fingerprints with a stray profile each
      are held and the check fails. */
  lemma TooManyFingerprints(a: Message, ms: seq<Message>, parse: Parser, job: Job, fps: seq<Id>)
    requires parse(a.body) == Some(Assignment(job, None)) && job.fingerprint !in fps
    requires Spread(ms, parse, fps) && Ascend([a] + ms) && |ms| > MAX_PENDING_FINGERPRINTS
    ensures !Checks(Project([[a] + ms], parse))
  {
    var r1 := FirstStep(a, parse, job);
    AllAfter(a, ms);
    forall i | 0 <= i < |ms|
      ensures fps[i] !in r1.p.entries && fps[i] !in r1.p.pending && ms[i].id !in r1.p.applied
    {
      assert fps[i] in fps;
    }
    var q := StraysSpread(r1, ms, parse, fps);
    FoldFront(Reduced(Empty, []), a, ms, r1, parse);
    AscendIsOrder([a] + ms);
    ProjectOne([a] + ms, parse);
    assert job.fingerprint in q.p.entries && !PendingBounded(q.p);
  }
}
