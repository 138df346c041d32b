/** The bounded, durable store of resolution jobs on one machine. */
module JobStore {
  import opened Base
  import opened Sorting
  import opened ResolutionStates

  const RESOLUTION_MAX_JOBS: nat := 64

  datatype JobRecord = JobRecord(
    jobId: nat,
    path: string,
    fingerprint: Id,
    createdAtMs: int,
    state: AssignmentState)

  function Select(jobs: seq<JobRecord>, terminal: bool): (r: seq<JobRecord>)
    ensures |r| <= |jobs|
    ensures forall x :: x in r <==> x in jobs && x.state.IsTerminal() == terminal
  {
    if jobs == [] then []
    else (if jobs[0].state.IsTerminal() == terminal then [jobs[0]] else []) + Select(jobs[1..], terminal)
  }

  function Reverse<T>(s: seq<T>): (r: seq<T>)
    ensures |r| == |s| && forall i :: 0 <= i < |s| ==> r[i] == s[|s| - 1 - i]
    ensures multiset(r) == multiset(s)
  {
    if s == [] then [] else
      assert s == [s[0]] + s[1..];
      Reverse(s[1..]) + [s[0]]
  }

  predicate NotNewer(a: JobRecord, b: JobRecord) {
    a.createdAtMs <= b.createdAtMs
  }

  /** Terminal records, newest first. */
  function NewestTerminal(jobs: seq<JobRecord>): (r: seq<JobRecord>)
    ensures multiset(r) == multiset(Select(jobs, true))
  {
    Reverse(SortBy(Select(jobs, true), NotNewer))
  }

  function KeepCount(jobs: seq<JobRecord>): nat {
    var working := |jobs| - |Select(jobs, true)|;
    if working >= RESOLUTION_MAX_JOBS then 0 else RESOLUTION_MAX_JOBS - working
  }

  function Truncate<T>(s: seq<T>, n: nat): seq<T> {
    if n < |s| then s[..n] else s
  }

  function Trimmed(jobs: seq<JobRecord>): seq<JobRecord> {
    if |jobs| <= RESOLUTION_MAX_JOBS then jobs
    else Select(jobs, false) + Truncate(NewestTerminal(jobs), KeepCount(jobs))
  }

  lemma {:induction false} SelectSplits(jobs: seq<JobRecord>)
    ensures multiset(Select(jobs, true)) + multiset(Select(jobs, false)) == multiset(jobs)
    ensures |Select(jobs, true)| + |Select(jobs, false)| == |jobs|
  {
    if jobs != [] {
      assert jobs == [jobs[0]] + jobs[1..];
      SelectSplits(jobs[1..]);
    }
  }

  lemma {:induction false} SelectOfUniform(jobs: seq<JobRecord>, terminal: bool)
    requires forall x :: x in jobs ==> x.state.IsTerminal() == terminal
    ensures Select(jobs, terminal) == jobs && Select(jobs, !terminal) == []
  {
    if jobs != [] {
      SelectOfUniform(jobs[1..], terminal);
    }
  }

  lemma {:induction false} SelectConcat(a: seq<JobRecord>, b: seq<JobRecord>, terminal: bool)
    ensures Select(a + b, terminal) == Select(a, terminal) + Select(b, terminal)
  {
    if a == [] {
      assert a + b == b;
    } else {
      assert (a + b)[1..] == a[1..] + b;
      SelectConcat(a[1..], b, terminal);
    }
  }

  lemma TruncatePrefix<T>(s: seq<T>, n: nat)
    ensures multiset(Truncate(s, n)) <= multiset(s)
    ensures forall x :: x in multiset(s) - multiset(Truncate(s, n)) ==>
              exists i :: |Truncate(s, n)| <= i < |s| && s[i] == x
  {
    if n < |s| {
      assert s == s[..n] + s[n..];
      assert multiset(s) - multiset(s[..n]) == multiset(s[n..]);
      forall x | x in multiset(s[n..])
        ensures exists i :: n <= i < |s| && s[i] == x
      {
        var k :| 0 <= k < |s[n..]| && s[n..][k] == x;
        assert s[n + k] == x;
      }
    }
  }

  lemma NewestFirst(jobs: seq<JobRecord>, i: nat, k: nat)
    requires i <= k < |NewestTerminal(jobs)|
    ensures NewestTerminal(jobs)[k].createdAtMs <= NewestTerminal(jobs)[i].createdAtMs
  {
    SortBySorted(Select(jobs, true), NotNewer);
    ReverseDescends(SortBy(Select(jobs, true), NotNewer), i, k);
  }

  lemma ReverseDescends(s: seq<JobRecord>, i: nat, k: nat)
    requires Sorted(s, NotNewer) && i <= k < |s|
    ensures Reverse(s)[k].createdAtMs <= Reverse(s)[i].createdAtMs
  {
    if i < k {
      assert NotNewer(s[|s| - 1 - k], s[|s| - 1 - i]);
    }
  }

  function KeptTerminal(jobs: seq<JobRecord>): seq<JobRecord> {
    Truncate(NewestTerminal(jobs), KeepCount(jobs))
  }

  lemma KeptTerminalIsTerminal(jobs: seq<JobRecord>)
    ensures forall x :: x in NewestTerminal(jobs) ==> x.state.IsTerminal()
    ensures multiset(KeptTerminal(jobs)) <= multiset(Select(jobs, true))
    ensures |NewestTerminal(jobs)| == |Select(jobs, true)|
  {
    var newest := NewestTerminal(jobs);
    TruncatePrefix(newest, KeepCount(jobs));
    assert |newest| == |multiset(newest)| == |multiset(Select(jobs, true))|;
    forall x | x in newest
      ensures x.state.IsTerminal()
    {
      assert x in multiset(newest);
      assert x in multiset(Select(jobs, true));
    }
  }

  /** `trim` keeps every working record, in order, and invents nothing; it
      evicts only when the store is over its bound and only down to it. */
  lemma TrimKeepsWork(jobs: seq<JobRecord>)
    ensures Select(Trimmed(jobs), false) == Select(jobs, false)
    ensures multiset(Trimmed(jobs)) <= multiset(jobs)
    ensures |jobs| <= RESOLUTION_MAX_JOBS ==> Trimmed(jobs) == jobs
    ensures |jobs| > RESOLUTION_MAX_JOBS ==>
              |Trimmed(jobs)| == if |Select(jobs, false)| > RESOLUTION_MAX_JOBS
                                 then |Select(jobs, false)| else RESOLUTION_MAX_JOBS
  {
    if |jobs| > RESOLUTION_MAX_JOBS {
      SelectSplits(jobs);
      KeptTerminalIsTerminal(jobs);
      var working, kept := Select(jobs, false), KeptTerminal(jobs);
      assert multiset(working + kept) == multiset(working) + multiset(kept);
      SelectOfUniform(working, false);
      SelectOfUniform(kept, true);
      SelectConcat(working, kept, false);
    }
  }

  /** Only terminal records are evicted, never one newer than a kept one. */
  lemma TrimEvictsOldest(jobs: seq<JobRecord>, gone: JobRecord, kept: JobRecord)
    requires gone in multiset(jobs) - multiset(Trimmed(jobs))
    ensures gone.state.IsTerminal()
    ensures kept in Trimmed(jobs) && kept.state.IsTerminal() ==> gone.createdAtMs <= kept.createdAtMs
  {
    KeptTerminalIsTerminal(jobs);
    EvictedFromNewest(jobs, gone);
    var b :| |KeptTerminal(jobs)| <= b < |NewestTerminal(jobs)| && NewestTerminal(jobs)[b] == gone;
    if kept in Trimmed(jobs) && kept.state.IsTerminal() {
      KeptIsNewer(jobs, kept, b);
    }
  }

  lemma KeptIsNewer(jobs: seq<JobRecord>, kept: JobRecord, b: nat)
    requires |jobs| > RESOLUTION_MAX_JOBS && kept in Trimmed(jobs) && kept.state.IsTerminal()
    requires |KeptTerminal(jobs)| <= b < |NewestTerminal(jobs)|
    ensures NewestTerminal(jobs)[b].createdAtMs <= kept.createdAtMs
  {
    assert Trimmed(jobs) == Select(jobs, false) + KeptTerminal(jobs);
    assert kept !in Select(jobs, false);
    var a :| 0 <= a < |KeptTerminal(jobs)| && KeptTerminal(jobs)[a] == kept;
    NewestFirst(jobs, a, b);
  }

  lemma EvictedFromNewest(jobs: seq<JobRecord>, gone: JobRecord)
    requires gone in multiset(jobs) - multiset(Trimmed(jobs))
    ensures |jobs| > RESOLUTION_MAX_JOBS
    ensures exists b :: |KeptTerminal(jobs)| <= b < |NewestTerminal(jobs)| && NewestTerminal(jobs)[b] == gone
  {
    var newest, kept := NewestTerminal(jobs), KeptTerminal(jobs);
    SelectSplits(jobs);
    assert Trimmed(jobs) == Select(jobs, false) + kept;
    assert multiset(Trimmed(jobs)) == multiset(Select(jobs, false)) + multiset(kept);
    assert gone in multiset(newest) - multiset(kept);
    TruncatePrefix(newest, KeepCount(jobs));
  }

  // ----- store operations

  datatype Operation =
    | Prepare(jobId: nat, path: string, fingerprint: Id, now: int)
    | SetState(jobId: nat, to: AssignmentState)

  /** A stored record that refuses a preparation: the same job id, or a
      working job on the same conflict path or fingerprint. */
  predicate Blocks(r: JobRecord, op: Operation)
    requires op.Prepare?
  {
    r.jobId == op.jobId || (!r.state.IsTerminal() && (r.path == op.path || r.fingerprint == op.fingerprint))
  }

  /** What one update commits before trimming; None when it is refused. */
  function Committed(jobs: seq<JobRecord>, op: Operation): Option<seq<JobRecord>> {
    match op
    case Prepare(jobId, path, fingerprint, now) =>
      if exists r :: r in jobs && Blocks(r, op) then None
      else if |Select(jobs, false)| >= RESOLUTION_MAX_JOBS then None
      else Some(jobs + [JobRecord(jobId, path, fingerprint, now, Active)])
    case SetState(jobId, to) =>
      var i := Find(jobs, jobId);
      if i == |jobs| || !TransitionAllowed(jobs[i].state, to) then None
      else Some(jobs[i := jobs[i].(state := to)])
  }

  /** First record with that job id, or the length. */
  function Find(jobs: seq<JobRecord>, jobId: nat): (i: nat)
    ensures i <= |jobs| && (i < |jobs| ==> jobs[i].jobId == jobId)
    ensures forall k :: 0 <= k < i ==> jobs[k].jobId != jobId
  {
    if jobs == [] || jobs[0].jobId == jobId then 0 else 1 + Find(jobs[1..], jobId)
  }

  function Perform(jobs: seq<JobRecord>, op: Operation): seq<JobRecord> {
    match Committed(jobs, op)
    case None => jobs
    case Some(updated) => Trimmed(updated)
  }

  function PerformAll(jobs: seq<JobRecord>, ops: seq<Operation>): seq<JobRecord> {
    if ops == [] then jobs else Perform(PerformAll(jobs, ops[..|ops| - 1]), ops[|ops| - 1])
  }

  /** Two records that must not both be stored: one job twice, or two working
      jobs on one conflict. */
  predicate Clash(a: JobRecord, b: JobRecord) {
    a.jobId == b.jobId || (!a.state.IsTerminal() && !b.state.IsTerminal() && a.path == b.path)
  }

  ghost predicate ClashFree(jobs: seq<JobRecord>) {
    forall i, k :: 0 <= i < k < |jobs| ==> !Clash(jobs[i], jobs[k])
  }

  ghost predicate StoreOk(jobs: seq<JobRecord>) {
    ClashFree(jobs) && |jobs| <= RESOLUTION_MAX_JOBS
  }

  lemma ClashFreeOnce(jobs: seq<JobRecord>, x: JobRecord)
    requires ClashFree(jobs)
    ensures multiset(jobs)[x] <= 1
  {
    forall i, k | 0 <= i < k < |jobs|
      ensures jobs[i] != jobs[k]
    {
      assert !Clash(jobs[i], jobs[k]);
    }
    DistinctOnce(jobs);
  }

  lemma SubsetStaysClashFree(jobs: seq<JobRecord>, sub: seq<JobRecord>)
    requires ClashFree(jobs) && multiset(sub) <= multiset(jobs)
    ensures ClashFree(sub)
  {
    forall i, k | 0 <= i < k < |sub|
      ensures !Clash(sub[i], sub[k])
    {
      if sub[i] == sub[k] {
        assert sub == sub[..i] + [sub[i]] + sub[i + 1..k] + [sub[k]] + sub[k + 1..];
        assert multiset(sub)[sub[i]] >= 2;
        ClashFreeOnce(jobs, sub[i]);
      }
      assert sub[i] in multiset(jobs) && sub[k] in multiset(jobs);
      var a :| 0 <= a < |jobs| && jobs[a] == sub[i];
      var b :| 0 <= b < |jobs| && jobs[b] == sub[k];
    }
  }

  lemma {:induction false} SelectCountBound(jobs: seq<JobRecord>, i: nat, r: JobRecord)
    requires i < |jobs| && (r.state.IsTerminal() || !jobs[i].state.IsTerminal())
    ensures |Select(jobs[i := r], false)| <= |Select(jobs, false)|
  {
    if i == 0 {
      assert jobs[0 := r][1..] == jobs[1..];
    } else {
      assert jobs[i := r][1..] == jobs[1..][i - 1 := r];
      SelectCountBound(jobs[1..], i - 1, r);
    }
  }

  lemma CommittedClashFree(jobs: seq<JobRecord>, op: Operation)
    requires ClashFree(jobs) && Committed(jobs, op).Some?
    ensures ClashFree(Committed(jobs, op).value)
  {
    var updated := Committed(jobs, op).value;
    if op.Prepare? {
      forall k | 0 <= k < |jobs|
        ensures !Clash(updated[k], updated[|jobs|])
      {
        assert jobs[k] in jobs;
      }
    } else {
      var i := Find(jobs, op.jobId);
      forall a, b | 0 <= a < b < |jobs|
        ensures !Clash(updated[a], updated[b])
      {
        assert !Clash(jobs[a], jobs[b]);
      }
    }
  }

  lemma CommittedWorkBound(jobs: seq<JobRecord>, op: Operation)
    requires |jobs| <= RESOLUTION_MAX_JOBS && Committed(jobs, op).Some?
    ensures |Select(Committed(jobs, op).value, false)| <= RESOLUTION_MAX_JOBS
  {
    SelectSplits(jobs);
    if op.SetState? {
      var i := Find(jobs, op.jobId);
      SelectCountBound(jobs, i, jobs[i].(state := op.to));
    } else {
      var added := JobRecord(op.jobId, op.path, op.fingerprint, op.now, Active);
      SelectConcat(jobs, [added], false);
    }
  }

  lemma PerformKeepsStoreOk(jobs: seq<JobRecord>, op: Operation)
    requires StoreOk(jobs)
    ensures StoreOk(Perform(jobs, op))
  {
    var committed := Committed(jobs, op);
    if committed.Some? {
      CommittedClashFree(jobs, op);
      CommittedWorkBound(jobs, op);
      TrimKeepsWork(committed.value);
      SubsetStaysClashFree(committed.value, Trimmed(committed.value));
    }
  }

  /** Over every run of locally prepared jobs, no two working jobs share a
      conflict path, no job id is stored twice, and the store stays bounded. */
  lemma {:induction false} RunsKeepStoreOk(ops: seq<Operation>)
    ensures StoreOk(PerformAll([], ops))
  {
    if ops != [] {
      RunsKeepStoreOk(ops[..|ops| - 1]);
      PerformKeepsStoreOk(PerformAll([], ops[..|ops| - 1]), ops[|ops| - 1]);
    }
  }

  /** `r'` is the same job as `r`, moved along the transition map. */
  predicate MovedFrom(r: JobRecord, r': JobRecord) {
    r'.(state := r.state) == r && TransitionAllowed(r.state, r'.state)
  }

  lemma CommittedMoves(jobs: seq<JobRecord>, op: Operation, r': JobRecord)
    requires Committed(jobs, op).Some? && r' in Committed(jobs, op).value
    ensures || r' in jobs
            || (op.Prepare? && r'.state.Active? && forall r :: r in jobs ==> r.jobId != r'.jobId)
            || exists r :: r in jobs && MovedFrom(r, r')
  {
    var updated := Committed(jobs, op).value;
    var k :| 0 <= k < |updated| && updated[k] == r';
    if op.SetState? && r' !in jobs {
      var i := Find(jobs, op.jobId);
      assert k == i;
      assert MovedFrom(jobs[i], r');
    }
  }

  /** A record stored after an update is the job just prepared, or was stored
      before it, unchanged or moved along the transition map; so a kept
      terminal record is final, and Completed comes only from
      PublicationUncertain. */
  lemma RecordsOnlyMoveForward(jobs: seq<JobRecord>, op: Operation, r': JobRecord)
    requires StoreOk(jobs) && r' in Perform(jobs, op)
    ensures r' in jobs || (op.Prepare? && r'.state.Active?) || exists r :: r in jobs && MovedFrom(r, r')
    ensures forall r :: r in jobs && r.jobId == r'.jobId && r.state.IsTerminal() ==> r == r'
    ensures r'.state.Completed? && r' !in jobs ==>
              exists r :: r in jobs && r.jobId == r'.jobId && r.state.PublicationUncertain?
  {
    var committed := Committed(jobs, op);
    if committed.Some? {
      TrimKeepsWork(committed.value);
      assert r' in multiset(committed.value);
      CommittedMoves(jobs, op, r');
    }
    forall r | r in jobs && r.jobId == r'.jobId && r.state.IsTerminal()
      ensures r == r'
    {
      if r' in jobs {
        SameIdSameRecord(jobs, r, r');
      } else if exists q :: q in jobs && MovedFrom(q, r') {
        var q :| q in jobs && MovedFrom(q, r');
        SameIdSameRecord(jobs, r, q);
      }
    }
  }

  lemma SameIdSameRecord(jobs: seq<JobRecord>, a: JobRecord, b: JobRecord)
    requires ClashFree(jobs) && a in jobs && b in jobs && a.jobId == b.jobId
    ensures a == b
  {
    var i :| 0 <= i < |jobs| && jobs[i] == a;
    var k :| 0 <= k < |jobs| && jobs[k] == b;
    assert Clash(jobs[i], jobs[k]);
  }

  // ----- what an update needs, record by record

  /** A job still holds its conflict: it is being worked on, or its
      publication is undecided. */
  predicate Working(r: JobRecord) {
    r.state == Active || r.state == PublicationUncertain
  }

  ghost function WorkingAt(jobs: seq<JobRecord>): set<int> {
    set i | 0 <= i < |jobs| && Working(jobs[i])
  }

  lemma {:induction false} SelectCountsWorking(jobs: seq<JobRecord>)
    ensures |Select(jobs, false)| == |WorkingAt(jobs)|
    decreases |jobs|
  {
    if jobs != [] {
      var n := |jobs| - 1;
      assert jobs == jobs[..n] + [jobs[n]];
      SelectCountsWorking(jobs[..n]);
      SelectConcat(jobs[..n], [jobs[n]], false);
      OneMoreWorking(jobs[..n], jobs[n]);
    }
  }

  lemma OneMoreWorking(jobs: seq<JobRecord>, r: JobRecord)
    ensures |WorkingAt(jobs + [r])| == |WorkingAt(jobs)| + if Working(r) then 1 else 0
  {
    var longer, n := jobs + [r], |jobs|;
    forall i
      ensures i in WorkingAt(longer) <==> i in WorkingAt(jobs) || (i == n && Working(r))
    {
      assert i in WorkingAt(jobs) ==> longer[i] == jobs[i];
    }
    SameKeys(WorkingAt(longer), WorkingAt(jobs) + if Working(r) then {n} else {});
  }

  /** The id is new, no job that still holds its conflict has the path or the
      fingerprint, and fewer than sixty-four do. */
  ghost predicate MayPrepare(jobs: seq<JobRecord>, jobId: nat, path: string, fingerprint: Id) {
    && (forall r :: r in jobs ==> r.jobId != jobId)
    && (forall r :: r in jobs && Working(r) ==> r.path != path && r.fingerprint != fingerprint)
    && |WorkingAt(jobs)| < RESOLUTION_MAX_JOBS
  }

  /** A job is accepted exactly when its id is new, no job that still holds
      its conflict has its path or its fingerprint, and fewer than sixty-four
      do; jobs that are over never stand in its way. It is then stored as
      given, active, and every other job that holds its conflict stays. */
  lemma PreparedIff(jobs: seq<JobRecord>, jobId: nat, path: string, fingerprint: Id, now: int)
    ensures var op := Prepare(jobId, path, fingerprint, now);
            && (Committed(jobs, op).Some? <==> MayPrepare(jobs, jobId, path, fingerprint))
            && (Committed(jobs, op).Some? ==>
                  && JobRecord(jobId, path, fingerprint, now, Active) in Perform(jobs, op)
                  && forall r :: r in jobs && Working(r) ==> r in Perform(jobs, op))
  {
    var op := Prepare(jobId, path, fingerprint, now);
    CommittedWhen(jobs, op);
    if Committed(jobs, op).Some? {
      PreparedIsStored(jobs, op);
    }
  }

  lemma CommittedWhen(jobs: seq<JobRecord>, op: Operation)
    requires op.Prepare?
    ensures Committed(jobs, op).Some? <==> MayPrepare(jobs, op.jobId, op.path, op.fingerprint)
  {
    SelectCountsWorking(jobs);
    if Committed(jobs, op).Some? {
      forall r | r in jobs
        ensures r.jobId != op.jobId && (Working(r) ==> r.path != op.path && r.fingerprint != op.fingerprint)
      {
        assert !Blocks(r, op);
      }
    } else if r :| r in jobs && Blocks(r, op) {
      assert r.jobId == op.jobId || Working(r);
    }
  }

  lemma PreparedIsStored(jobs: seq<JobRecord>, op: Operation)
    requires op.Prepare? && Committed(jobs, op).Some?
    ensures JobRecord(op.jobId, op.path, op.fingerprint, op.now, Active) in Perform(jobs, op)
    ensures forall r :: r in jobs && Working(r) ==> r in Perform(jobs, op)
  {
    var updated := Committed(jobs, op).value;
    WorkingIsKept(updated, updated[|jobs|]);
    forall r | r in jobs && Working(r)
      ensures r in Perform(jobs, op)
    {
      WorkingIsKept(updated, r);
    }
  }

  lemma WorkingIsKept(jobs: seq<JobRecord>, r: JobRecord)
    requires r in jobs && Working(r)
    ensures r in Trimmed(jobs)
  {
    TrimKeepsWork(jobs);
    assert r in Select(jobs, false);
  }

  /** The moves a job may make. */
  predicate MayMove(from: AssignmentState, to: AssignmentState) {
    (from, to) in {
      (Active, Active), (Active, PublicationUncertain), (Active, Revoked), (Active, Superseded), (Active, Deferred),
      (Active, KeepUnresolved), (PublicationUncertain, Completed), (PublicationUncertain, Stale),
      (PublicationUncertain, Active)
    }
  }

  ghost predicate MaySet(jobs: seq<JobRecord>, jobId: nat, to: AssignmentState) {
    exists r :: r in jobs && r.jobId == jobId && MayMove(r.state, to)
  }

  lemma CommittedIff(jobs: seq<JobRecord>, op: Operation)
    ensures op.Prepare? ==> (Committed(jobs, op).Some? <==> MayPrepare(jobs, op.jobId, op.path, op.fingerprint))
    ensures op.SetState? && ClashFree(jobs) ==> (Committed(jobs, op).Some? <==> MaySet(jobs, op.jobId, op.to))
  {
    match op
    case Prepare(jobId, path, fingerprint, now) => PreparedIff(jobs, jobId, path, fingerprint, now);
    case SetState(jobId, to) =>
      if ClashFree(jobs) {
        MovedIff(jobs, jobId, to);
      }
  }

  /** A job is moved exactly when it is stored and may make that move; nothing
      but its state changes, and no other record. */
  lemma MovedIff(jobs: seq<JobRecord>, jobId: nat, to: AssignmentState)
    requires ClashFree(jobs)
    ensures var op := SetState(jobId, to);
            && (Committed(jobs, op).Some? <==> MaySet(jobs, jobId, to))
            && (Committed(jobs, op).Some? ==>
                  forall r' :: r' in Committed(jobs, op).value <==>
                    || (r' in jobs && r'.jobId != jobId)
                    || exists r :: r in jobs && r.jobId == jobId && r' == JobRecord(jobId, r.path, r.fingerprint, r.createdAtMs, to))
  {
    var op := SetState(jobId, to);
    var i := Find(jobs, jobId);
    forall r | r in jobs && r.jobId == jobId
      ensures i < |jobs| && jobs[i] == r
    {
      SameIdSameRecord(jobs, jobs[i], r);
    }
    if Committed(jobs, op).Some? {
      OthersStay(jobs, i, jobs[i].(state := to));
    }
  }

  lemma OthersStay(jobs: seq<JobRecord>, i: nat, moved: JobRecord)
    requires ClashFree(jobs) && i < |jobs| && moved.jobId == jobs[i].jobId
    ensures forall r' :: r' in jobs[i := moved] <==> r' == moved || (r' in jobs && r'.jobId != moved.jobId)
  {
    var updated := jobs[i := moved];
    assert updated[i] == moved;
    forall r' | r' in jobs && r'.jobId != moved.jobId
      ensures r' in updated
    {
      var k :| 0 <= k < |jobs| && jobs[k] == r';
      assert updated[k] == r';
    }
    forall r' | r' in updated && r' != moved
      ensures r' in jobs && r'.jobId != moved.jobId
    {
      var k :| 0 <= k < |updated| && updated[k] == r';
      assert if k < i then !Clash(jobs[k], jobs[i]) else !Clash(jobs[i], jobs[k]);
    }
  }

  /** The durable state file, updated in place. */
  class ResolutionStateFile {
    var jobs: seq<JobRecord>

    constructor ()
      ensures jobs == []
    {
      jobs := [];
    }

    method Trim()
      modifies this
      ensures jobs == Trimmed(old(jobs))
    {
      if |jobs| <= RESOLUTION_MAX_JOBS {
        return;
      }
      var terminal := SortBy(Select(jobs, true), NotNewer);
      terminal := Reverse(terminal);
      KeptTerminalIsTerminal(jobs);
      assert terminal == NewestTerminal(jobs);
      var nonTerminal := |jobs| - |terminal|;
      var keep := if nonTerminal >= RESOLUTION_MAX_JOBS then 0 else RESOLUTION_MAX_JOBS - nonTerminal;
      if keep < |terminal| {
        terminal := terminal[..keep];
      }
      jobs := Select(jobs, false) + terminal;
    }

    /** Runs one update under the store lock: a refused update changes
        nothing, a committed one is trimmed before it is written. */
    method Update(op: Operation) returns (committed: bool)
      modifies this
      ensures committed == Committed(old(jobs), op).Some?
      ensures op.Prepare? ==> (committed <==> MayPrepare(old(jobs), op.jobId, op.path, op.fingerprint))
      ensures op.SetState? && ClashFree(old(jobs)) ==> (committed <==> MaySet(old(jobs), op.jobId, op.to))
      ensures jobs == Perform(old(jobs), op)
      ensures StoreOk(old(jobs)) ==> StoreOk(jobs)
    {
      if StoreOk(jobs) {
        PerformKeepsStoreOk(jobs, op);
      }
      CommittedIff(jobs, op);
      match op {
        case Prepare(jobId, path, fingerprint, now) =>
          committed := !(exists r :: r in jobs && Blocks(r, op)) && |Select(jobs, false)| < RESOLUTION_MAX_JOBS;
          if !committed {
            return;
          }
          jobs := jobs + [JobRecord(jobId, path, fingerprint, now, Active)];
        case SetState(jobId, to) =>
          var i := Find(jobs, jobId);
          committed := i < |jobs| && TransitionAllowed(jobs[i].state, to);
          if !committed {
            return;
          }
          jobs := jobs[i := jobs[i].(state := to)];
      }
      Trim();
    }
  }
}
