/**
 * Guarded resolution publication as a transition system: a durable journal,
 * an uncertain mark, one compare-and-swap, ordered bookkeeping, and recovery,
 * with a crash possible between any two steps and foreign writers moving the
 * head at any time.
 */
module Publication {
  import opened Base
  import opened ResolutionStates

  type JobId = nat

  datatype Outcome = CandidateReady | NoChangeRequired | RequiresHuman | Blocked | Failed | StaleOutcome

  datatype Submission = Submission(outcome: Outcome, candidateHash: Option<Id>)

  /** The immutable part of a job; `current` is the snapshot it was prepared against. */
  datatype Job = Job(id: JobId, path: string, owner: string, current: Id)

  datatype Record = Record(job: Job, state: AssignmentState, result: Option<Submission>)

  /** The head the publication was planned against and the head it plans. */
  datatype Journal = Journal(expected: Id, planned: Id)

  datatype HistoryRecord = HistoryRecord(path: string, resolver: string, sourceHash: Option<Id>)

  /** Program counter of the one holder of the sync lock. */
  datatype Proc =
    | Idle
    | Planned(job: JobId, planned: Id)
    | Journaled(job: JobId, planned: Id)
    | Marked(job: JobId, planned: Id)
    | Lost(job: JobId)
    | JournalDropped(job: JobId)
    | Completing(job: JobId)
    | HistoryWritten(job: JobId)
    | RegistryResolved(job: JobId)
    | CompletedMarked(job: JobId)
    | FailingClosed(job: JobId)
    | StaleMarked(job: JobId)

  datatype Win = Win(job: Job, planned: Id)

  /** `head` to `registry` are durable, `proc` is lost in a crash; the last
      three only record what happened: every id that was ever the head, the
      job each planned snapshot was written for, and the swaps that won. */
  datatype World = World(
    head: Option<Id>,
    snapshots: set<Id>,
    store: map<JobId, Record>,
    journals: map<JobId, Journal>,
    history: seq<HistoryRecord>,
    registry: set<string>,
    proc: Proc,
    heads: set<Id>,
    planOwner: map<Id, Job>,
    wins: seq<Win>)

  datatype Event =
    | Prepare(job: Job)
    | Import(job: Job)
    | Submit(j: JobId, result: Submission)
    | Cancel(j: JobId, to: AssignmentState)
    | RegisterConflict(path: string)
    | ForeignSwap(new_: Option<Id>)
    | Plan(j: JobId, planned: Id)
    | WriteJournal
    | MarkUncertain
    | Cas(reported: bool)
    | DropJournal(done: bool)
    | RevertActive(done: bool)
    | RecordHistory
    | ResolveRegistry
    | MarkCompleted
    | RemoveJobDir(done: bool)
    | Crash
    | Recover(j: JobId, readable: bool)
    | MarkStale
    | DropStaleJournal(done: bool)
    | Sweep(j: JobId)
    | Evict(j: JobId)

  predicate HasState(s: World, j: JobId, state: AssignmentState) {
    j in s.store && s.store[j].state == state
  }

  predicate Publishable(r: Option<Submission>) {
    r.Some? && (r.value.outcome.CandidateReady? || r.value.outcome.NoChangeRequired?)
  }

  predicate Enabled(s: World, e: Event) {
    match e
    case Prepare(job) => s.proc.Idle? && job.id !in s.store && s.head == Some(job.current) && job.path in s.registry
    case Import(job) => s.proc.Idle? && job.id !in s.store
    case Submit(j, _) =>
      s.proc.Idle? && HasState(s, j, Active) &&
      (s.store[j].result.None? || s.store[j].result.value.outcome.RequiresHuman?)
    case Cancel(j, to) =>
      s.proc.Idle? && HasState(s, j, Active) && TransitionAllowed(Active, to) && to.IsTerminal()
    case RegisterConflict(_) => true
    case ForeignSwap(new_) => new_.Some? ==> new_.value !in s.snapshots
    case Plan(j, planned) =>
      s.proc.Idle? && HasState(s, j, Active) && Publishable(s.store[j].result) &&
      s.store[j].job.path in s.registry && s.head == Some(s.store[j].job.current) && planned !in s.snapshots
    case WriteJournal => s.proc.Planned? && s.proc.job in s.store
    case MarkUncertain => s.proc.Journaled? && HasState(s, s.proc.job, Active)
    case Cas(_) => s.proc.Marked? && s.proc.job in s.store
    case DropJournal(_) => s.proc.Lost?
    case RevertActive(_) => s.proc.JournalDropped? && HasState(s, s.proc.job, PublicationUncertain)
    case RecordHistory => s.proc.Completing? && s.proc.job in s.store && s.store[s.proc.job].result.Some?
    case ResolveRegistry => s.proc.HistoryWritten? && s.proc.job in s.store
    case MarkCompleted => s.proc.RegistryResolved? && HasState(s, s.proc.job, PublicationUncertain)
    case RemoveJobDir(_) => s.proc.CompletedMarked?
    case Crash => true
    case Recover(j, _) => s.proc.Idle? && HasState(s, j, PublicationUncertain)
    case MarkStale => s.proc.FailingClosed? && HasState(s, s.proc.job, PublicationUncertain)
    case DropStaleJournal(_) => s.proc.StaleMarked?
    case Sweep(j) => s.proc.Idle? && j in s.store && j in s.journals && !s.store[j].state.PublicationUncertain?
    case Evict(j) => s.proc.Idle? && j in s.store && s.store[j].state.IsTerminal()
  }

  function WithState(s: World, j: JobId, state: AssignmentState, proc: Proc): World
    requires j in s.store
  {
    s.(store := s.store[j := s.store[j].(state := state)], proc := proc)
  }

  function WithoutJournal(s: World, j: JobId, done: bool, proc: Proc): World {
    s.(journals := if done then s.journals - {j} else s.journals, proc := proc)
  }

  /** The record a publication leaves in the conflict history. */
  function HistoryEntry(r: Record): HistoryRecord
    requires r.result.Some?
  {
    HistoryRecord(r.job.path, r.job.owner,
                  if r.result.value.outcome.CandidateReady? then r.result.value.candidateHash else None)
  }

  /** Appended only when no identical record exists. */
  function RecordOnce(history: seq<HistoryRecord>, h: HistoryRecord): seq<HistoryRecord> {
    if h in history then history else history + [h]
  }

  /** What a history record must say about the publication of `r`: its path,
      its owner, and the hash of its candidate if it had one to publish. */
  predicate Describes(h: HistoryRecord, r: Record) {
    && r.result.Some? && h.path == r.job.path && h.resolver == r.job.owner
    && (if r.result.value.outcome == CandidateReady
        then h.sourceHash == r.result.value.candidateHash
        else h.sourceHash.None?)
  }

  ghost predicate Recorded(history: seq<HistoryRecord>, r: Record) {
    exists h :: h in history && Describes(h, r)
  }

  /** Recording a publication describes it, keeps every earlier record and
      adds nothing else. */
  lemma RecordOnceRecords(history: seq<HistoryRecord>, r: Record)
    requires r.result.Some?
    ensures Recorded(RecordOnce(history, HistoryEntry(r)), r) && history <= RecordOnce(history, HistoryEntry(r))
    ensures forall h :: h in RecordOnce(history, HistoryEntry(r)) ==> h in history || Describes(h, r)
  {
    assert Describes(HistoryEntry(r), r);
    assert HistoryEntry(r) in RecordOnce(history, HistoryEntry(r));
  }

  /** The journal proves the swap won: its planned head is the head. */
  predicate JournalProvesWin(s: World, j: JobId) {
    j in s.journals && s.head == Some(s.journals[j].planned)
  }

  function Next(s: World, e: Event): World
    requires Enabled(s, e)
  {
    match e
    case Prepare(job) => s.(store := s.store[job.id := Record(job, Active, None)])
    case Import(job) => s.(store := s.store[job.id := Record(job, Active, None)])
    case Submit(j, result) => s.(store := s.store[j := s.store[j].(result := Some(result))])
    case Cancel(j, to) => WithState(s, j, to, Idle)
    case RegisterConflict(path) => s.(registry := s.registry + {path})
    case ForeignSwap(new_) =>
      var added := if new_.Some? then {new_.value} else {};
      s.(head := new_, snapshots := s.snapshots + added, heads := s.heads + added)
    case Plan(j, planned) =>
      s.(snapshots := s.snapshots + {planned},
         planOwner := s.planOwner[planned := s.store[j].job],
         proc := Planned(j, planned))
    case WriteJournal =>
      var j := s.proc.job;
      s.(journals := s.journals[j := Journal(s.store[j].job.current, s.proc.planned)],
         proc := Journaled(j, s.proc.planned))
    case MarkUncertain => WithState(s, s.proc.job, PublicationUncertain, Marked(s.proc.job, s.proc.planned))
    case Cas(reported) =>
      var job := s.store[s.proc.job].job;
      if s.head == Some(job.current) then
        s.(head := Some(s.proc.planned), heads := s.heads + {s.proc.planned},
           wins := s.wins + [Win(job, s.proc.planned)],
           proc := if reported then Completing(s.proc.job) else Lost(s.proc.job))
      else
        s.(proc := Lost(s.proc.job))
    case DropJournal(done) => WithoutJournal(s, s.proc.job, done, JournalDropped(s.proc.job))
    case RevertActive(done) =>
      if done then WithState(s, s.proc.job, Active, Idle) else s.(proc := Idle)
    case RecordHistory =>
      s.(history := RecordOnce(s.history, HistoryEntry(s.store[s.proc.job])), proc := HistoryWritten(s.proc.job))
    case ResolveRegistry =>
      s.(registry := s.registry - {s.store[s.proc.job].job.path}, proc := RegistryResolved(s.proc.job))
    case MarkCompleted => WithState(s, s.proc.job, Completed, CompletedMarked(s.proc.job))
    case RemoveJobDir(done) => WithoutJournal(s, s.proc.job, done, Idle)
    case Crash => s.(proc := Idle)
    case Recover(j, readable) =>
      s.(proc := if readable && JournalProvesWin(s, j) then Completing(j) else FailingClosed(j))
    case MarkStale => WithState(s, s.proc.job, Stale, StaleMarked(s.proc.job))
    case DropStaleJournal(done) => WithoutJournal(s, s.proc.job, done, Idle)
    case Sweep(j) => s.(journals := s.journals - {j})
    case Evict(j) => s.(store := s.store - {j})
  }

  // ----- safety over every run

  ghost predicate Won(s: World, job: Job) {
    exists p :: Win(job, p) in s.wins
  }

  ghost predicate HeadsOk(s: World) {
    && (s.head.Some? ==> s.head.value in s.heads)
    && s.heads <= s.snapshots
    && s.planOwner.Keys <= s.snapshots
  }

  /** A planned snapshot that was ever the head got there by winning its swap. */
  ghost predicate PlansOk(s: World) {
    forall p :: p in s.planOwner && p in s.heads ==> Win(s.planOwner[p], p) in s.wins
  }

  /** A won swap replaced its expected head for good. */
  ghost predicate WinsOk(s: World) {
    && (forall w :: w in s.wins ==>
          w.planned in s.heads && w.job.current in s.heads && s.head != Some(w.job.current))
    && (forall a, b :: 0 <= a < b < |s.wins| ==> s.wins[a].job.current != s.wins[b].job.current)
  }

  ghost predicate RecordsOk(s: World) {
    IdsOk(s) && CompletedOk(s) && UncertainOk(s)
  }

  ghost predicate IdsOk(s: World) {
    forall j :: j in s.store ==> s.store[j].job.id == j
  }

  ghost predicate CompletedOk(s: World) {
    forall j :: j in s.store && s.store[j].state.Completed? ==> Won(s, s.store[j].job)
  }

  ghost predicate UncertainOk(s: World) {
    forall j :: j in s.store && s.store[j].state.PublicationUncertain? ==>
      && s.store[j].result.Some?
      && (j in s.journals ==>
            s.journals[j].planned in s.planOwner && s.planOwner[s.journals[j].planned] == s.store[j].job)
  }

  ghost predicate Planning(s: World, j: JobId, planned: Id, state: AssignmentState) {
    && HasState(s, j, state) && s.store[j].result.Some?
    && planned in s.planOwner && s.planOwner[planned] == s.store[j].job
    && planned !in s.heads
  }

  ghost predicate ProcOk(s: World) {
    match s.proc
    case Idle => true
    case Planned(j, p) => Planning(s, j, p, Active)
    case Journaled(j, p) => Planning(s, j, p, Active) && j in s.journals && s.journals[j].planned == p
    case Marked(j, p) => Planning(s, j, p, PublicationUncertain) && j in s.journals && s.journals[j].planned == p
    case Lost(j) => HasState(s, j, PublicationUncertain)
    case JournalDropped(j) => HasState(s, j, PublicationUncertain)
    case Completing(j) => HasState(s, j, PublicationUncertain) && Won(s, s.store[j].job)
    case HistoryWritten(j) => HasState(s, j, PublicationUncertain) && Won(s, s.store[j].job)
    case RegistryResolved(j) => HasState(s, j, PublicationUncertain) && Won(s, s.store[j].job)
    case CompletedMarked(j) => HasState(s, j, Completed)
    case FailingClosed(j) => HasState(s, j, PublicationUncertain)
    case StaleMarked(j) => HasState(s, j, Stale)
  }

  ghost predicate Inv(s: World) {
    HeadsOk(s) && PlansOk(s) && WinsOk(s) && RecordsOk(s) && ProcOk(s)
  }

  predicate Init(s: World) {
    && s.store == map[] && s.journals == map[] && s.history == [] && s.proc == Idle
    && s.planOwner == map[] && s.wins == []
    && s.heads == (if s.head.Some? then {s.head.value} else {}) && s.heads <= s.snapshots
  }

  predicate SwapWins(s: World, e: Event) {
    e.Cas? && s.proc.Marked? && s.proc.job in s.store && s.head == Some(s.store[s.proc.job].job.current)
  }

  lemma WinsGrow(s: World, e: Event)
    requires Enabled(s, e)
    ensures s.wins <= Next(s, e).wins && s.heads <= Next(s, e).heads
    ensures forall w :: w in s.wins ==> w in Next(s, e).wins
    ensures forall job :: Won(s, job) ==> Won(Next(s, e), job)
    ensures SwapWins(s, e) ==> Won(Next(s, e), s.store[s.proc.job].job)
  {
    var s' := Next(s, e);
    if SwapWins(s, e) {
      assert Win(s.store[s.proc.job].job, s.proc.planned) in s'.wins;
    }
  }

  lemma NextKeepsPlans(s: World, e: Event)
    requires Inv(s) && Enabled(s, e)
    ensures HeadsOk(Next(s, e)) && PlansOk(Next(s, e))
  {
    WinsGrow(s, e);
  }

  lemma NextKeepsWins(s: World, e: Event)
    requires Inv(s) && Enabled(s, e)
    ensures WinsOk(Next(s, e))
  {
    var s' := Next(s, e);
    if SwapWins(s, e) {
      var w := Win(s.store[s.proc.job].job, s.proc.planned);
      assert s'.wins == s.wins + [w];
    } else {
      assert s'.wins == s.wins;
    }
  }

  lemma NextKeepsRecords(s: World, e: Event)
    requires Inv(s) && Enabled(s, e)
    ensures RecordsOk(Next(s, e))
  {
    NextKeepsIds(s, e);
    NextKeepsCompleted(s, e);
    NextKeepsUncertain(s, e);
  }

  lemma NextKeepsIds(s: World, e: Event)
    requires IdsOk(s) && Enabled(s, e)
    ensures IdsOk(Next(s, e))
  {
  }

  lemma NextKeepsCompleted(s: World, e: Event)
    requires Inv(s) && Enabled(s, e)
    ensures CompletedOk(Next(s, e))
  {
    WinsGrow(s, e);
  }

  lemma NextKeepsUncertain(s: World, e: Event)
    requires Inv(s) && Enabled(s, e)
    ensures UncertainOk(Next(s, e))
  {
    if e.Plan? || e.WriteJournal? || e.MarkUncertain? {
      PublishingKeepsUncertain(s, e);
    }
  }

  lemma PublishingKeepsUncertain(s: World, e: Event)
    requires Inv(s) && Enabled(s, e) && (e.Plan? || e.WriteJournal? || e.MarkUncertain?)
    ensures UncertainOk(Next(s, e))
  {
  }

  lemma NextKeepsProc(s: World, e: Event)
    requires Inv(s) && Enabled(s, e)
    ensures ProcOk(Next(s, e))
  {
    WinsGrow(s, e);
    if e.Recover? && e.readable && JournalProvesWin(s, e.j) {
      assert Win(s.store[e.j].job, s.journals[e.j].planned) in s.wins;
    }
  }

  lemma NextKeepsInv(s: World, e: Event)
    requires Inv(s) && Enabled(s, e)
    ensures Inv(Next(s, e))
  {
    NextKeepsPlans(s, e);
    NextKeepsWins(s, e);
    NextKeepsRecords(s, e);
    NextKeepsProc(s, e);
  }

  /** A run is any list of events; one that is not enabled does nothing. */
  function Step(s: World, e: Event): World {
    if Enabled(s, e) then Next(s, e) else s
  }

  function Exec(s: World, es: seq<Event>): World {
    if es == [] then s else Step(Exec(s, es[..|es| - 1]), es[|es| - 1])
  }

  lemma {:induction false} RunKeepsInv(s: World, es: seq<Event>)
    requires Inv(s)
    ensures Inv(Exec(s, es))
  {
    if es != [] {
      var t := Exec(s, es[..|es| - 1]);
      RunKeepsInv(s, es[..|es| - 1]);
      if Enabled(t, es[|es| - 1]) {
        NextKeepsInv(t, es[|es| - 1]);
      }
    }
  }

  ghost predicate WasHead(s: World, es: seq<Event>, p: Id, k: nat) {
    k <= |es| && Exec(s, es[..k]).head == Some(p)
  }

  lemma StepRecordsHead(s: World, e: Event, p: Id)
    requires s.head.Some? ==> s.head.value in s.heads
    ensures p in Step(s, e).heads <==> p in s.heads || Step(s, e).head == Some(p)
    ensures Step(s, e).head.Some? ==> Step(s, e).head.value in Step(s, e).heads
  {
  }

  /** The recorded heads are exactly the ids that were the head at some point. */
  lemma {:induction false} HeadsAreRecorded(s: World, es: seq<Event>, p: Id)
    requires Init(s)
    ensures Exec(s, es).head.Some? ==> Exec(s, es).head.value in Exec(s, es).heads
    ensures p in Exec(s, es).heads <==> exists k: nat :: WasHead(s, es, p, k)
  {
    var n := |es|;
    assert es[..n] == es;
    if n == 0 {
      assert WasHead(s, es, p, 0) <==> p in s.heads;
    } else {
      var before := es[..n - 1];
      HeadsAreRecorded(s, before, p);
      StepRecordsHead(Exec(s, before), es[n - 1], p);
      forall k: nat
        ensures WasHead(s, es, p, k) <==>
                WasHead(s, before, p, k) || (k == n && Exec(s, es).head == Some(p))
      {
        assert k < n ==> es[..k] == before[..k];
      }
      assert Exec(s, es).head == Some(p) ==> WasHead(s, es, p, n);
    }
  }

  lemma InitInv(s: World)
    requires Init(s)
    ensures Inv(s)
  {
  }

  /** Over every run, a job is Completed only if a snapshot planned for it
      was the workspace head at some point. */
  lemma CompletedOnlyIfPublished(s: World, es: seq<Event>, j: JobId)
    requires Init(s) && HasState(Exec(s, es), j, Completed)
    ensures exists p, k: nat :: WasHead(s, es, p, k) &&
              Win(Exec(s, es).store[j].job, p) in Exec(s, es).wins
  {
    InitInv(s);
    RunKeepsInv(s, es);
    var t := Exec(s, es);
    var p :| Win(t.store[j].job, p) in t.wins;
    HeadsAreRecorded(s, es, p);
    var k: nat :| WasHead(s, es, p, k);
  }

  /** Over every run, ambiguous commit errors included, no two swaps win from
      the same prepared-against snapshot; so each job wins at most once. */
  lemma AtMostOnePublication(s: World, es: seq<Event>, a: nat, b: nat)
    requires Init(s) && a < b < |Exec(s, es).wins|
    ensures Exec(s, es).wins[a].job.current != Exec(s, es).wins[b].job.current
    ensures Exec(s, es).wins[a].job != Exec(s, es).wins[b].job
  {
    InitInv(s);
    RunKeepsInv(s, es);
  }

  /** Every step respects the transition map: a terminal record never changes,
      and Completed is entered only from PublicationUncertain. A submitted
      result is final unless it asked for a human. */
  lemma StepsFollowTransitionMap(s: World, e: Event, j: JobId)
    requires Enabled(s, e) && j in s.store && j in Next(s, e).store
    ensures Next(s, e).store[j].job == s.store[j].job
    ensures s.store[j].state.IsTerminal() ==> Next(s, e).store[j] == s.store[j]
    ensures Next(s, e).store[j].state == s.store[j].state ||
            TransitionAllowed(s.store[j].state, Next(s, e).store[j].state)
    ensures Next(s, e).store[j].state.Completed? && !s.store[j].state.Completed? ==>
              s.store[j].state.PublicationUncertain?
    ensures s.store[j].result.Some? && s.store[j].result.value.outcome != RequiresHuman ==>
              Next(s, e).store[j].result == s.store[j].result
    ensures Next(s, e).store[j].result != s.store[j].result ==>
              e.Submit? && s.store[j].state == Active && Next(s, e).store[j].result == Some(e.result)
  {
  }

  /** A job that is active or undecided is never dropped from the store. */
  lemma WorkStays(s: World, e: Event, j: JobId)
    requires Enabled(s, e) && (HasState(s, j, Active) || HasState(s, j, PublicationUncertain))
    ensures j in Next(s, e).store
  {
  }

  /** An undecided job keeps its journal unless its own lost commit lets it go. */
  lemma JournalStays(s: World, e: Event, j: JobId)
    requires ProcOk(s) && Enabled(s, e) && HasState(s, j, PublicationUncertain)
    requires j in s.journals && j !in Next(s, e).journals
    ensures e == DropJournal(true) && s.proc == Lost(j)
  {
  }

  /** An undisturbed job goes from prepared to the mark before its swap. */
  lemma UndisturbedJobIsMarked(s: World, job: Job, result: Submission, planned: Id) returns (t: World)
    requires Init(s) && s.head == Some(job.current) && job.path in s.registry
    requires Publishable(Some(result)) && planned !in s.snapshots
    ensures t == Exec(s, [Prepare(job), Submit(job.id, result), Plan(job.id, planned), WriteJournal, MarkUncertain])
    ensures t.proc == Marked(job.id, planned) && t.head == s.head && t.history == [] && t.registry == s.registry
    ensures t.store == map[job.id := Record(job, PublicationUncertain, Some(result))]
    ensures t.journals == map[job.id := Journal(job.current, planned)]
    ensures t.snapshots == s.snapshots + {planned} && t.wins == []
  {
    var s1 := Next(s, Prepare(job));
    assert s1.store == map[job.id := Record(job, Active, None)];
    var s2 := Next(s1, Submit(job.id, result));
    assert s2.store == map[job.id := Record(job, Active, Some(result))];
    var s3 := Next(s2, Plan(job.id, planned));
    var s4 := Next(s3, WriteJournal);
    assert s4.journals == map[job.id := Journal(job.current, planned)];
    t := Next(s4, MarkUncertain);
    ExecFive(s, s1, s2, s3, s4, t, Prepare(job), Submit(job.id, result), Plan(job.id, planned), WriteJournal, MarkUncertain);
  }

  lemma ExecFive(
    s: World, s1: World, s2: World, s3: World, s4: World, s5: World, a: Event, b: Event, c: Event, d: Event, e: Event)
    requires s1 == Step(s, a) && s2 == Step(s1, b) && s3 == Step(s2, c) && s4 == Step(s3, d) && s5 == Step(s4, e)
    ensures Exec(s, [a, b, c, d, e]) == s5
  {
    assert [a, b, c, d, e][..4] == [a, b, c, d];
    assert [a, b, c, d][..3] == [a, b, c];
    assert [a, b, c][..2] == [a, b];
    assert [a, b][..1] == [a];
    assert Exec(s, []) == s && Exec(s, [a]) == s1;
    assert Exec(s, [a, b]) == s2;
    assert Exec(s, [a, b, c]) == s3;
  }

  /** From there the swap wins and the books are done: the job is published. */
  lemma UndisturbedSwapCompletes(s: World, j: JobId)
    requires s.proc.Marked? && s.proc.job == j && HasState(s, j, PublicationUncertain)
    requires s.store[j].result.Some? && s.head == Some(s.store[j].job.current)
    requires j in s.journals
    ensures var t := Exec(s, [Cas(true), RecordHistory, ResolveRegistry, MarkCompleted, RemoveJobDir(true)]);
            && t.proc.Idle? && HasState(t, j, Completed) && t.head == Some(s.proc.planned)
            && t.history == RecordOnce(s.history, HistoryEntry(s.store[j]))
            && t.registry == s.registry - {s.store[j].job.path} && t.journals == s.journals - {j}
  {
    var s1 := Next(s, Cas(true));
    var s2 := Next(s1, RecordHistory);
    var s3 := Next(s2, ResolveRegistry);
    assert HasState(s3, j, PublicationUncertain) && s3.proc == RegistryResolved(j);
    var s4 := Next(s3, MarkCompleted);
    ExecFive(s, s1, s2, s3, s4, Next(s4, RemoveJobDir(true)),
             Cas(true), RecordHistory, ResolveRegistry, MarkCompleted, RemoveJobDir(true));
  }

  /** A publication whose commit reports failure goes back to Active with its
      result and without its journal, and its books stay as they were. The
      report may be wrong: then the head is the planned one all the same. */
  lemma FailedCommitReverts(s: World, reported: bool)
    requires Inv(s) && s.proc.Marked? && (!reported || s.head != Some(s.store[s.proc.job].job.current))
    ensures var j, t := s.proc.job, Exec(s, [Cas(reported), DropJournal(true), RevertActive(true)]);
            && t.proc == Idle && t.store == s.store[j := Record(s.store[j].job, Active, s.store[j].result)]
            && t.journals == s.journals - {j} && t.history == s.history && t.registry == s.registry
            && t.head == (if s.head == Some(s.store[j].job.current) then Some(s.proc.planned) else s.head)
  {
    CommitFails(s, reported);
    var s1 := Step(s, Cas(reported));
    JournalThenRecord(s1, s.proc.job);
    ExecThree(s, Cas(reported), DropJournal(true), RevertActive(true));
  }

  lemma CommitFails(s: World, reported: bool)
    requires Inv(s) && s.proc.Marked? && (!reported || s.head != Some(s.store[s.proc.job].job.current))
    ensures var j, t := s.proc.job, Step(s, Cas(reported));
            && t.proc == Lost(j) && t.store == s.store && HasState(t, j, PublicationUncertain)
            && t.journals == s.journals && t.history == s.history && t.registry == s.registry
            && t.head == (if s.head == Some(s.store[j].job.current) then Some(s.proc.planned) else s.head)
  {
  }

  lemma JournalThenRecord(s: World, j: JobId)
    requires s.proc == Lost(j) && HasState(s, j, PublicationUncertain)
    ensures var t := Step(Step(s, DropJournal(true)), RevertActive(true));
            && t.proc == Idle && t.store == s.store[j := Record(s.store[j].job, Active, s.store[j].result)]
            && t.journals == s.journals - {j} && t.history == s.history && t.registry == s.registry && t.head == s.head
  {
    var s1 := Step(s, DropJournal(true));
    assert s1.proc == JournalDropped(j) && HasState(s1, j, PublicationUncertain);
  }

  lemma ExecThree(s: World, a: Event, b: Event, c: Event)
    ensures Exec(s, [a, b, c]) == Step(Step(Step(s, a), b), c)
  {
    assert [a, b, c][..2] == [a, b] && [a, b][..1] == [a];
    assert Exec(s, []) == s && Exec(s, [a]) == Step(s, a);
    assert Exec(s, [a, b]) == Step(Step(s, a), b);
  }

  // ----- one pass of recovery

  /** History and registry once the bookkeeping of `j` is done. */
  function BooksDone(s0: World, j: JobId): (seq<HistoryRecord>, set<string>)
    requires j in s0.store && s0.store[j].result.Some?
  {
    (RecordOnce(s0.history, HistoryEntry(s0.store[j])), s0.registry - {s0.store[j].job.path})
  }

  /** Recovery of one record, uninterrupted. */
  function RecoverUninterrupted(s: World, j: JobId): World {
    var s1 := Step(s, Recover(j, true));
    if JournalProvesWin(s, j) then
      Step(Step(Step(Step(s1, RecordHistory), ResolveRegistry), MarkCompleted), RemoveJobDir(true))
    else
      Step(Step(s1, MarkStale), DropStaleJournal(true))
  }

  /** What one pass of recovery leaves. */
  function Recovered(s: World, j: JobId): World
    requires j in s.store && s.store[j].result.Some?
  {
    var won := JournalProvesWin(s, j);
    var books := if won then BooksDone(s, j) else (s.history, s.registry);
    s.(store := s.store[j := s.store[j].(state := if won then Completed else Stale)],
       journals := s.journals - {j},
       history := books.0,
       registry := books.1)
  }

  lemma RecoveryOfWin(s: World, j: JobId)
    requires s.proc.Idle? && HasState(s, j, PublicationUncertain) && s.store[j].result.Some?
    requires JournalProvesWin(s, j)
    ensures RecoverUninterrupted(s, j) == Recovered(s, j)
  {
    var s1 := Step(s, Recover(j, true));
    assert s1 == s.(proc := Completing(j));
    var s2 := Step(s1, RecordHistory);
    assert s2 == s1.(history := BooksDone(s, j).0, proc := HistoryWritten(j));
    var s3 := Step(s2, ResolveRegistry);
    assert s3 == s2.(registry := BooksDone(s, j).1, proc := RegistryResolved(j));
    MarkAndClear(s3, j);
  }

  lemma MarkAndClear(s: World, j: JobId)
    requires s.proc == RegistryResolved(j) && HasState(s, j, PublicationUncertain)
    ensures Step(Step(s, MarkCompleted), RemoveJobDir(true)) ==
            s.(store := s.store[j := s.store[j].(state := Completed)], journals := s.journals - {j}, proc := Idle)
  {
    var s4 := Step(s, MarkCompleted);
    assert s4 == s.(store := s.store[j := s.store[j].(state := Completed)], proc := CompletedMarked(j));
  }

  lemma RecoveryOfLoss(s: World, j: JobId)
    requires s.proc.Idle? && HasState(s, j, PublicationUncertain) && s.store[j].result.Some?
    requires !JournalProvesWin(s, j)
    ensures RecoverUninterrupted(s, j) == Recovered(s, j)
  {
    var s1 := Step(s, Recover(j, true));
    assert s1 == s.(proc := FailingClosed(j));
    var s2 := Step(s1, MarkStale);
    assert s2 == s1.(store := s.store[j := s.store[j].(state := Stale)], proc := StaleMarked(j));
  }

  /** Recovery always converges: from every reachable state one uninterrupted
      pass ends in a terminal record, Completed exactly when the journal
      proves the win, with the journal gone and nothing else changed. */
  lemma RecoveryConverges(s: World, j: JobId)
    requires Inv(s) && s.proc.Idle? && HasState(s, j, PublicationUncertain)
    ensures RecoverUninterrupted(s, j) == Recovered(s, j)
  {
    if JournalProvesWin(s, j) {
      RecoveryOfWin(s, j);
    } else {
      RecoveryOfLoss(s, j);
    }
  }
}
