/** How one uncertain publication settles, whatever else the machine does. */
module Settlement {
  import opened Base
  import opened ResolutionStates
  import opened Publication

  /** Nobody else moves the head, a commit error means the swap lost, and the
      journal of `j` is readable. Crashes, new conflicts, other jobs and the
      recovery of other records are all allowed. */
  predicate Calm(j: JobId, e: Event) {
    match e
    case ForeignSwap(_) => false
    case Plan(_, _) => false
    case Cas(reported) => reported
    case Recover(k, readable) => k == j ==> readable
    case Evict(k) => k != j
    case _ => true
  }

  /** Job `j` has just been marked uncertain; its one swap comes next. */
  ghost predicate AboutToSwap(s: World, j: JobId) {
    Inv(s) && s.proc.Marked? && s.proc.job == j
  }

  ghost predicate SwapWon(s0: World, j: JobId, s: World)
    requires AboutToSwap(s0, j)
  {
    s.wins == s0.wins + [Win(s0.store[j].job, s0.proc.planned)]
  }

  /** Another uncertain job whose own win the current head proves. */
  ghost predicate OtherWinner(s0: World, j: JobId, k: JobId) {
    k != j && HasState(s0, k, PublicationUncertain) && JournalProvesWin(s0, k) && s0.store[k].result.Some?
  }

  ghost predicate HeadSettles(s0: World, j: JobId, s: World)
    requires AboutToSwap(s0, j)
  {
    && (SwapWon(s0, j, s) || s.wins == s0.wins)
    && s.head == (if SwapWon(s0, j, s) then Some(s0.proc.planned) else s0.head)
  }

  ghost predicate RecordSettles(s0: World, j: JobId, s: World)
    requires AboutToSwap(s0, j)
  {
    && j in s.store && s.store[j].job == s0.store[j].job
    && (match s.store[j].state
        case PublicationUncertain =>
          && s.store[j].result == s0.store[j].result
          && (SwapWon(s0, j, s) ==> j in s.journals)
          && (j in s.journals ==> s.journals[j].planned == s0.proc.planned)
        case Completed => SwapWon(s0, j, s) && s.store[j].result == s0.store[j].result
        case _ => !SwapWon(s0, j, s))
  }

  /** Other uncertain records are as they were. */
  ghost predicate OthersUntouched(s0: World, j: JobId, s: World) {
    forall k :: k != j && HasState(s, k, PublicationUncertain) ==>
      && k in s0.store && s.store[k] == s0.store[k]
      && (k in s.journals ==> k in s0.journals && s.journals[k] == s0.journals[k])
  }

  /** Bookkeeping is under way for `k`: for `j` only after its win, for
      another winner only if `j` lost. */
  ghost predicate MayComplete(s0: World, j: JobId, s: World, k: JobId)
    requires AboutToSwap(s0, j)
  {
    && HasState(s, k, PublicationUncertain)
    && (if k == j then SwapWon(s0, j, s) else !SwapWon(s0, j, s) && OtherWinner(s0, j, k))
  }

  ghost predicate ProcSettles(s0: World, j: JobId, s: World)
    requires AboutToSwap(s0, j)
  {
    match s.proc
    case Idle => true
    case Planned(_, _) => false
    case Journaled(_, _) => false
    case Marked(k, q) =>
      && k == j && q == s0.proc.planned && !SwapWon(s0, j, s)
      && j in s.journals && HasState(s, j, PublicationUncertain)
    case Lost(k) => k == j && !SwapWon(s0, j, s) && HasState(s, j, PublicationUncertain)
    case JournalDropped(k) => k == j && !SwapWon(s0, j, s) && HasState(s, j, PublicationUncertain)
    case FailingClosed(k) => k == j ==> !SwapWon(s0, j, s) && HasState(s, j, PublicationUncertain)
    case StaleMarked(k) => k == j ==> HasState(s, j, Stale)
    case Completing(k) => MayComplete(s0, j, s, k)
    case HistoryWritten(k) => MayComplete(s0, j, s, k)
    case RegistryResolved(k) => MayComplete(s0, j, s, k)
    case CompletedMarked(k) => k == j ==> HasState(s, j, Completed)
  }

  /** `h` was recorded by another winner. */
  ghost predicate FromOther(s0: World, j: JobId, h: HistoryRecord) {
    exists k :: OtherWinner(s0, j, k) && h == HistoryEntry(s0.store[k])
  }

  /** History grew by records of other winners only, each once. */
  ghost predicate GrownByOthers(s0: World, j: JobId, history: seq<HistoryRecord>) {
    && s0.history <= history
    && (forall i :: |s0.history| <= i < |history| ==> FromOther(s0, j, history[i]) && history[i] !in history[..i])
  }

  ghost predicate HistorySettles(s0: World, j: JobId, s: World)
    requires AboutToSwap(s0, j)
  {
    var done := BooksDone(s0, j).0;
    && (s.proc.Marked? ==> s.history == s0.history)
    && (if SwapWon(s0, j, s) then s.history == s0.history || s.history == done else GrownByOthers(s0, j, s.history))
    && (s.proc.HistoryWritten? && s.proc.job == j ==> s.history == done)
    && (s.proc.RegistryResolved? && s.proc.job == j ==> s.history == done)
    && (HasState(s, j, Completed) ==> s.history == done)
  }

  /** The registry away from the paths `added` meanwhile. */
  ghost predicate Same(s0: World, registry: set<string>, added: set<string>) {
    forall p :: p !in added ==> (p in registry <==> p in s0.registry)
  }

  ghost predicate Resolved(s0: World, registry: set<string>, added: set<string>, path: string) {
    forall p :: p !in added ==> (p in registry <==> p in s0.registry && p != path)
  }

  ghost predicate PathOfOther(s0: World, j: JobId, p: string) {
    exists k :: OtherWinner(s0, j, k) && s0.store[k].job.path == p
  }

  ghost predicate ResolvedByOthers(s0: World, j: JobId, registry: set<string>, added: set<string>) {
    forall p :: p !in added && (p in registry <==> p !in s0.registry) ==> p in s0.registry && PathOfOther(s0, j, p)
  }

  ghost predicate RegistrySettles(s0: World, j: JobId, s: World, added: set<string>)
    requires AboutToSwap(s0, j)
  {
    var path := s0.store[j].job.path;
    && (s.proc.Marked? ==> Same(s0, s.registry, added))
    && (if SwapWon(s0, j, s)
        then Same(s0, s.registry, added) || Resolved(s0, s.registry, added, path)
        else ResolvedByOthers(s0, j, s.registry, added))
    && (s.proc.RegistryResolved? && s.proc.job == j ==> Resolved(s0, s.registry, added, path))
    && (HasState(s, j, Completed) ==> Resolved(s0, s.registry, added, path))
  }

  ghost predicate Settles(s0: World, j: JobId, s: World, added: set<string>)
    requires AboutToSwap(s0, j)
  {
    && HeadSettles(s0, j, s) && RecordSettles(s0, j, s) && OthersUntouched(s0, j, s) && ProcSettles(s0, j, s)
    && HistorySettles(s0, j, s) && RegistrySettles(s0, j, s, added)
  }

  function Adds(e: Event): set<string> {
    if e.RegisterConflict? then {e.path} else {}
  }

  // ----- what the journals of others can prove

  lemma PlannedIsNew(s0: World, j: JobId)
    requires AboutToSwap(s0, j)
    ensures s0.head != Some(s0.proc.planned) && !(s0.wins == s0.wins + [Win(s0.store[j].job, s0.proc.planned)])
  {
    assert |s0.wins| != |s0.wins + [Win(s0.store[j].job, s0.proc.planned)]|;
  }

  /** After `j` won, no other journal proves anything; before, exactly those
      of the other winners do. */
  lemma WhatJournalsProve(s0: World, j: JobId, s: World, added: set<string>, k: JobId)
    requires AboutToSwap(s0, j) && Settles(s0, j, s, added) && HasState(s, k, PublicationUncertain)
    ensures k == j ==> (JournalProvesWin(s, j) <==> SwapWon(s0, j, s))
    ensures k != j && JournalProvesWin(s, k) ==> !SwapWon(s0, j, s) && OtherWinner(s0, j, k)
  {
    PlannedIsNew(s0, j);
  }

  // ----- one step

  lemma StepHead(s0: World, j: JobId, s: World, added: set<string>, e: Event)
    requires AboutToSwap(s0, j) && Settles(s0, j, s, added) && Enabled(s, e) && Calm(j, e)
    ensures HeadSettles(s0, j, Next(s, e))
    ensures !e.Cas? ==> (SwapWon(s0, j, Next(s, e)) <==> SwapWon(s0, j, s))
    ensures SwapWon(s0, j, s) ==> SwapWon(s0, j, Next(s, e))
  {
    PlannedIsNew(s0, j);
  }

  lemma StepRecord(s0: World, j: JobId, s: World, added: set<string>, e: Event)
    requires AboutToSwap(s0, j) && Settles(s0, j, s, added) && Enabled(s, e) && Calm(j, e)
    ensures RecordSettles(s0, j, Next(s, e))
  {
    StepHead(s0, j, s, added, e);
  }

  lemma StepOthers(s0: World, j: JobId, s: World, e: Event)
    requires AboutToSwap(s0, j) && OthersUntouched(s0, j, s) && ProcSettles(s0, j, s) && Enabled(s, e) && Calm(j, e)
    ensures OthersUntouched(s0, j, Next(s, e))
  {
    forall k | k != j && HasState(Next(s, e), k, PublicationUncertain)
      ensures HasState(s, k, PublicationUncertain) && Next(s, e).store[k] == s.store[k]
      ensures k in Next(s, e).journals ==> k in s.journals && Next(s, e).journals[k] == s.journals[k]
    {
      OtherStep(s0, j, s, e, k);
    }
  }

  lemma OtherStep(s0: World, j: JobId, s: World, e: Event, k: JobId)
    requires AboutToSwap(s0, j) && ProcSettles(s0, j, s) && Enabled(s, e) && Calm(j, e)
    requires k != j && HasState(Next(s, e), k, PublicationUncertain)
    ensures HasState(s, k, PublicationUncertain) && Next(s, e).store[k] == s.store[k]
    ensures k in Next(s, e).journals ==> k in s.journals && Next(s, e).journals[k] == s.journals[k]
  {
  }

  lemma StepProc(s0: World, j: JobId, s: World, added: set<string>, e: Event)
    requires AboutToSwap(s0, j) && Settles(s0, j, s, added) && Enabled(s, e) && Calm(j, e)
    ensures ProcSettles(s0, j, Next(s, e))
  {
    StepHead(s0, j, s, added, e);
    if e.Recover? {
      WhatJournalsProve(s0, j, s, added, e.j);
    }
  }

  lemma StepHistory(s0: World, j: JobId, s: World, added: set<string>, e: Event)
    requires AboutToSwap(s0, j) && Settles(s0, j, s, added) && Enabled(s, e) && Calm(j, e)
    ensures HistorySettles(s0, j, Next(s, e))
  {
    StepHead(s0, j, s, added, e);
    if e.RecordHistory? {
      StepRecordHistory(s0, j, s, added);
    } else {
      assert Next(s, e).history == s.history;
    }
  }

  lemma StepRecordHistory(s0: World, j: JobId, s: World, added: set<string>)
    requires AboutToSwap(s0, j) && Settles(s0, j, s, added) && Enabled(s, RecordHistory)
    ensures HistorySettles(s0, j, Next(s, RecordHistory))
  {
    if s.proc.job != j {
      var h := HistoryEntry(s.store[s.proc.job]);
      assert FromOther(s0, j, h);
      RecordedByOther(s0, j, s.history, h);
    }
  }

  lemma RecordedByOther(s0: World, j: JobId, history: seq<HistoryRecord>, h: HistoryRecord)
    requires GrownByOthers(s0, j, history) && FromOther(s0, j, h)
    ensures GrownByOthers(s0, j, RecordOnce(history, h))
  {
    var after := RecordOnce(history, h);
    forall i | |s0.history| <= i < |after|
      ensures FromOther(s0, j, after[i]) && after[i] !in after[..i]
    {
      assert after[..i] == history[..i];
    }
  }

  lemma StepRegistry(s0: World, j: JobId, s: World, added: set<string>, e: Event)
    requires AboutToSwap(s0, j) && Settles(s0, j, s, added) && Enabled(s, e) && Calm(j, e)
    ensures RegistrySettles(s0, j, Next(s, e), added + Adds(e))
  {
    if e.ResolveRegistry? {
      StepResolve(s0, j, s, added);
    } else if e.RegisterConflict? {
      StepRegister(s0, j, s, added, e);
    } else {
      StepHead(s0, j, s, added, e);
      StepElsewhere(s0, j, s, added, e);
    }
    assert e.RegisterConflict? || added + Adds(e) == added;
  }

  lemma StepElsewhere(s0: World, j: JobId, s: World, added: set<string>, e: Event)
    requires AboutToSwap(s0, j) && RegistrySettles(s0, j, s, added) && ProcSettles(s0, j, s)
    requires Enabled(s, e) && !e.ResolveRegistry? && !e.RegisterConflict?
    requires SwapWon(s0, j, s) ==> SwapWon(s0, j, Next(s, e))
    requires !e.Cas? ==> (SwapWon(s0, j, Next(s, e)) <==> SwapWon(s0, j, s))
    ensures RegistrySettles(s0, j, Next(s, e), added)
  {
    assert Next(s, e).registry == s.registry;
  }

  lemma StepRegister(s0: World, j: JobId, s: World, added: set<string>, e: Event)
    requires AboutToSwap(s0, j) && RegistrySettles(s0, j, s, added) && e.RegisterConflict?
    ensures RegistrySettles(s0, j, Next(s, e), added + Adds(e))
  {
  }

  lemma StepResolve(s0: World, j: JobId, s: World, added: set<string>)
    requires AboutToSwap(s0, j) && Settles(s0, j, s, added) && Enabled(s, ResolveRegistry)
    ensures RegistrySettles(s0, j, Next(s, ResolveRegistry), added)
  {
    if s.proc.job != j {
      assert PathOfOther(s0, j, s.store[s.proc.job].job.path);
    }
  }

  lemma SettlesStep(s0: World, j: JobId, s: World, added: set<string>, e: Event)
    requires AboutToSwap(s0, j) && Settles(s0, j, s, added) && Enabled(s, e) && Calm(j, e)
    ensures Settles(s0, j, Next(s, e), added + Adds(e))
  {
    StepHead(s0, j, s, added, e);
    StepRecord(s0, j, s, added, e);
    StepOthers(s0, j, s, e);
    StepProc(s0, j, s, added, e);
    StepHistory(s0, j, s, added, e);
    StepRegistry(s0, j, s, added, e);
  }

  // ----- whole runs

  /** The paths registered during a run. */
  function Registered(es: seq<Event>): set<string> {
    if es == [] then {} else Registered(es[..|es| - 1]) + Adds(es[|es| - 1])
  }

  lemma {:induction false} CalmRunSettles(s0: World, j: JobId, es: seq<Event>)
    requires AboutToSwap(s0, j) && forall e :: e in es ==> Calm(j, e)
    ensures Settles(s0, j, Exec(s0, es), Registered(es))
  {
    if es == [] {
      PlannedIsNew(s0, j);
    } else {
      var before, e := es[..|es| - 1], es[|es| - 1];
      CalmRunSettles(s0, j, before);
      if Enabled(Exec(s0, before), e) {
        SettlesStep(s0, j, Exec(s0, before), Registered(before), e);
      }
    }
  }

  /**
   * With nobody else moving the head, whatever conflicts are registered and
   * whatever other records are recovered meanwhile, however often the process
   * crashes: a settled record is Completed exactly when its swap won.
   * If it won, history is what an uninterrupted run leaves and exactly its
   * path left the registry. If it lost, the head stays, and history and
   * registry change only for other jobs whose own win that head proves.
   */
  lemma UncertainSettlesExactly(s0: World, j: JobId, es: seq<Event>)
    requires AboutToSwap(s0, j) && forall e :: e in es ==> Calm(j, e)
    ensures var s := Exec(s0, es);
            && j in s.store
            && (s.store[j].state.IsTerminal() ==> (s.store[j].state.Completed? <==> SwapWon(s0, j, s)))
            && (s.store[j].state.Completed? ==>
                  && s.head == Some(s0.proc.planned) && s.store[j] == s0.store[j].(state := Completed)
                  && s.history == RecordOnce(s0.history, HistoryEntry(s0.store[j])) && Recorded(s.history, s0.store[j])
                  && Resolved(s0, s.registry, Registered(es), s0.store[j].job.path))
            && (SwapWon(s0, j, s) ==> |s0.history| <= |s.history| <= |s0.history| + 1)
            && (!SwapWon(s0, j, s) ==>
                  && s.head == s0.head && GrownByOthers(s0, j, s.history)
                  && ResolvedByOthers(s0, j, s.registry, Registered(es)))
  {
    CalmRunSettles(s0, j, es);
    RecordOnceRecords(s0.history, s0.store[j]);
  }

  /** In particular, while no other record is uncertain, a lost swap leaves
      head and history as they were and resolves no path. */
  lemma LostAloneChangesNothing(s0: World, j: JobId, es: seq<Event>)
    requires AboutToSwap(s0, j) && (forall e :: e in es ==> Calm(j, e))
    requires forall k :: HasState(s0, k, PublicationUncertain) ==> k == j
    requires !SwapWon(s0, j, Exec(s0, es))
    ensures Exec(s0, es).head == s0.head && Exec(s0, es).history == s0.history
    ensures Same(s0, Exec(s0, es).registry, Registered(es))
  {
    UncertainSettlesExactly(s0, j, es);
    var s := Exec(s0, es);
    assert forall p :: !PathOfOther(s0, j, p);
    if s.history != s0.history {
      GrownMeansOther(s0, j, s.history);
    }
  }

  lemma GrownMeansOther(s0: World, j: JobId, history: seq<HistoryRecord>)
    requires GrownByOthers(s0, j, history) && history != s0.history
    ensures exists h :: FromOther(s0, j, h)
  {
    assert FromOther(s0, j, history[|s0.history|]);
  }
}
