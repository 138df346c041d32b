/** What the conflict history says after every run. */
module Books {
  import opened Base
  import opened ResolutionStates
  import opened Publication

  /** Only a candidate, or the finding that nothing needs to change, is
      published. */
  predicate Ready(r: Record) {
    r.result.Some? && (r.result.value.outcome == CandidateReady || r.result.value.outcome == NoChangeRequired)
  }

  /** The process has written the record of `j` to the history. */
  predicate PastHistory(s: World, j: JobId) {
    (s.proc.HistoryWritten? || s.proc.RegistryResolved?) && s.proc.job == j
  }

  ghost predicate HistoryOk(s: World) {
    forall j :: j in s.store && (s.store[j].state.Completed? || PastHistory(s, j)) ==> Recorded(s.history, s.store[j])
  }

  predicate AtOrPastSwap(r: Record) {
    r.state.Completed? || r.state.PublicationUncertain?
  }

  ghost predicate ReadyOk(s: World) {
    && (forall j :: j in s.store && AtOrPastSwap(s.store[j]) ==> Ready(s.store[j]))
    && (s.proc.Planned? || s.proc.Journaled? ==> s.proc.job in s.store && Ready(s.store[s.proc.job]))
  }

  /** Up to its swap a publication is for a conflict that is still listed. */
  predicate ListedOk(s: World) {
    s.proc.Planned? || s.proc.Journaled? || s.proc.Marked? ==>
      s.proc.job in s.store && s.store[s.proc.job].job.path in s.registry
  }

  /** Some swap that won was for this path and by this resolver. */
  ghost predicate Earned(wins: seq<Win>, h: HistoryRecord) {
    exists w :: w in wins && w.job.path == h.path && w.job.owner == h.resolver
  }

  ghost predicate HonestOk(s: World) {
    forall h :: h in s.history ==> Earned(s.wins, h)
  }

  ghost predicate BooksOk(s: World) {
    HistoryOk(s) && ReadyOk(s) && ListedOk(s) && HonestOk(s)
  }

  lemma RecordedStays(a: seq<HistoryRecord>, b: seq<HistoryRecord>, r: Record)
    requires Recorded(a, r) && a <= b
    ensures Recorded(b, r)
  {
    var h :| h in a && Describes(h, r);
    assert h in b;
  }

  lemma HistoryGrows(s: World, e: Event)
    requires Enabled(s, e)
    ensures s.history <= Next(s, e).history
    ensures e.RecordHistory? ==> Recorded(Next(s, e).history, s.store[s.proc.job])
  {
    if e.RecordHistory? {
      RecordOnceRecords(s.history, s.store[s.proc.job]);
    }
  }

  lemma SameRecordIsRecorded(a: Record, b: Record, history: seq<HistoryRecord>)
    requires Recorded(history, a) && b.job == a.job && b.result == a.result
    ensures Recorded(history, b)
  {
    var h :| h in history && Describes(h, a);
    assert Describes(h, b);
  }

  lemma NextKeepsRecorded(s: World, e: Event, j: JobId)
    requires Inv(s) && BooksOk(s) && Enabled(s, e) && j in Next(s, e).store
    requires Next(s, e).store[j].state.Completed? || PastHistory(Next(s, e), j)
    ensures Recorded(Next(s, e).history, Next(s, e).store[j])
  {
    var s' := Next(s, e);
    HistoryGrows(s, e);
    if e.RecordHistory? && j == s.proc.job {
      assert s'.store[j] == s.store[j];
    } else {
      RecordedStays(s.history, s'.history, s.store[j]);
      SameRecordIsRecorded(s.store[j], s'.store[j], s'.history);
    }
  }

  lemma NextKeepsReady(s: World, e: Event)
    requires ProcOk(s) && ReadyOk(s) && Enabled(s, e)
    ensures ReadyOk(Next(s, e))
  {
  }

  lemma NextKeepsListed(s: World, e: Event)
    requires Inv(s) && BooksOk(s) && Enabled(s, e)
    ensures ListedOk(Next(s, e))
  {
  }

  lemma NextKeepsHonest(s: World, e: Event)
    requires Inv(s) && BooksOk(s) && Enabled(s, e)
    ensures HonestOk(Next(s, e))
  {
    var s' := Next(s, e);
    WinsGrow(s, e);
    forall h | h in s'.history
      ensures Earned(s'.wins, h)
    {
      if h in s.history {
        var w :| w in s.wins && w.job.path == h.path && w.job.owner == h.resolver;
        assert w in s'.wins;
      } else {
        var r := s.store[s.proc.job];
        RecordOnceRecords(s.history, r);
        var p :| Win(r.job, p) in s.wins;
        assert Win(r.job, p) in s'.wins;
      }
    }
  }

  lemma NextKeepsBooks(s: World, e: Event)
    requires Inv(s) && BooksOk(s) && Enabled(s, e)
    ensures BooksOk(Next(s, e))
  {
    NextKeepsReady(s, e);
    NextKeepsListed(s, e);
    NextKeepsHonest(s, e);
    forall j | j in Next(s, e).store && (Next(s, e).store[j].state.Completed? || PastHistory(Next(s, e), j))
      ensures Recorded(Next(s, e).history, Next(s, e).store[j])
    {
      NextKeepsRecorded(s, e, j);
    }
  }

  lemma {:induction false} RunKeepsBooks(s: World, es: seq<Event>)
    requires Init(s)
    ensures BooksOk(Exec(s, es))
  {
    if es != [] {
      var t := Exec(s, es[..|es| - 1]);
      RunKeepsBooks(s, es[..|es| - 1]);
      InitInv(s);
      RunKeepsInv(s, es[..|es| - 1]);
      if Enabled(t, es[|es| - 1]) {
        NextKeepsBooks(t, es[|es| - 1]);
      }
    }
  }

  /** Over every run, a Completed job had something to publish and the history
      describes it. */
  lemma CompletedIsRecorded(s: World, es: seq<Event>, j: JobId)
    requires Init(s) && HasState(Exec(s, es), j, Completed)
    ensures Ready(Exec(s, es).store[j]) && Recorded(Exec(s, es).history, Exec(s, es).store[j])
  {
    RunKeepsBooks(s, es);
  }

  /** Over every run, a swap is tried only for a listed conflict and with
      something to publish; the history holds only what won; and a path leaves
      the list only once a publication for it has won and is in the history. */
  lemma BooksAreHonest(s: World, es: seq<Event>, e: Event, path: string)
    requires Init(s)
    ensures var t := Exec(s, es);
            && (SwapWins(t, e) ==> t.store[t.proc.job].job.path in t.registry && Ready(t.store[t.proc.job]))
            && (forall h :: h in t.history ==> Earned(t.wins, h))
            && (Enabled(t, e) && path in t.registry && path !in Next(t, e).registry ==>
                  exists w, h :: w in t.wins && w.job.path == path && h in t.history && h.path == path
                                 && h.resolver == w.job.owner)
  {
    RunKeepsBooks(s, es);
    InitInv(s);
    RunKeepsInv(s, es);
    var t := Exec(s, es);
    if Enabled(t, e) && path in t.registry && path !in Next(t, e).registry {
      assert e.ResolveRegistry? && t.store[t.proc.job].job.path == path;
      assert Recorded(t.history, t.store[t.proc.job]);
      var h :| h in t.history && Describes(h, t.store[t.proc.job]);
      var p :| Win(t.store[t.proc.job].job, p) in t.wins;
    }
  }

  /** Over every run, publications of two different candidates leave two
      records, even for one path and one owner. */
  lemma TwoCandidatesTwoRecords(s: World, es: seq<Event>, j: JobId, k: JobId) returns (a: HistoryRecord, b: HistoryRecord)
    requires Init(s) && HasState(Exec(s, es), j, Completed) && HasState(Exec(s, es), k, Completed)
    requires var t := Exec(s, es);
             && t.store[j].result.Some? && t.store[j].result.value.outcome == CandidateReady
             && t.store[k].result.Some? && t.store[k].result.value.outcome == CandidateReady
             && t.store[j].result.value.candidateHash != t.store[k].result.value.candidateHash
    ensures var t := Exec(s, es);
            a in t.history && b in t.history && a != b && Describes(a, t.store[j]) && Describes(b, t.store[k])
  {
    CompletedIsRecorded(s, es, j);
    CompletedIsRecorded(s, es, k);
    var t := Exec(s, es);
    a :| a in t.history && Describes(a, t.store[j]);
    b :| b in t.history && Describes(b, t.store[k]);
  }
}
