/** When the verdict of recovery says what really happened to the swap. */
module Verdict {
  import opened Base
  import opened ResolutionStates
  import opened Publication
  import opened Settlement

  /** All that recovery looks at: the head, the record and its journal, which
      is missing when it was dropped or cannot be read. */
  datatype View = View(head: Option<Id>, record: Record, journal: Option<Journal>)

  /** Recovery completes the record. */
  predicate SaysPublished(v: View) {
    v.journal.Some? && v.head == Some(v.journal.value.planned)
  }

  ghost predicate Shows(s: World, v: View) {
    var j := v.record.job.id;
    && s.proc.Idle? && s.head == v.head && j in s.store && s.store[j] == v.record
    && (if v.journal.Some? then j in s.journals && s.journals[j] == v.journal.value else j !in s.journals)
  }

  /** An uncertain record with the journal a publication writes, if any. */
  predicate Uncertain(v: View) {
    && v.record.state.PublicationUncertain? && Publishable(v.record.result)
    && (v.journal.Some? ==>
          v.journal.value.expected == v.record.job.current && v.journal.value.planned != v.record.job.current)
  }

  /** Whatever run led to this view, the verdict is what happened. */
  ghost predicate Truthful(v: View) {
    forall s, es :: Init(s) && Shows(Exec(s, es), v) ==> (SaysPublished(v) <==> Won(Exec(s, es), v.record.job))
  }

  /** The head tells: it is the expected one, or the planned one. */
  predicate HeadTells(v: View) {
    v.head == Some(v.record.job.current) || SaysPublished(v)
  }

  lemma HeadTellsTruth(v: View, s: World)
    requires Inv(s) && Uncertain(v) && Shows(s, v) && HeadTells(v)
    ensures SaysPublished(v) <==> Won(s, v.record.job)
  {
    if SaysPublished(v) {
      assert Win(s.store[v.record.job.id].job, v.journal.value.planned) in s.wins;
    } else {
      assert forall p :: Win(v.record.job, p) !in s.wins;
    }
  }

  // ----- otherwise both may have happened

  lemma {:induction false} ExecConcat(s: World, a: seq<Event>, b: seq<Event>)
    ensures Exec(s, a + b) == Exec(Exec(s, a), b)
    decreases |b|
  {
    if b == [] {
      assert a + b == a;
    } else {
      assert (a + b)[..|a + b| - 1] == a + b[..|b| - 1] && (a + b)[|a + b| - 1] == b[|b| - 1];
      ExecConcat(s, a, b[..|b| - 1]);
    }
  }

  /** A world in which the job of the view can be prepared. */
  function Start(v: View): World {
    var current := v.record.job.current;
    World(Some(current), {current}, map[], map[], [], {v.record.job.path}, Idle, {current}, map[], [])
  }

  ghost predicate SameDurable(a: World, b: World) {
    && a.head == b.head && a.snapshots == b.snapshots && a.store == b.store && a.journals == b.journals
    && a.history == b.history && a.registry == b.registry
  }

  /** The journal survived: a crash just before or just after a won swap. */
  lemma BothWithJournal(v: View, t: World) returns (won: seq<Event>, lost: seq<Event>)
    requires Uncertain(v) && v.journal.Some? && !HeadTells(v)
    requires var job := v.record.job;
             && t.proc == Marked(job.id, v.journal.value.planned) && t.head == Some(job.current)
             && t.store == map[job.id := v.record] && t.journals == map[job.id := v.journal.value]
             && t.snapshots == {job.current, v.journal.value.planned} && t.wins == []
    ensures Shows(Exec(t, won), v) && Shows(Exec(t, lost), v)
    ensures Won(Exec(t, won), v.record.job) && !Won(Exec(t, lost), v.record.job)
    ensures SameDurable(Exec(t, won), Exec(t, lost))
  {
    won, lost := [Cas(true), Crash, ForeignSwap(v.head)], [Crash, ForeignSwap(v.head)];
    var w1 := Next(t, Cas(true));
    var w2 := Next(w1, Crash);
    var w3 := Next(w2, ForeignSwap(v.head));
    ExecThree(t, Cas(true), Crash, ForeignSwap(v.head));
    assert Win(v.record.job, v.journal.value.planned) in w3.wins;
    ExecTwo(t, Crash, ForeignSwap(v.head));
  }

  lemma ExecTwo(s: World, a: Event, b: Event)
    ensures Exec(s, [a, b]) == Step(Step(s, a), b)
  {
    assert [a, b][..1] == [a] && [a][..0] == [];
    assert Exec(s, [a]) == Step(Exec(s, []), a);
  }

  lemma ExecThree(s: World, a: Event, b: Event, c: Event)
    ensures Exec(s, [a, b, c]) == Step(Step(Step(s, a), b), c)
  {
    assert [a, b, c][..2] == [a, b];
    ExecTwo(s, a, b);
  }

  lemma ExecFour(s: World, a: Event, b: Event, c: Event, d: Event)
    ensures Exec(s, [a, b, c, d]) == Step(Step(Step(Step(s, a), b), c), d)
  {
    assert [a, b, c, d][..3] == [a, b, c];
    ExecThree(s, a, b, c);
  }

  /** The job of the view stands right before its swap. */
  ghost predicate BeforeSwap(v: View, t: World) {
    var job := v.record.job;
    && t.proc.Marked? && t.proc.job == job.id && t.head == Some(job.current)
    && t.store == map[job.id := v.record] && t.journals.Keys == {job.id}
    && (v.head.Some? ==> v.head.value !in t.snapshots) && t.wins == []
  }

  /** What the durable state becomes once somebody else moved the head and
      the journal was dropped. */
  ghost predicate DroppedAndMoved(v: View, t: World, s: World) {
    && s.proc.Idle? && s.head == v.head && s.store == t.store && s.journals == map[]
    && s.snapshots == t.snapshots + (if v.head.Some? then {v.head.value} else {})
    && s.history == t.history && s.registry == t.registry
  }

  lemma WonThenDropped(v: View, t: World)
    requires BeforeSwap(v, t)
    ensures var s := Step(Step(Step(Step(t, Cas(false)), DropJournal(true)), Crash), ForeignSwap(v.head));
            DroppedAndMoved(v, t, s) && Won(s, v.record.job)
  {
    var w1 := Next(t, Cas(false));
    assert w1.proc == Lost(v.record.job.id) && Win(v.record.job, t.proc.planned) in w1.wins;
    var w2 := Next(w1, DropJournal(true));
    assert w2.journals == map[];
  }

  lemma LostThenDropped(v: View, t: World)
    requires BeforeSwap(v, t) && v.head != Some(v.record.job.current)
    ensures var s := Step(Step(Step(Step(t, ForeignSwap(v.head)), Cas(true)), DropJournal(true)), Crash);
            DroppedAndMoved(v, t, s) && !Won(s, v.record.job)
  {
    var l1 := Next(t, ForeignSwap(v.head));
    var l2 := Next(l1, Cas(true));
    assert l2.proc == Lost(v.record.job.id) && l2.wins == [];
    var l3 := Next(l2, DropJournal(true));
    assert l3.journals == map[];
  }

  /** The journal was dropped: after a commit error for a swap that won, or
      for one that lost. */
  lemma BothWithoutJournal(v: View, t: World) returns (won: seq<Event>, lost: seq<Event>)
    requires Uncertain(v) && v.journal.None? && !HeadTells(v) && BeforeSwap(v, t)
    ensures Shows(Exec(t, won), v) && Shows(Exec(t, lost), v)
    ensures Won(Exec(t, won), v.record.job) && !Won(Exec(t, lost), v.record.job)
    ensures SameDurable(Exec(t, won), Exec(t, lost))
  {
    won := [Cas(false), DropJournal(true), Crash, ForeignSwap(v.head)];
    lost := [ForeignSwap(v.head), Cas(true), DropJournal(true), Crash];
    ExecFour(t, Cas(false), DropJournal(true), Crash, ForeignSwap(v.head));
    ExecFour(t, ForeignSwap(v.head), Cas(true), DropJournal(true), Crash);
    WonThenDropped(v, t);
    LostThenDropped(v, t);
  }

  /** For every other head the same durable state arises both with and
      without a win, so recovery cannot tell. */
  lemma BothMayHaveHappened(v: View) returns (won: seq<Event>, lost: seq<Event>)
    requires Uncertain(v) && !HeadTells(v)
    ensures Init(Start(v)) && SameDurable(Exec(Start(v), won), Exec(Start(v), lost))
    ensures Shows(Exec(Start(v), won), v) && Won(Exec(Start(v), won), v.record.job)
    ensures Shows(Exec(Start(v), lost), v) && !Won(Exec(Start(v), lost), v.record.job)
  {
    var s, job := Start(v), v.record.job;
    var planned := if v.journal.Some? then v.journal.value.planned else AnotherId(job.current, v.head);
    var five := [Prepare(job), Submit(job.id, v.record.result.value), Plan(job.id, planned), WriteJournal, MarkUncertain];
    var t := UndisturbedJobIsMarked(s, job, v.record.result.value, planned);
    var more, less;
    if v.journal.Some? {
      more, less := BothWithJournal(v, t);
    } else {
      more, less := BothWithoutJournal(v, t);
    }
    ExecConcat(s, five, more);
    ExecConcat(s, five, less);
    won, lost := five + more, five + less;
  }

  function AnotherId(a: Id, b: Option<Id>): (c: Id)
    ensures c != a && b != Some(c)
  {
    if b == Some(a + 1) then a + 2 else a + 1
  }

  /** Recovery's verdict can be relied on exactly when the head it finds is
      the one the publication expected or the one it planned. */
  lemma TruthfulIff(v: View)
    requires Uncertain(v)
    ensures Truthful(v) <==> HeadTells(v)
  {
    if HeadTells(v) {
      forall s, es | Init(s) && Shows(Exec(s, es), v)
        ensures SaysPublished(v) <==> Won(Exec(s, es), v.record.job)
      {
        InitInv(s);
        RunKeepsInv(s, es);
        HeadTellsTruth(v, Exec(s, es));
      }
    } else {
      var won, lost := BothMayHaveHappened(v);
      assert Shows(Exec(Start(v), won), v);
    }
  }

  /** One uninterrupted recovery carries the verdict out. */
  lemma RecoveryFollowsVerdict(v: View, s: World)
    requires Inv(s) && Uncertain(v) && Shows(s, v)
    ensures var t := RecoverUninterrupted(s, v.record.job.id);
            HasState(t, v.record.job.id, if SaysPublished(v) then Completed else Stale)
  {
    RecoveryConverges(s, v.record.job.id);
  }

  /** Stale does not mean "never published": when another writer moves the
      head between the crash and the recovery, a won swap is recorded Stale. */
  lemma StaleAfterWin(s: World, j: JobId, foreign: Id)
    requires AboutToSwap(s, j) && s.head == Some(s.store[j].job.current) && foreign !in s.snapshots
    ensures var crashed := Step(Step(Step(s, Cas(true)), Crash), ForeignSwap(Some(foreign)));
            var t := RecoverUninterrupted(crashed, j);
            HasState(t, j, Stale) && Win(s.store[j].job, s.proc.planned) in t.wins
  {
    var s1 := Step(s, Cas(true));
    assert Win(s.store[j].job, s.proc.planned) in s1.wins;
    var s2 := Step(s1, Crash);
    var crashed := Step(s2, ForeignSwap(Some(foreign)));
    assert crashed.store == s.store && crashed.journals == s.journals && crashed.wins == s1.wins;
    assert s.proc.planned in s.snapshots && !JournalProvesWin(crashed, j);
    RecoveryOfLoss(crashed, j);
  }
}
