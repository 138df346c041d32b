/** The recovery pass run at the start of every resolution operation. */
module Recovery {
  import opened Base
  import opened ResolutionStates
  import opened Publication

  /** Where recovery takes a record: only uncertain records move, and the
      verdict is the journal against the current head. */
  function Settled(head: Option<Id>, journals: map<JobId, Journal>, j: JobId, r: Record): Record {
    if !r.state.PublicationUncertain? then r
    else if j in journals && head == Some(journals[j].planned) then r.(state := Completed)
    else r.(state := Stale)
  }

  function UncertainIn(store: map<JobId, Record>): set<JobId> {
    set k | k in store && store[k].state.PublicationUncertain?
  }

  /** `j` is completed by a recovery that starts from this state. */
  ghost predicate Completes(head: Option<Id>, store: map<JobId, Record>, journals: map<JobId, Journal>, j: JobId) {
    && j in store && store[j].state.PublicationUncertain?
    && j in journals && head == Some(journals[j].planned)
  }

  /** The durable fields at one moment. */
  datatype Durable = Durable(
    store: map<JobId, Record>, journals: map<JobId, Journal>, history: seq<HistoryRecord>, registry: set<string>)

  class ResolutionEngine {
    const head: Option<Id>
    var store: map<JobId, Record>
    var journals: map<JobId, Journal>
    var history: seq<HistoryRecord>
    var registry: set<string>

    /** Uncertain records carry the result they publish. */
    ghost predicate Valid()
      reads this
    {
      forall j :: j in store && store[j].state.PublicationUncertain? ==> store[j].result.Some?
    }

    constructor (
      h: Option<Id>, s: map<JobId, Record>, js: map<JobId, Journal>, hs: seq<HistoryRecord>, rs: set<string>)
      requires forall j :: j in s && s[j].state.PublicationUncertain? ==> s[j].result.Some?
      ensures Valid() && head == h && store == s && journals == js && history == hs && registry == rs
    {
      head, store, journals, history, registry := h, s, js, hs, rs;
    }

    /** Post-swap bookkeeping: history, then registry, then the record, then
        the job directory with its journal. */
    method CompletePublication(j: JobId)
      requires Valid() && j in store && store[j].state.PublicationUncertain?
      modifies this
      ensures Valid()
      ensures store == old(store)[j := old(store)[j].(state := Completed)]
      ensures journals == old(journals) - {j}
      ensures history == RecordOnce(old(history), HistoryEntry(old(store)[j]))
      ensures Recorded(history, old(store)[j]) && old(history) <= history
      ensures forall h :: h in history ==> h in old(history) || Describes(h, old(store)[j])
      ensures registry == old(registry) - {old(store)[j].job.path}
    {
      RecordOnceRecords(history, store[j]);
      var record := store[j];
      var entry := HistoryEntry(record);
      if entry !in history {
        history := history + [entry];
      }
      registry := registry - {record.job.path};
      store := store[j := record.(state := Completed)];
      journals := journals - {j};
    }

    /** Fail closed: the conflict survives for manual action. */
    method FailClosed(j: JobId)
      requires Valid() && j in store && store[j].state.PublicationUncertain?
      modifies `store, `journals
      ensures Valid()
      ensures store == old(store)[j := old(store)[j].(state := Stale)]
      ensures journals == old(journals) - {j}
    {
      store := store[j := store[j].(state := Stale)];
      journals := journals - {j};
    }

    /** Judges one record by its journal. */
    method RecoverOne(j: JobId)
      requires Valid() && j in store && store[j].state.PublicationUncertain?
      modifies this
      ensures Valid() && journals == old(journals) - {j}
      ensures store == old(store)[j := Settled(head, old(journals), j, old(store)[j])]
      ensures history == if Completes(head, old(store), old(journals), j)
                         then RecordOnce(old(history), HistoryEntry(old(store)[j])) else old(history)
      ensures registry == if Completes(head, old(store), old(journals), j)
                          then old(registry) - {old(store)[j].job.path} else old(registry)
    {
      if j in journals && head == Some(journals[j].planned) {
        CompletePublication(j);
      } else {
        FailClosed(j);
      }
    }

    /**
     * Converges every uncertain record and sweeps left-over journals. Each
     * record is judged by its own journal alone; old history is kept, and
     * exactly the completed publications enter it, none of them twice.
     */
    method RecoverUncertainPublications() returns (recovered: nat)
      requires Valid()
      modifies this
      ensures Valid() && store.Keys == old(store.Keys)
      ensures forall k :: k in store ==> store[k] == Settled(head, old(journals), k, old(store)[k])
      ensures forall k :: k in store ==> !store[k].state.PublicationUncertain? && k !in journals
      ensures RegistryAfter(old(registry), old(store), old(journals), {}, registry)
      ensures HistoryAfter(old(history), old(store), old(journals), {}, history)
      ensures forall k :: k in store && store[k].state.Completed? && !old(store)[k].state.Completed? ==>
                Recorded(history, old(store)[k])
      ensures forall h :: h in history && h !in old(history) ==>
                exists k :: k in store && store[k].state.Completed? && Describes(h, old(store)[k])
      ensures recovered == |UncertainIn(old(store))|
    {
      ghost var s0 := Durable(store, journals, history, registry);
      var uncertain := UncertainIn(store);
      ghost var all := uncertain;
      recovered := 0;
      while uncertain != {}
        invariant uncertain <= all && recovered == |all| - |uncertain|
        invariant Progress(s0, all, uncertain)
        decreases uncertain
      {
        var j := TakeAny(uncertain);
        RecoverNext(j, s0, all, uncertain);
        recovered := recovered + 1;
        uncertain := uncertain - {j};
      }
      HistoryDescribes(s0);
      SweepJournals();
    }

    /** What the history gained, in terms of the records themselves. */
    lemma HistoryDescribes(s0: Durable)
      requires HistoryAfter(s0.history, s0.store, s0.journals, {}, history)
      ensures forall k :: Completes(head, s0.store, s0.journals, k) ==> Recorded(history, s0.store[k])
      ensures forall h :: h in history && h !in s0.history ==>
                exists k :: Completes(head, s0.store, s0.journals, k) && Describes(h, s0.store[k])
    {
      forall k | Completes(head, s0.store, s0.journals, k)
        ensures Recorded(history, s0.store[k])
      {
        assert HistoryEntry(s0.store[k]) in history;
        assert Describes(HistoryEntry(s0.store[k]), s0.store[k]);
      }
      forall h | h in history && h !in s0.history
        ensures exists k :: Completes(head, s0.store, s0.journals, k) && Describes(h, s0.store[k])
      {
        var k :| k !in {} && Completes(head, s0.store, s0.journals, k) && HistoryEntry(s0.store[k]) == h;
        assert Describes(h, s0.store[k]);
      }
    }

    /** Everything outside `left` is settled, everything in it untouched. */
    ghost predicate Progress(s0: Durable, all: set<JobId>, left: set<JobId>)
      reads this
    {
      && Valid() && store.Keys == s0.store.Keys
      && (forall k :: k in store ==>
            store[k] == if k in left then s0.store[k] else Settled(head, s0.journals, k, s0.store[k]))
      && (forall k :: k in all ==> (k in journals <==> k in left && k in s0.journals))
      && (forall k :: k in journals ==> k in s0.journals && journals[k] == s0.journals[k])
      && RegistryAfter(s0.registry, s0.store, s0.journals, left, registry)
      && HistoryAfter(s0.history, s0.store, s0.journals, left, history)
    }

    method RecoverNext(j: JobId, ghost s0: Durable, ghost all: set<JobId>, ghost left: set<JobId>)
      requires Progress(s0, all, left) && j in left && left <= all && all == UncertainIn(s0.store)
      modifies this
      ensures Progress(s0, all, left - {j})
    {
      ghost var before, resolved := history, registry;
      RecoverOne(j);
      HistoryStep(s0.history, s0.store, s0.journals, left, j, before, history);
      RegistryStep(s0.registry, s0.store, s0.journals, left, j, resolved, registry);
    }

    /** Drops the journals of all stored jobs. */
    method SweepJournals()
      modifies `journals
      ensures forall k :: k in store ==> k !in journals
    {
      var sweep := set k | k in store && k in journals;
      journals := journals - sweep;
    }

    /** Outside `left`, exactly the completed jobs' paths are resolved. */
    ghost predicate RegistryAfter(
      registry0: set<string>, store0: map<JobId, Record>, journals0: map<JobId, Journal>,
      left: set<JobId>, now: set<string>)
    {
      forall p :: p in now <==>
        (p in registry0 &&
         !exists k :: k !in left && Completes(head, store0, journals0, k) && store0[k].job.path == p)
    }

    /** Outside `left`, exactly the completed jobs' records were appended,
        each only if it was not there yet. */
    ghost predicate HistoryAfter(
      history0: seq<HistoryRecord>, store0: map<JobId, Record>, journals0: map<JobId, Journal>,
      left: set<JobId>, now: seq<HistoryRecord>)
    {
      && history0 <= now
      && (forall i :: |history0| <= i < |now| ==> now[i] !in now[..i])
      && (forall k :: Completes(head, store0, journals0, k) ==> store0[k].result.Some?)
      && (forall h :: h in now <==>
            (h in history0 ||
             exists k :: k !in left && Completes(head, store0, journals0, k) && HistoryEntry(store0[k]) == h))
    }

    lemma HistoryStep(
      history0: seq<HistoryRecord>, store0: map<JobId, Record>, journals0: map<JobId, Journal>,
      left: set<JobId>, j: JobId, before: seq<HistoryRecord>, after: seq<HistoryRecord>)
      requires HistoryAfter(history0, store0, journals0, left, before) && j in left
      requires after == if Completes(head, store0, journals0, j) then RecordOnce(before, HistoryEntry(store0[j])) else before
      ensures HistoryAfter(history0, store0, journals0, left - {j}, after)
    {
      if Completes(head, store0, journals0, j) {
        var entry := HistoryEntry(store0[j]);
        assert entry in after;
        forall i | |history0| <= i < |after|
          ensures after[i] !in after[..i]
        {
          assert after[..i] == before[..i];
        }
        forall h
          ensures h in after <==>
                    (h in history0 ||
                     exists k :: k !in left - {j} && Completes(head, store0, journals0, k) && HistoryEntry(store0[k]) == h)
        {
          assert h in after <==> h in before || h == entry;
        }
      }
    }

    lemma RegistryStep(
      registry0: set<string>, store0: map<JobId, Record>, journals0: map<JobId, Journal>,
      left: set<JobId>, j: JobId, before: set<string>, after: set<string>)
      requires RegistryAfter(registry0, store0, journals0, left, before) && j in left
      requires after == if Completes(head, store0, journals0, j) then before - {store0[j].job.path} else before
      ensures RegistryAfter(registry0, store0, journals0, left - {j}, after)
    {
      forall p
        ensures p in after <==>
                  (p in registry0 &&
                   !exists k :: k !in left - {j} && Completes(head, store0, journals0, k) && store0[k].job.path == p)
      {
        if Completes(head, store0, journals0, j) {
          assert p in after <==> p in before && p != store0[j].job.path;
        }
      }
    }
  }
}
