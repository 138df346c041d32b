/** Every interleaving of signal senders and undos over one workspace head. */
module SignalRuns {
  import opened Base
  import opened SnapshotGraph
  import opened Signals

  const MAX_SEND_RETRIES: nat := 8
  const MAX_UNDO_RETRIES: nat := 8

  datatype Kind =
    | Signal(author: string, envelope: string)
    | Undo(restored: Id, backup: Option<Id>)

  /** One writer between reading the head and its last compare-and-swap. */
  datatype Writer = Writer(kind: Kind, expected: Id, candidate: Option<Id>, tries: nat)

  datatype World = World(graph: Graph, head: Id, writers: map<nat, Writer>)

  datatype Event =
    | StartSend(w: nat, author: string, envelope: string)
    | StartUndo(w: nat, restored: Id)
    | WriteBackup(w: nat, id: Id, root: Id, now: int)
    | WriteCandidate(w: nat, id: Id, now: int)
    | Swap(w: nat)
    | Crash(w: nat)

  function SignalSnapshot(g: Graph, parent: Id, author: string, envelope: string, now: int): Snapshot
    requires parent in g
  {
    Snapshot(g[parent].root, [parent], author, now, Some(envelope))
  }

  /** `id` is a signal on top of `parent`: its sender's name and envelope over
      the parent's files. */
  predicate SignalOn(g: Graph, id: Id, parent: Id, author: string, envelope: string) {
    && id in g && parent in g
    && g[id].parents == [parent] && g[id].root == g[parent].root
    && g[id].author == author && g[id].message == Some(envelope)
  }

  /** `id` undoes to `restored` on top of `parent`, keeping the backup. */
  predicate UndoOn(g: Graph, id: Id, parent: Id, restored: Id, backup: Id) {
    && id in g && restored in g
    && g[id].parents == [parent, backup] && g[id].root == g[restored].root
    && g[id].author == "you" && g[id].message == Some("undo")
  }

  predicate Enabled(s: World, e: Event) {
    match e
    case StartSend(w, _, _) => w !in s.writers
    case StartUndo(w, restored) => w !in s.writers && restored in s.graph
    case WriteBackup(w, id, _, _) =>
      w in s.writers && s.writers[w].kind.Undo? && s.writers[w].kind.backup.None? && id !in s.graph
    case WriteCandidate(w, id, _) =>
      w in s.writers && id !in s.graph && s.writers[w].candidate.None? &&
      s.writers[w].expected in s.graph &&
      (s.writers[w].kind.Undo? ==>
         s.writers[w].kind.backup.Some? && s.writers[w].kind.restored in s.graph)
    case Swap(w) => w in s.writers && s.writers[w].candidate.Some?
    case Crash(w) => w in s.writers
  }

  function MaxTries(kind: Kind): nat {
    if kind.Signal? then MAX_SEND_RETRIES else MAX_UNDO_RETRIES
  }

  function Next(s: World, e: Event): World
    requires Enabled(s, e)
  {
    match e
    case StartSend(w, author, envelope) =>
      s.(writers := s.writers[w := Writer(Signal(author, envelope), s.head, None, 0)])
    case StartUndo(w, restored) =>
      s.(writers := s.writers[w := Writer(Undo(restored, None), s.head, None, 0)])
    case WriteBackup(w, id, root, now) =>
      var t := s.writers[w];
      s.(graph := s.graph[id := Snapshot(root, [t.expected], "you", now, Some("before undo"))],
         writers := s.writers[w := t.(kind := Undo(t.kind.restored, Some(id)))])
    case WriteCandidate(w, id, now) =>
      var t := s.writers[w];
      var snapshot :=
        match t.kind
        case Signal(author, envelope) => SignalSnapshot(s.graph, t.expected, author, envelope, now)
        case Undo(restored, backup) =>
          Snapshot(s.graph[restored].root, [t.expected, backup.value], "you", now, Some("undo"));
      s.(graph := s.graph[id := snapshot], writers := s.writers[w := t.(candidate := Some(id))])
    case Swap(w) =>
      var t := s.writers[w];
      if s.head == t.expected then
        s.(head := t.candidate.value, writers := s.writers - {w})
      else if t.tries + 1 >= MaxTries(t.kind) then
        s.(writers := s.writers - {w})
      else
        // a lost swap reloads the head it lost to and plans again
        s.(writers := s.writers[w := Writer(t.kind, s.head, None, t.tries + 1)])
    case Crash(w) => s.(writers := s.writers - {w})
  }

  /** What a writer has pinned down is in the graph, and its candidate sits
      directly on the head it expects to replace. */
  ghost predicate WriterOk(g: Graph, t: Writer) {
    && t.expected in g
    && (t.kind.Undo? ==>
          t.kind.restored in g && (t.kind.backup.Some? ==> t.kind.backup.value in g))
    && (t.candidate.Some? ==>
          match t.kind
          case Signal(author, envelope) => SignalOn(g, t.candidate.value, t.expected, author, envelope)
          case Undo(restored, backup) => backup.Some? && UndoOn(g, t.candidate.value, t.expected, restored, backup.value))
  }

  ghost predicate Inv(s: World) {
    && Closed(s.graph) && Acyclic(s.graph) && s.head in s.graph
    && forall w :: w in s.writers ==> WriterOk(s.graph, s.writers[w])
  }

  lemma NextKeepsInv(s: World, e: Event)
    requires Inv(s) && Enabled(s, e)
    ensures Inv(Next(s, e)) && Extends(s.graph, Next(s, e).graph)
  {
    var s' := Next(s, e);
    match e
    case WriteBackup(w, id, root, now) =>
      FreshSnapshotKeepsGraph(s.graph, id, s'.graph[id]);
    case WriteCandidate(w, id, now) =>
      FreshSnapshotKeepsGraph(s.graph, id, s'.graph[id]);
    case _ =>
  }

  /** A step keeps the old head an ancestor of the new one. A signal that won
      carries its sender's name and envelope and keeps the file tree; an undo
      that won has the files of the snapshot it restores. */
  lemma NextKeepsHistory(s: World, e: Event)
    requires Inv(s) && Enabled(s, e)
    ensures Reaches(Next(s, e).graph, Next(s, e).head, s.head)
    ensures e.Swap? && s.writers[e.w].kind.Signal? ==>
              Next(s, e).graph[Next(s, e).head].root == s.graph[s.head].root
    ensures Next(s, e).head != s.head ==>
              && e.Swap?
              && match s.writers[e.w].kind
                 case Signal(author, envelope) => SignalOn(Next(s, e).graph, Next(s, e).head, s.head, author, envelope)
                 case Undo(restored, backup) =>
                   backup.Some? && UndoOn(Next(s, e).graph, Next(s, e).head, s.head, restored, backup.value)
  {
    var s' := Next(s, e);
    if s'.head == s.head {
      ReachesSelf(s'.graph, s.head);
    } else {
      ReachesParent(s.graph, s'.head, s.head);
    }
  }

  // ----- whole runs

  ghost predicate IsRun(run: seq<World>, events: seq<Event>) {
    && |run| == |events| + 1
    && Inv(run[0])
    && forall i :: 0 <= i < |events| ==> Enabled(run[i], events[i]) && run[i + 1] == Next(run[i], events[i])
  }

  lemma {:induction false} RunKeepsInv(run: seq<World>, events: seq<Event>, i: nat)
    requires IsRun(run, events) && i < |run|
    ensures Inv(run[i])
  {
    if i > 0 {
      RunKeepsInv(run, events, i - 1);
      NextKeepsInv(run[i - 1], events[i - 1]);
    }
  }

  /** Every former head stays an ancestor of every later head. */
  lemma {:induction false} HeadsStayAncestors(run: seq<World>, events: seq<Event>, i: nat, j: nat)
    requires IsRun(run, events) && i <= j < |run|
    ensures Inv(run[i]) && Inv(run[j]) && Extends(run[i].graph, run[j].graph)
    ensures Reaches(run[j].graph, run[j].head, run[i].head)
    decreases j
  {
    RunKeepsInv(run, events, i);
    RunKeepsInv(run, events, j);
    if i == j {
      ReachesSelf(run[i].graph, run[i].head);
    } else {
      HeadsStayAncestors(run, events, i, j - 1);
      NextKeepsInv(run[j - 1], events[j - 1]);
      NextKeepsHistory(run[j - 1], events[j - 1]);
      ReachesStable(run[j - 1].graph, run[j].graph, run[j - 1].head, run[i].head);
      ReachesTransitive(run[j].graph, run[j].head, run[j - 1].head, run[i].head);
    }
  }

  /** What the head of `s` reaches. */
  ghost predicate Seen(s: World, x: Id) {
    Reaches(s.graph, s.head, x)
  }

  /** The delta between two moments of a run, in terms of each moment alone. */
  lemma DeltaOfMoments(run: seq<World>, events: seq<Event>, i: nat, j: nat, x: Id)
    requires IsRun(run, events) && i <= j < |run|
    ensures InDelta(run[j].graph, run[j].head, Some(run[i].head), x) <==> Seen(run[j], x) && !Seen(run[i], x)
    ensures Seen(run[i], x) ==> Seen(run[j], x) && x in run[i].graph && x in run[j].graph
  {
    HeadsStayAncestors(run, events, i, j);
    ReachesStable(run[i].graph, run[j].graph, run[i].head, x);
    if Seen(run[i], x) {
      ReachesTransitive(run[j].graph, run[j].head, run[i].head, x);
      ReachesStaysClosed(run[i].graph, run[i].head, x);
    }
    if Seen(run[j], x) {
      ReachesStaysClosed(run[j].graph, run[j].head, x);
    }
  }

  /** `times` are the moments of successive reads; `got[k]` is what the
      read at `times[k + 1]` returned when given the cursor of `times[k]`, as
      `Signals.CollectSignals` promises when it does not reset. */
  ghost predicate Reader(
    run: seq<World>, codec: Codec, recipient: Option<string>, times: seq<nat>, got: seq<seq<AgentMessage>>)
  {
    && |times| == |got| + 1
    && (forall k :: 0 <= k < |times| ==> times[k] < |run|)
    && (forall k :: 0 <= k < |got| ==> times[k] <= times[k + 1])
    && forall k, m :: 0 <= k < |got| ==>
         (m in got[k] <==>
          InDeltaMessages(run[times[k + 1]].graph, codec, run[times[k + 1]].head,
                          Some(run[times[k]].head), recipient, m))
  }

  lemma {:induction false} TimesIncrease(times: seq<nat>, i: nat, j: nat)
    requires forall k :: 0 <= k < |times| - 1 ==> times[k] <= times[k + 1]
    requires i <= j < |times|
    ensures times[i] <= times[j]
    decreases j
  {
    if i < j {
      TimesIncrease(times, i, j - 1);
    }
  }

  /** The reads of a chain of cursors are disjoint... */
  lemma DeliveredAtMostOnce(
    run: seq<World>, events: seq<Event>, codec: Codec, recipient: Option<string>,
    times: seq<nat>, got: seq<seq<AgentMessage>>, a: nat, b: nat, m: AgentMessage)
    requires IsRun(run, events) && Reader(run, codec, recipient, times, got)
    requires a < |got| && b < |got| && m in got[a] && m in got[b]
    ensures a == b
  {
    if a < b {
      TimesIncrease(times, a + 1, b);
      DeltaOfMoments(run, events, times[a], times[a + 1], m.messageId);
      DeltaOfMoments(run, events, times[a + 1], times[b], m.messageId);
      DeltaOfMoments(run, events, times[b], times[b + 1], m.messageId);
    } else if b < a {
      DeliveredAtMostOnce(run, events, codec, recipient, times, got, b, a, m);
    }
  }

  /** ... and together they are everything between the first and last cursor. */
  lemma {:induction false} DeliveredAtLeastOnce(
    run: seq<World>, events: seq<Event>, codec: Codec, recipient: Option<string>,
    times: seq<nat>, got: seq<seq<AgentMessage>>, m: AgentMessage)
    requires IsRun(run, events) && Reader(run, codec, recipient, times, got)
    ensures (exists k :: 0 <= k < |got| && m in got[k]) <==>
            InDeltaMessages(run[times[|got|]].graph, codec, run[times[|got|]].head,
                            Some(run[times[0]].head), recipient, m)
    decreases |got|
  {
    var n := |got|;
    TimesIncrease(times, 0, n);
    if n == 0 {
      DeltaOfMoments(run, events, times[0], times[0], m.messageId);
    } else {
      ReaderSplits(run, codec, recipient, times, got, m);
      DeliveredAtLeastOnce(run, events, codec, recipient, times[..n], got[..n - 1], m);
      TimesIncrease(times, 0, n - 1);
      SpanSplits(run, events, codec, recipient, times[0], times[n - 1], times[n], m);
      LastOrEarlier(got, m);
    }
  }

  /** The reads before the last, and the last. */
  lemma ReaderSplits(
    run: seq<World>, codec: Codec, recipient: Option<string>, times: seq<nat>, got: seq<seq<AgentMessage>>, m: AgentMessage)
    requires Reader(run, codec, recipient, times, got) && got != []
    ensures var n := |got|;
            && Reader(run, codec, recipient, times[..n], got[..n - 1])
            && times[n - 1] <= times[n] && times[n] < |run|
            && (m in got[n - 1] <==> Between(run, codec, recipient, times[n - 1], times[n], m))
  {
    var n := |got|;
    assert m in got[n - 1] <==> Between(run, codec, recipient, times[n - 1], times[n - 1 + 1], m);
  }

  lemma LastOrEarlier(got: seq<seq<AgentMessage>>, m: AgentMessage)
    requires got != []
    ensures var n := |got| - 1;
            (exists k :: 0 <= k < |got| && m in got[k]) <==>
            m in got[n] || exists k :: 0 <= k < |got[..n]| && m in got[..n][k]
  {
    var n := |got| - 1;
    if k :| 0 <= k < |got| && m in got[k] {
      assert k == n || m in got[..n][k];
    }
  }

  /** `m` was published between two moments of the run. */
  ghost predicate Between(run: seq<World>, codec: Codec, recipient: Option<string>, i: nat, j: nat, m: AgentMessage)
    requires i < |run| && j < |run|
  {
    InDeltaMessages(run[j].graph, codec, run[j].head, Some(run[i].head), recipient, m)
  }

  /** What lies between two moments lies before or after a third one. */
  lemma SpanSplits(
    run: seq<World>, events: seq<Event>, codec: Codec, recipient: Option<string>,
    i: nat, j: nat, k: nat, m: AgentMessage)
    requires IsRun(run, events) && i <= j <= k < |run|
    ensures Between(run, codec, recipient, i, k, m) <==>
            Between(run, codec, recipient, i, j, m) || Between(run, codec, recipient, j, k, m)
  {
    DeltaOfMoments(run, events, i, j, m.messageId);
    DeltaOfMoments(run, events, j, k, m.messageId);
    DeltaOfMoments(run, events, i, k, m.messageId);
    HeadsStayAncestors(run, events, j, k);
  }

  /** Successive reads that pass the cursor on deliver each signal exactly once. */
  lemma ExactlyOnceDelivery(
    run: seq<World>, events: seq<Event>, codec: Codec, recipient: Option<string>,
    times: seq<nat>, got: seq<seq<AgentMessage>>, m: AgentMessage)
    requires IsRun(run, events) && Reader(run, codec, recipient, times, got)
    requires InDeltaMessages(run[times[|got|]].graph, codec, run[times[|got|]].head,
                             Some(run[times[0]].head), recipient, m)
    ensures exists k :: 0 <= k < |got| && m in got[k] &&
              forall j :: 0 <= j < |got| && m in got[j] ==> j == k
  {
    DeliveredAtLeastOnce(run, events, codec, recipient, times, got, m);
    var k :| 0 <= k < |got| && m in got[k];
    forall j | 0 <= j < |got| && m in got[j]
      ensures j == k
    {
      DeliveredAtMostOnce(run, events, codec, recipient, times, got, j, k, m);
    }
  }

  // ----- the send loop itself

  /** What another writer publishes just before one swap of the sender. */
  datatype Rival = Rival(root: Id, author: string, message: Option<string>, now: int)

  class Workspace {
    var graph: Graph
    var head: Id

    constructor (g: Graph, h: Id)
      requires Closed(g) && Acyclic(g) && h in g
      ensures Valid() && graph == g && head == h
    {
      graph, head := g, h;
    }

    ghost predicate Valid()
      reads this
    {
      Closed(graph) && Acyclic(graph) && head in graph
    }

    /** An id no stored snapshot has. */
    method FreshId() returns (id: Id)
      ensures id !in graph
    {
      id := 0;
      ghost var below: set<Id> := {};
      while id in graph
        invariant below <= graph.Keys && forall x :: x in below ==> x < id
        decreases |graph.Keys - below|
      {
        assert graph.Keys - below == (graph.Keys - (below + {id})) + {id};
        below := below + {id};
        id := id + 1;
      }
    }

    method PutSnapshot(s: Snapshot) returns (id: Id)
      requires Valid() && forall p :: p in s.parents ==> p in graph
      modifies `graph
      ensures Valid() && id !in old(graph) && graph == old(graph)[id := s]
      ensures Extends(old(graph), graph)
    {
      id := FreshId();
      FreshSnapshotKeepsGraph(graph, id, s);
      graph := graph[id := s];
    }

    method SwapHead(expected: Id, candidate: Id) returns (conflict: Option<Id>)
      requires Valid() && candidate in graph
      modifies `head
      ensures Valid()
      ensures if old(head) == expected then conflict == None && head == candidate
              else conflict == Some(old(head)) && head == old(head)
    {
      if head == expected {
        head := candidate;
        return None;
      }
      return Some(head);
    }

    /** One foreign append, or nothing. */
    method Interfere(rival: Option<Rival>)
      requires Valid()
      modifies this
      ensures Valid() && Extends(old(graph), graph)
      ensures rival.None? ==> head == old(head) && graph == old(graph)
      ensures rival.Some? ==> head !in old(graph) && graph.Keys == old(graph).Keys + {head}
      ensures rival.Some? ==> graph[head].parents == [old(head)]
    {
      if rival.Some? {
        var id := PutSnapshot(
          Snapshot(rival.value.root, [head], rival.value.author, rival.value.now, rival.value.message));
        head := id;
      }
    }

    /** Somebody else moves the head just before attempt `i`. */
    static predicate MeetsRival(rivals: seq<Option<Rival>>, i: int) {
      0 <= i < |rivals| && rivals[i].Some?
    }

    /** None of the written candidates is published. */
    ghost predicate Unpublished(candidates: set<Id>)
      reads this
    {
      forall c :: c in candidates ==> c in graph && !Reaches(graph, head, c)
    }

    /**
     * Appends one signal with at most MAX_SEND_RETRIES swaps while others
     * keep moving the head. It fails exactly when every attempt met a rival,
     * and then none of its candidates is reachable. A sent signal is the
     * head, sits on a head that descends from the one the sender started at,
     * and carries that latest head's file tree; the candidates of its lost
     * attempts stay unreachable.
     */
    method SendMessage(author: string, envelope: string, now: int, rivals: seq<Option<Rival>>)
      returns (sent: Option<Id>, ghost candidates: set<Id>)
      requires Valid()
      modifies this
      ensures Valid() && Extends(old(graph), graph) && Reaches(graph, head, old(head))
      ensures sent.None? <==> forall i :: 0 <= i < MAX_SEND_RETRIES ==> MeetsRival(rivals, i)
      ensures forall c :: c in candidates ==> c !in old(graph)
      ensures Unpublished(if sent.Some? then candidates - {sent.value} else candidates)
      ensures sent.Some? ==>
                && sent.value == head && sent.value in candidates
                && |graph[head].parents| == 1
                && var parent := graph[head].parents[0];
                   && parent in graph && Reaches(graph, parent, old(head))
                   && SignalOn(graph, head, parent, author, envelope) && graph[head].createdAtMs == now
    {
      ReachesSelf(graph, head);
      var expected := head;
      candidates := {};
      for i := 0 to MAX_SEND_RETRIES
        invariant Valid() && Extends(old(graph), graph) && Reaches(graph, head, old(head))
        invariant expected == head
        invariant forall c :: c in candidates ==> c !in old(graph)
        invariant Unpublished(candidates)
        invariant forall k :: 0 <= k < i ==> MeetsRival(rivals, k)
      {
        var candidate := PutCandidate(expected, author, envelope, now, candidates);
        if i < |rivals| {
          Meanwhile(rivals[i], expected, candidate, candidates + {candidate});
        }
        candidates := candidates + {candidate};
        var conflict := SwapHead(expected, candidate);
        if conflict.None? {
          assert !MeetsRival(rivals, i);
          OldStayUnpublished(graph, candidate, expected, candidates - {candidate});
          return Some(candidate), candidates;
        }
        expected := conflict.value;
      }
      return None, candidates;
    }

    /** Writes the candidate over the head; nothing reachable changes. */
    method PutCandidate(expected: Id, author: string, envelope: string, now: int, ghost earlier: set<Id>)
      returns (id: Id)
      requires Valid() && expected == head && Unpublished(earlier)
      modifies `graph
      ensures Valid() && id !in old(graph) && Extends(old(graph), graph)
      ensures SignalOn(graph, id, expected, author, envelope) && graph[id].createdAtMs == now
      ensures forall x, y :: x in old(graph) ==> (Reaches(graph, x, y) <==> Reaches(old(graph), x, y))
      ensures Unpublished(earlier + {id})
    {
      ghost var before := graph;
      id := PutSnapshot(SignalSnapshot(graph, expected, author, envelope, now));
      forall x, y | x in before
        ensures Reaches(graph, x, y) <==> Reaches(before, x, y)
      {
        ReachesStable(before, graph, x, y);
      }
      if Reaches(before, head, id) {
        ReachesStaysClosed(before, head, id);
      }
    }

    /** Interference keeps what the sender knows about its own snapshots. */
    method Meanwhile(rival: Option<Rival>, ghost expected: Id, ghost candidate: Id, ghost candidates: set<Id>)
      requires Valid() && expected == head && candidate in graph && Unpublished(candidates)
      modifies this
      ensures Valid() && Extends(old(graph), graph) && (head != expected <==> rival.Some?)
      ensures forall y :: Reaches(old(graph), old(head), y) ==> Reaches(graph, head, y)
      ensures forall x, y :: x in old(graph) ==> (Reaches(graph, x, y) <==> Reaches(old(graph), x, y))
      ensures Unpublished(candidates)
    {
      ghost var before, oldHead := graph, head;
      Interfere(rival);
      forall x, y | x in before
        ensures Reaches(graph, x, y) <==> Reaches(before, x, y)
      {
        ReachesStable(before, graph, x, y);
      }
      if rival.Some? {
        OneParent(graph, head, oldHead);
      }
    }
  }

  lemma OldStayUnpublished(g: Graph, head: Id, parent: Id, candidates: set<Id>)
    requires head in g && g[head].parents == [parent]
    requires forall c :: c in candidates ==> c != head && !Reaches(g, parent, c)
    ensures forall c :: c in candidates ==> !Reaches(g, head, c)
    ensures forall y :: Reaches(g, parent, y) ==> Reaches(g, head, y)
  {
    OneParent(g, head, parent);
  }
}
