/** Encrypted agent signals and the reachability-delta inbox. */
module Signals {
  import opened Base
  import opened Sorting
  import opened SnapshotGraph

  const MAX_SIGNAL_SCAN: nat := 10_000

  datatype MessageKind = Request | Status | ResultReply | BlockedReply

  datatype Payload = Payload(to: string, kind: MessageKind, body: string, about: Id, replyTo: Option<Id>)

  datatype AgentMessage = AgentMessage(
    messageId: Id,
    from: string,
    to: string,
    kind: MessageKind,
    body: string,
    about: Id,
    replyTo: Option<Id>,
    createdAtMs: int)

  /** The envelope parser and the agent-name check, both deterministic. */
  datatype Codec = Codec(parse: string -> Option<Payload>, validName: string -> bool)

  datatype InboxResult = InboxResult(cursor: Option<Id>, cursorReset: bool, messages: seq<AgentMessage>)

  datatype ReadError = Unloadable(id: Id)

  /** `m` is the signal that snapshot `s` carries for `recipient`: a signal of
      a named author with a well-formed envelope, addressed to the recipient or
      to everybody, or read by anyone when there is no recipient. */
  ghost predicate IsSignal(codec: Codec, id: Id, s: Snapshot, recipient: Option<string>, m: AgentMessage) {
    && s.author != "*" && codec.validName(s.author)
    && s.message.Some? && codec.parse(s.message.value).Some?
    && var p := codec.parse(s.message.value).value;
       && (recipient.None? || recipient == Some(p.to) || p.to == "*")
       && m.messageId == id && m.from == s.author && m.createdAtMs == s.createdAtMs
       && m.to == p.to && m.kind == p.kind && m.body == p.body && m.about == p.about && m.replyTo == p.replyTo
  }

  /** The message one snapshot delivers to `recipient` (to anyone when None). */
  function Deliver(codec: Codec, id: Id, s: Snapshot, recipient: Option<string>): (r: Option<AgentMessage>)
    ensures r.Some? ==> IsSignal(codec, id, s, recipient, r.value)
    ensures forall m :: IsSignal(codec, id, s, recipient, m) ==> r == Some(m)
  {
    if s.message.None? then None else
      match codec.parse(s.message.value)
      case None => None
      case Some(p) =>
        if s.author == "*" || !codec.validName(s.author) then None
        else if recipient.Some? && p.to != recipient.value && p.to != "*" then None
        else Some(AgentMessage(id, s.author, p.to, p.kind, p.body, p.about, p.replyTo, s.createdAtMs))
  }

  /** reachable(head) minus reachable(after). */
  ghost predicate InDelta(g: Graph, head: Id, after: Option<Id>, id: Id) {
    id in g && Reaches(g, head, id) && !(after.Some? && Reaches(g, after.value, id))
  }

  /** `m` is what some snapshot of the delta delivers. */
  ghost predicate InDeltaMessages(
    g: Graph, codec: Codec, head: Id, after: Option<Id>, recipient: Option<string>, m: AgentMessage)
  {
    InDelta(g, head, after, m.messageId) && IsSignal(codec, m.messageId, g[m.messageId], recipient, m)
  }

  /** Newest first, ties by larger id. */
  predicate NewerFirst(a: AgentMessage, b: AgentMessage) {
    a.createdAtMs > b.createdAtMs || (a.createdAtMs == b.createdAtMs && a.messageId >= b.messageId)
  }

  /** Later before earlier; of two with the same time the larger id first. */
  ghost predicate NewestFirst(ms: seq<AgentMessage>) {
    forall i, j :: 0 <= i < j < |ms| ==>
      && ms[i].createdAtMs >= ms[j].createdAtMs
      && (ms[i].createdAtMs == ms[j].createdAtMs ==> ms[i].messageId >= ms[j].messageId)
  }

  /** Each message is a signal of a snapshot the head reaches. */
  ghost predicate AllReal(
    g: Graph, codec: Codec, head: Id, recipient: Option<string>, ms: seq<AgentMessage>)
  {
    forall m :: m in ms ==>
      && m.messageId in g && Reaches(g, head, m.messageId)
      && IsSignal(codec, m.messageId, g[m.messageId], recipient, m)
  }

  predicate ScanRequiresCursorReset(after: Option<Id>, exhausted: bool, afterFound: bool) {
    exhausted || (after.Some? && !afterFound)
  }

  datatype HeadWalk = HeadWalk(
    candidates: seq<Id>,
    loaded: Graph,
    afterFound: bool,
    exhausted: bool,
    sawMerge: bool)

  ghost predicate LoadedFrom(g: Graph, loaded: Graph) {
    forall x :: x in loaded ==> x in g && loaded[x] == g[x]
  }

  /** What the first walk guarantees, and all the rest relies on. */
  ghost predicate HeadWalkSpec(g: Graph, head: Id, after: Option<Id>, w: HeadWalk) {
    && Distinct(w.candidates)
    && LoadedFrom(g, w.loaded)
    && |w.loaded| <= MAX_SIGNAL_SCAN
    && (forall c :: c in w.candidates ==>
          c in w.loaded && Reaches(g, head, c) && after != Some(c))
    && (forall x :: x in w.loaded ==> Reaches(g, head, x))
    && (w.exhausted ==> ScanOverflow(g, head, w.loaded))
    && (!w.exhausted ==>
          && (after.Some? ==> (w.afterFound <==> Reaches(g, head, after.value)))
          && forall y :: Reaches(g, head, y) ==> Covered(g, after, w, y))
    && (!w.exhausted && !w.sawMerge && after.Some? && w.afterFound ==>
          forall c :: c in w.candidates ==> Reaches(g, c, after.value))
  }

  ghost predicate Covered(g: Graph, after: Option<Id>, w: HeadWalk, y: Id) {
    y in w.candidates || (after.Some? && Reaches(g, after.value, y))
  }

  /** The budget is spent and one more reachable snapshot was still waiting. */
  ghost predicate ScanOverflow(g: Graph, head: Id, loaded: Graph) {
    |loaded| >= MAX_SIGNAL_SCAN && exists x :: x !in loaded && Reaches(g, head, x)
  }

  // ----- invariants of the first walk

  /** Parents of an expanded snapshot are expanded, waiting, or the cursor. */
  ghost predicate Frontier(g: Graph, seen: set<Id>, candidates: seq<Id>, pending: seq<Id>) {
    forall c, p :: c in candidates && c in g && p in g[c].parents ==> p in seen || p in pending
  }

  /** While no merge has been met the walk is one chain: every candidate
      leads to the single waiting snapshot, or to the cursor once found. */
  ghost predicate Chain(g: Graph, after: Option<Id>, candidates: seq<Id>, pending: seq<Id>, afterFound: bool) {
    after.Some? ==>
      || (|pending| == 1 && !afterFound && forall c :: c in candidates ==> Reaches(g, c, pending[0]))
      || (pending == [] && (afterFound ==> forall c :: c in candidates ==> Reaches(g, c, after.value)))
  }

  lemma FrontierSkip(g: Graph, seen: set<Id>, seen': set<Id>, candidates: seq<Id>, id: Id, rest: seq<Id>)
    requires Frontier(g, seen, candidates, [id] + rest) && seen <= seen' && id in seen'
    ensures Frontier(g, seen', candidates, rest)
  {
  }

  lemma FrontierExpand(g: Graph, seen: set<Id>, candidates: seq<Id>, id: Id, rest: seq<Id>)
    requires Frontier(g, seen, candidates, [id] + rest) && id in g
    ensures Frontier(g, seen + {id}, candidates + [id], rest + g[id].parents)
  {
  }

  /** Following edges inside the walked set never leaves it, except through
      the cursor. */
  lemma {:induction false} WalkedSetIsClosed(
    g: Graph, seen: set<Id>, candidates: seq<Id>, after: Option<Id>, a: Id, y: Id, n: nat)
    requires Frontier(g, seen, candidates, [])
    requires forall x :: x in seen ==> x in candidates || after == Some(x)
    requires a in seen && Steps(g, a, y, n)
    ensures y in candidates || (after.Some? && after.value in seen && Reaches(g, after.value, y))
    decreases n
  {
    if after == Some(a) {
      assert Reaches(g, after.value, y);
    } else if n > 0 {
      var p :| p in g[a].parents && Steps(g, p, y, n - 1);
      WalkedSetIsClosed(g, seen, candidates, after, p, y, n - 1);
    }
  }

  /** The finished walk covers everything the head reaches. */
  lemma WalkCovers(g: Graph, head: Id, seen: set<Id>, after: Option<Id>, w: HeadWalk)
    requires Frontier(g, seen, w.candidates, []) && head in seen
    requires forall x :: x in seen <==> x in w.candidates || (w.afterFound && after == Some(x))
    requires after.Some? ==> after.value !in w.candidates
    ensures forall y :: Reaches(g, head, y) ==> Covered(g, after, w, y)
    ensures after.Some? && Reaches(g, head, after.value) ==> w.afterFound
  {
    forall y | Reaches(g, head, y)
      ensures Covered(g, after, w, y)
      ensures after == Some(y) ==> w.afterFound
    {
      var n: nat :| Steps(g, head, y, n);
      WalkedSetIsClosed(g, seen, w.candidates, after, head, y, n);
    }
  }

  lemma ChainStep(g: Graph, candidates: seq<Id>, id: Id)
    requires id in g && |g[id].parents| == 1
    requires forall c :: c in candidates ==> Reaches(g, c, id)
    ensures forall c :: c in candidates + [id] ==> Reaches(g, c, g[id].parents[0])
  {
    ReachesSelf(g, id);
    forall c | c in candidates + [id]
      ensures Reaches(g, c, g[id].parents[0])
    {
      ReachesStep(g, c, id, g[id].parents[0]);
    }
  }

  /** Everything the first walk knows between two snapshots. */
  ghost predicate Walking(g: Graph, head: Id, after: Option<Id>, seen: set<Id>, pending: seq<Id>, w: HeadWalk) {
    && Distinct(w.candidates) && LoadedFrom(g, w.loaded) && w.loaded.Keys == seen && |w.loaded| <= MAX_SIGNAL_SCAN
    && (forall x :: x in seen ==> Reaches(g, head, x))
    && (forall p :: p in pending ==> Reaches(g, head, p))
    && (forall x :: x in seen <==> x in w.candidates || (w.afterFound && after == Some(x)))
    && (after.Some? ==> after.value !in w.candidates)
    && (head in seen || head in pending)
    && Frontier(g, seen, w.candidates, pending)
    && (!w.sawMerge ==> Chain(g, after, w.candidates, pending, w.afterFound))
  }

  lemma WalkSkip(g: Graph, head: Id, after: Option<Id>, seen: set<Id>, id: Id, rest: seq<Id>, w: HeadWalk)
    requires Walking(g, head, after, seen, [id] + rest, w)
    ensures Reaches(g, head, id)
    ensures id in seen ==> Walking(g, head, after, seen, rest, w)
  {
    assert id in [id] + rest;
    if id in seen {
      FrontierSkip(g, seen, seen, w.candidates, id, rest);
    }
  }

  function Loading(w: HeadWalk, id: Id, s: Snapshot): HeadWalk {
    w.(loaded := w.loaded[id := s])
  }

  /** The cursor is reached: it is loaded, and the walk does not go past it. */
  lemma WalkCursor(g: Graph, head: Id, after: Option<Id>, seen: set<Id>, id: Id, rest: seq<Id>, w: HeadWalk)
    requires Walking(g, head, after, seen, [id] + rest, w) && after == Some(id)
    requires id in g && id !in seen && |w.loaded| < MAX_SIGNAL_SCAN
    ensures Walking(g, head, after, seen + {id}, rest, Loading(w, id, g[id]).(afterFound := true))
  {
    assert id in [id] + rest;
    FrontierSkip(g, seen, seen + {id}, w.candidates, id, rest);
    KeysOfUpdate(w.loaded, id, g[id]);
  }

  function Expanded(w: HeadWalk, id: Id, s: Snapshot): HeadWalk {
    Loading(w, id, s).(candidates := w.candidates + [id], sawMerge := w.sawMerge || |s.parents| > 1)
  }

  lemma ExpandKeepsChain(g: Graph, after: Option<Id>, id: Id, rest: seq<Id>, w: HeadWalk)
    requires id in g && Chain(g, after, w.candidates, [id] + rest, w.afterFound) && |g[id].parents| <= 1
    ensures Chain(g, after, w.candidates + [id], rest + g[id].parents, w.afterFound)
  {
    if after.Some? && |g[id].parents| == 1 {
      ChainStep(g, w.candidates, id);
      assert rest + g[id].parents == g[id].parents;
    }
  }

  lemma WalkExpand(g: Graph, head: Id, after: Option<Id>, seen: set<Id>, id: Id, rest: seq<Id>, w: HeadWalk)
    requires Walking(g, head, after, seen, [id] + rest, w) && after != Some(id)
    requires id in g && id !in seen && |w.loaded| < MAX_SIGNAL_SCAN
    ensures Walking(g, head, after, seen + {id}, rest + g[id].parents, Expanded(w, id, g[id]))
  {
    assert id in [id] + rest;
    FrontierExpand(g, seen, w.candidates, id, rest);
    KeysOfUpdate(w.loaded, id, g[id]);
    forall p | p in g[id].parents
      ensures Reaches(g, head, p)
    {
      ReachesStep(g, head, id, p);
    }
    if !w.sawMerge && |g[id].parents| <= 1 {
      ExpandKeepsChain(g, after, id, rest, w);
    }
  }

  lemma WalkDone(g: Graph, head: Id, after: Option<Id>, seen: set<Id>, w: HeadWalk)
    requires Walking(g, head, after, seen, [], w) && !w.exhausted
    ensures HeadWalkSpec(g, head, after, w)
  {
    WalkCovers(g, head, seen, after, w);
  }

  lemma WalkRest(g: Graph, head: Id, after: Option<Id>, seen: set<Id>, id: Id, rest: seq<Id>, w: HeadWalk)
    requires Walking(g, head, after, seen, [id] + rest, w) && |w.loaded| >= MAX_SIGNAL_SCAN && id !in seen
    ensures HeadWalkSpec(g, head, after, w.(exhausted := true))
  {
    assert id in [id] + rest;
    assert id !in w.loaded;
  }

  /** First walk: everything the head reaches, not going past the cursor. */
  method WalkFromHead(g: Graph, head: Id, after: Option<Id>) returns (r: Result<HeadWalk, ReadError>)
    ensures r.Ok? ==> HeadWalkSpec(g, head, after, r.value)
    ensures r.Err? ==> r.error.id !in g && Reaches(g, head, r.error.id)
  {
    ReachesSelf(g, head);
    var pending := [head];
    var seen: set<Id> := {};
    var w := HeadWalk([], map[], after.None?, false, false);
    while pending != []
      invariant Walking(g, head, after, seen, pending, w) && !w.exhausted
      decreases MAX_SIGNAL_SCAN - |w.loaded|, |pending|
    {
      var id, rest := pending[0], pending[1..];
      assert pending == [id] + rest;
      WalkSkip(g, head, after, seen, id, rest, w);
      pending := rest;
      if id in seen {
        continue;
      }
      if |w.loaded| >= MAX_SIGNAL_SCAN {
        WalkRest(g, head, after, seen, id, rest, w);
        return Ok(w.(exhausted := true));
      }
      if id !in g {
        return Err(Unloadable(id));
      }
      KeysOfUpdate(w.loaded, id, g[id]);
      if after == Some(id) {
        WalkCursor(g, head, after, seen, id, rest, w);
        w := Loading(w, id, g[id]).(afterFound := true);
      } else {
        WalkExpand(g, head, after, seen, id, rest, w);
        pending := rest + g[id].parents;
        w := Expanded(w, id, g[id]);
      }
      seen := seen + {id};
    }
    WalkDone(g, head, after, seen, w);
    return Ok(w);
  }

  // ----- second walk

  /** Paints the cursor's whole ancestry, loading what the first walk did not. */
  method PaintAncestry(g: Graph, after: Id, walked: Graph)
    returns (r: Result<(set<Id>, bool, Graph), ReadError>)
    requires LoadedFrom(g, walked) && |walked| <= MAX_SIGNAL_SCAN
    ensures r.Err? ==> r.error.id !in g && Reaches(g, after, r.error.id)
    ensures r.Ok? ==> LoadedFrom(g, r.value.2)
    ensures r.Ok? ==> forall x :: x in r.value.2 ==> x in walked || Reaches(g, after, x)
    ensures r.Ok? && r.value.1 ==> ScanOverflow(g, after, r.value.2)
    ensures r.Ok? && !r.value.1 ==> forall y :: y in r.value.0 <==> Reaches(g, after, y)
  {
    ReachesSelf(g, after);
    var pending := [after];
    var ancestry: set<Id> := {};
    var loaded := walked;
    while pending != []
      invariant Painting(g, after, walked, ancestry, pending, loaded)
      decreases MAX_SIGNAL_SCAN - |loaded|, |loaded.Keys - ancestry|, |pending|
    {
      var id, rest := pending[0], pending[1..];
      assert pending == [id] + rest;
      PaintSkip(g, after, walked, ancestry, id, rest, loaded);
      pending := rest;
      if id in ancestry {
        continue;
      }
      if id !in loaded {
        if |loaded| >= MAX_SIGNAL_SCAN {
          return Ok(({}, true, loaded));
        }
        if id !in g {
          return Err(Unloadable(id));
        }
        PaintLoad(g, after, walked, ancestry, [id] + rest, loaded, id);
        loaded := loaded[id := g[id]];
      } else {
        OneLessLeft(loaded.Keys, ancestry, id);
      }
      PaintExpand(g, after, walked, ancestry, id, rest, loaded);
      ancestry := ancestry + {id};
      pending := rest + loaded[id].parents;
    }
    AncestryComplete(g, after, walked, ancestry, loaded);
    return Ok((ancestry, false, loaded));
  }

  /** Everything the second walk knows between two snapshots. */
  ghost predicate Painting(g: Graph, after: Id, walked: Graph, ancestry: set<Id>, pending: seq<Id>, loaded: Graph) {
    && LoadedFrom(g, loaded) && |loaded| <= MAX_SIGNAL_SCAN
    && (forall x :: x in loaded ==> x in walked || Reaches(g, after, x))
    && (forall x :: x in ancestry ==> x in loaded && Reaches(g, after, x))
    && (forall p :: p in pending ==> Reaches(g, after, p))
    && (after in ancestry || after in pending)
    && AncestryFrontier(g, ancestry, pending)
  }

  lemma PaintSkip(g: Graph, after: Id, walked: Graph, ancestry: set<Id>, id: Id, rest: seq<Id>, loaded: Graph)
    requires Painting(g, after, walked, ancestry, [id] + rest, loaded)
    ensures Reaches(g, after, id)
    ensures id in ancestry ==> Painting(g, after, walked, ancestry, rest, loaded)
  {
    assert id in [id] + rest;
  }

  lemma PaintLoad(g: Graph, after: Id, walked: Graph, ancestry: set<Id>, pending: seq<Id>, loaded: Graph, id: Id)
    requires Painting(g, after, walked, ancestry, pending, loaded) && Reaches(g, after, id)
    requires id in g && id !in loaded && |loaded| < MAX_SIGNAL_SCAN
    ensures Painting(g, after, walked, ancestry, pending, loaded[id := g[id]])
    ensures |loaded[id := g[id]]| == |loaded| + 1
  {
    KeysOfUpdate(loaded, id, g[id]);
  }

  lemma PaintExpand(g: Graph, after: Id, walked: Graph, ancestry: set<Id>, id: Id, rest: seq<Id>, loaded: Graph)
    requires Painting(g, after, walked, ancestry, [id] + rest, loaded) && id in loaded
    ensures Painting(g, after, walked, ancestry + {id}, rest + loaded[id].parents, loaded)
  {
    assert id in [id] + rest;
    AncestryExpand(g, ancestry, id, rest);
    forall p | p in g[id].parents
      ensures Reaches(g, after, p)
    {
      ReachesStep(g, after, id, p);
    }
  }

  lemma AncestryComplete(g: Graph, after: Id, walked: Graph, ancestry: set<Id>, loaded: Graph)
    requires Painting(g, after, walked, ancestry, [], loaded)
    ensures forall y :: y in ancestry <==> Reaches(g, after, y)
  {
    forall y | Reaches(g, after, y)
      ensures y in ancestry
    {
      var n: nat :| Steps(g, after, y, n);
      AncestryIsClosed(g, ancestry, after, y, n);
    }
  }

  ghost predicate AncestryFrontier(g: Graph, ancestry: set<Id>, pending: seq<Id>) {
    forall a, p :: a in ancestry && a in g && p in g[a].parents ==> p in ancestry || p in pending
  }

  lemma AncestryExpand(g: Graph, ancestry: set<Id>, id: Id, rest: seq<Id>)
    requires AncestryFrontier(g, ancestry, [id] + rest) && id in g
    ensures AncestryFrontier(g, ancestry + {id}, rest + g[id].parents)
  {
  }

  lemma {:induction false} AncestryIsClosed(g: Graph, ancestry: set<Id>, a: Id, y: Id, n: nat)
    requires AncestryFrontier(g, ancestry, []) && a in ancestry && Steps(g, a, y, n)
    ensures y in ancestry
    decreases n
  {
    if n > 0 {
      var p :| p in g[a].parents && Steps(g, p, y, n - 1);
      AncestryIsClosed(g, ancestry, p, y, n - 1);
    }
  }

  // ----- the read

  /** Subtracting the painted ancestry (or nothing, when no merge was met)
      leaves exactly reachable(head) - reachable(after). */
  lemma DeltaIsExact(g: Graph, head: Id, after: Option<Id>, w: HeadWalk, ancestry: set<Id>)
    requires Acyclic(g) && HeadWalkSpec(g, head, after, w)
    requires !ScanRequiresCursorReset(after, w.exhausted, w.afterFound)
    requires after.None? ==> ancestry == {}
    requires after.Some? && !w.sawMerge ==> ancestry == {}
    requires after.Some? && w.sawMerge ==> forall y :: y in ancestry <==> Reaches(g, after.value, y)
    ensures forall id :: id in w.candidates && id !in ancestry <==> InDelta(g, head, after, id)
  {
    forall id
      ensures id in w.candidates && id !in ancestry <==> InDelta(g, head, after, id)
    {
      if id in w.candidates && after.Some? && !w.sawMerge && Reaches(g, after.value, id) {
        AcyclicAntisymmetric(g, id, after.value);
      }
      if InDelta(g, head, after, id) {
        assert Covered(g, after, w, id);
      }
    }
  }

  method MatchingMessages(
    codec: Codec, candidates: seq<Id>, ancestry: set<Id>, loaded: Graph, recipient: Option<string>)
    returns (messages: seq<AgentMessage>)
    requires Distinct(candidates) && forall c :: c in candidates ==> c in loaded
    ensures forall m :: m in messages <==>
              m.messageId in candidates && m.messageId !in ancestry &&
              IsSignal(codec, m.messageId, loaded[m.messageId], recipient, m)
    ensures Distinct(messages)
  {
    messages := [];
    for i := 0 to |candidates|
      invariant forall m :: m in messages <==>
                  m.messageId in candidates[..i] && m.messageId !in ancestry &&
                  IsSignal(codec, m.messageId, loaded[m.messageId], recipient, m)
      invariant Distinct(messages)
    {
      var id := candidates[i];
      assert candidates[..i + 1] == candidates[..i] + [id];
      if id in ancestry {
        continue;
      }
      var delivered := Deliver(codec, id, loaded[id], recipient);
      if delivered.Some? {
        messages := messages + [delivered.value];
      }
    }
    assert candidates[..|candidates|] == candidates;
  }

  /** More than `limit` distinct messages are waiting in the delta. */
  ghost predicate MoreThan(
    g: Graph, codec: Codec, head: Id, after: Option<Id>, recipient: Option<string>, limit: nat)
  {
    exists ms: seq<AgentMessage> :: |ms| > limit && Distinct(ms) &&
      forall m :: m in ms ==> InDeltaMessages(g, codec, head, after, recipient, m)
  }

  /** Whatever of the delta is left out is no newer than anything answered,
      and the answer is as long as it may be. */
  ghost predicate OnlyOlderLeftOut(
    g: Graph, codec: Codec, head: Id, after: Option<Id>, recipient: Option<string>, limit: nat, ms: seq<AgentMessage>)
  {
    forall x :: InDeltaMessages(g, codec, head, after, recipient, x) && x !in ms ==>
      && |ms| == limit
      && forall m :: m in ms ==>
           m.createdAtMs > x.createdAtMs || (m.createdAtMs == x.createdAtMs && m.messageId >= x.messageId)
  }

  /** The head reaches more snapshots than one scan may load. */
  ghost predicate TooManySnapshots(g: Graph, head: Id) {
    exists s: set<Id> :: |s| > MAX_SIGNAL_SCAN && forall x :: x in s ==> Reaches(g, head, x)
  }

  lemma OverflowMeansTooMany(g: Graph, head: Id, from: Id, loaded: Graph)
    requires Reaches(g, head, from) && ScanOverflow(g, from, loaded)
    requires forall x :: x in loaded ==> Reaches(g, head, x)
    ensures TooManySnapshots(g, head)
  {
    var x :| x !in loaded && Reaches(g, from, x);
    ReachesTransitive(g, head, from, x);
    var s := loaded.Keys + {x};
    assert |s| == |loaded.Keys| + 1;
  }

  lemma SortedMessages(ms: seq<AgentMessage>)
    requires Distinct(ms)
    ensures Sorted(SortBy(ms, NewerFirst), NewerFirst)
    ensures Distinct(SortBy(ms, NewerFirst)) && |SortBy(ms, NewerFirst)| == |ms|
    ensures forall m :: m in SortBy(ms, NewerFirst) <==> m in ms
  {
    SortBySorted(ms, NewerFirst);
    Rearranged(ms, SortBy(ms, NewerFirst));
  }

  /**
   * One bounded inbox read over an acyclic graph. Without a cursor reset the answer is exactly the
   * matching signals of reachable(head) - reachable(after), newest first and
   * each once; a reset is reported only for a cursor the head does not reach,
   * a scan larger than its bound, or more answers than the limit.
   */
  method CollectSignals(
    g: Graph, codec: Codec, head: Option<Id>, after: Option<Id>, recipient: Option<string>, limit: nat)
    returns (r: Result<InboxResult, ReadError>)
    ensures head.None? ==> r == Ok(InboxResult(None, after.Some?, []))
    ensures r.Ok? ==> r.value.cursor == head && |r.value.messages| <= limit
    ensures r.Ok? ==> Distinct(r.value.messages) && NewestFirst(r.value.messages)
    ensures r.Ok? && head.Some? ==> AllReal(g, codec, head.value, recipient, r.value.messages)
    ensures r.Ok? && head.Some? && after.Some? && !r.value.cursorReset ==>
              Reaches(g, head.value, after.value)
    ensures Acyclic(g) && r.Ok? && head.Some? && !r.value.cursorReset ==>
              forall m :: m in r.value.messages <==>
                InDeltaMessages(g, codec, head.value, after, recipient, m)
    ensures Acyclic(g) && r.Ok? && head.Some? && r.value.cursorReset ==>
              || (after.Some? && !Reaches(g, head.value, after.value))
              || TooManySnapshots(g, head.value)
              || MoreThan(g, codec, head.value, after, recipient, limit)
    ensures Acyclic(g) && r.Ok? && head.Some? && !ResetIsReal(g, head.value, after) ==>
              OnlyOlderLeftOut(g, codec, head.value, after, recipient, limit, r.value.messages)
    ensures r.Err? ==> head.Some? && r.error.id !in g && Reaches(g, head.value, r.error.id)
  {
    if head.None? {
      return Ok(InboxResult(None, after.Some?, []));
    }
    ReachesSelf(g, head.value);
    if after == head {
      if head.value !in g {
        return Err(Unloadable(head.value));
      }
      return Ok(InboxResult(head, false, []));
    }
    var walk := WalkFromHead(g, head.value, after);
    if walk.Err? {
      return Err(walk.error);
    }
    var cut := SubtractCursor(g, head.value, after, walk.value);
    if cut.Err? {
      return Err(cut.error);
    }
    var messages, truncated := Answer(g, codec, head.value, after, walk.value, cut.value.0, cut.value.1, recipient, limit);
    return Ok(InboxResult(head, cut.value.1 || truncated, messages));
  }

  /** What is certain about a reset for the walk's own reasons. */
  ghost predicate ResetIsReal(g: Graph, head: Id, after: Option<Id>) {
    (after.Some? && !Reaches(g, head, after.value)) || TooManySnapshots(g, head)
  }

  /** Candidates outside `ancestry` are exactly the delta. */
  ghost predicate CutsExactly(g: Graph, head: Id, after: Option<Id>, w: HeadWalk, ancestry: set<Id>) {
    forall id :: id in w.candidates && id !in ancestry <==> InDelta(g, head, after, id)
  }

  /** Paints the cursor's ancestry only when the first walk met a merge. */
  method SubtractCursor(g: Graph, head: Id, after: Option<Id>, w: HeadWalk)
    returns (r: Result<(set<Id>, bool), ReadError>)
    requires HeadWalkSpec(g, head, after, w)
    ensures r.Err? ==> r.error.id !in g && Reaches(g, head, r.error.id)
    ensures r.Ok? && r.value.1 ==> ResetIsReal(g, head, after)
    ensures r.Ok? && !r.value.1 && after.Some? ==> Reaches(g, head, after.value)
    ensures r.Ok? && !r.value.1 && Acyclic(g) ==> CutsExactly(g, head, after, w, r.value.0)
  {
    ReachesSelf(g, head);
    if ScanRequiresCursorReset(after, w.exhausted, w.afterFound) {
      if w.exhausted {
        OverflowMeansTooMany(g, head, head, w.loaded);
      }
      return Ok(({}, true));
    }
    var ancestry: set<Id> := {};
    if after.Some? && w.sawMerge {
      var painted := PaintAncestry(g, after.value, w.loaded);
      if painted.Err? {
        ReachesTransitive(g, head, after.value, painted.error.id);
        return Err(painted.error);
      }
      if painted.value.1 {
        PaintOverflow(g, head, after.value, w, painted.value.2);
        return Ok(({}, true));
      }
      ancestry := painted.value.0;
    }
    if Acyclic(g) {
      DeltaIsExact(g, head, after, w, ancestry);
    }
    return Ok((ancestry, false));
  }

  /** The messages outside `ancestry`, newest first, cut at the limit. */
  method Answer(
    g: Graph, codec: Codec, head: Id, after: Option<Id>, w: HeadWalk, ancestry: set<Id>, ghost reset: bool,
    recipient: Option<string>, limit: nat)
    returns (messages: seq<AgentMessage>, truncated: bool)
    requires HeadWalkSpec(g, head, after, w)
    requires !reset && Acyclic(g) ==> CutsExactly(g, head, after, w, ancestry)
    ensures |messages| <= limit && Distinct(messages) && NewestFirst(messages)
    ensures AllReal(g, codec, head, recipient, messages)
    ensures !reset && Acyclic(g) && !truncated ==>
              forall m :: m in messages <==> InDeltaMessages(g, codec, head, after, recipient, m)
    ensures !reset && Acyclic(g) && truncated ==> MoreThan(g, codec, head, after, recipient, limit)
    ensures !reset && Acyclic(g) ==> OnlyOlderLeftOut(g, codec, head, after, recipient, limit, messages)
  {
    messages := MatchingMessages(codec, w.candidates, ancestry, w.loaded, recipient);
    SortedMessages(messages);
    messages := SortBy(messages, NewerFirst);
    assert !reset && Acyclic(g) ==>
      forall m :: m in messages <==> InDeltaMessages(g, codec, head, after, recipient, m);
    truncated := |messages| > limit;
    if truncated {
      ghost var all := messages;
      messages := messages[..limit];
      CutKeepsNewest(all, limit);
    }
  }

  lemma CutKeepsNewest(all: seq<AgentMessage>, limit: nat)
    requires limit <= |all| && Sorted(all, NewerFirst)
    ensures forall m, x :: m in all[..limit] && x in all && x !in all[..limit] ==> NewerFirst(m, x)
  {
    assert forall q :: 0 <= q < limit ==> all[q] in all[..limit];
    forall m, x | m in all[..limit] && x in all && x !in all[..limit]
      ensures NewerFirst(m, x)
    {
      var i :| 0 <= i < limit && all[..limit][i] == m;
      var k :| 0 <= k < |all| && all[k] == x;
      assert NewerFirst(all[i], all[k]);
    }
  }

  lemma PaintOverflow(g: Graph, head: Id, after: Id, w: HeadWalk, loaded: Graph)
    requires HeadWalkSpec(g, head, Some(after), w) && Reaches(g, head, after)
    requires forall x :: x in loaded ==> x in w.loaded || Reaches(g, after, x)
    requires ScanOverflow(g, after, loaded)
    ensures TooManySnapshots(g, head)
  {
    forall x | x in loaded
      ensures Reaches(g, head, x)
    {
      if x !in w.loaded {
        ReachesTransitive(g, head, after, x);
      }
    }
    OverflowMeansTooMany(g, head, after, loaded);
  }
}
