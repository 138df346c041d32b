/**
 * The dispatcher over whole runs: it persists an offer, publishes its request
 * over a head others keep moving, records the request id, and may crash
 * between any two of these; a restart reads the signal delta since the
 * persisted cursor before it sends again. One dispatcher runs at a time.
 */
module Dispatcher {
  import opened Base
  import opened SnapshotGraph
  import opened Signals
  import opened Assignments

  datatype RequestKey = RequestKey(assignment: nat, attempt: nat)

  /** The envelope and profile parsers, and the dispatcher's own name. */
  datatype Setting = Setting(codec: Codec, parse: string -> Option<Profile>, dispatcher: string)

  /** What the lock holder is doing; lost in a crash. */
  datatype Proc =
    | Idle
    | Creating
    | Observing(cursor: Id)
    | Sending
    | Drafted(id: Id)
    | Sent(id: Id)

  /** `active` is the durable assignment. The graph also holds snapshots that
      were written but never published. */
  datatype World = World(
    setting: Setting,
    graph: Graph,
    head: Id,
    active: Option<Assignment>,
    proc: Proc,
    used: set<nat>)

  datatype Event =
    | Assign(id: nat, about: Id, terms: Terms, ranked: seq<string>)
    | FirstOffer
    | Draft(message: Id, s: Snapshot)
    | Publish
    | SendFails
    | Record
    | RecoverOffer(reset: bool)
    | ReadInbox(reset: bool)
    | Reply(p: Profile, m: AgentMessage)
    | TimeOut
    | BlockedFallback
    | FinishPass
    | Revoke
    | ForeignAppend(message: Id, s: Snapshot)
    | Crash

  predicate Pending(s: World) {
    s.active.Some? && NeedsSend(s.active.value)
  }

  function LastKey(a: Assignment): RequestKey
    requires a.attempts != []
  {
    RequestKey(a.id, |a.attempts| - 1)
  }

  // ----- requests are messages in the graph

  /** The key a message is an assignment request for. */
  function KeyOf(c: Setting, m: AgentMessage): Option<RequestKey> {
    if m.from != c.dispatcher || !m.kind.Request? then None
    else
      match c.parse(m.body)
      case Some(AssignmentProfile(assignment, attempt, _, _, _)) => Some(RequestKey(assignment, attempt))
      case _ => None
  }

  /** The message a snapshot delivers to the dispatcher's own read. */
  function MessageOf(c: Setting, id: Id, s: Snapshot): Option<AgentMessage> {
    Deliver(c.codec, id, s, None)
  }

  predicate Carries(c: Setting, id: Id, s: Snapshot, key: RequestKey) {
    MessageOf(c, id, s).Some? && KeyOf(c, MessageOf(c, id, s).value) == Some(key)
  }

  ghost predicate IsPublished(s: World, x: Id) {
    Reaches(s.graph, s.head, x)
  }

  /** `x` is a published snapshot that delivers a request for `key`. */
  ghost predicate IsRequest(s: World, x: Id, key: RequestKey) {
    x in s.graph && IsPublished(s, x) && Carries(s.setting, x, s.graph[x], key)
  }

  /** `id` delivers exactly the request of the pending offer. */
  predicate RequestsPending(s: World, id: Id, snapshot: Snapshot)
    requires Pending(s)
  {
    var a := s.active.value;
    var m := MessageOf(s.setting, id, snapshot);
    m.Some? && IsAssignmentRequest(a, a.attempts[|a.attempts| - 1], s.setting.dispatcher, s.setting.parse, m.value)
  }

  /** What recovery looks for: the pending request in the delta since the
      persisted cursor. */
  ghost predicate Matching(s: World, x: Id)
    requires Pending(s)
  {
    InDelta(s.graph, s.head, s.active.value.cursor, x) && RequestsPending(s, x, s.graph[x])
  }

  /** A foreign snapshot is no request in the dispatcher's name and brings no
      unpublished request into the history. */
  ghost predicate NotForged(s: World, id: Id, snapshot: Snapshot) {
    && (forall key :: !Carries(s.setting, id, snapshot, key))
    && (forall p, x, key :: p in snapshot.parents && Brings(s, p, x, key) ==> Reaches(s.graph, s.head, x))
  }

  ghost predicate Brings(s: World, p: Id, x: Id, key: RequestKey) {
    x in s.graph && Reaches(s.graph, p, x) && Carries(s.setting, x, s.graph[x], key)
  }

  ghost predicate Enabled(s: World, e: Event) {
    match e
    case Assign(id, about, terms, ranked) => s.proc.Idle? && s.active.None? && id !in s.used
    case FirstOffer => s.proc.Creating? && s.active.Some? && CanOffer(s.active.value)
    case Draft(id, snapshot) =>
      s.proc.Sending? && Pending(s) && id !in s.graph && snapshot.parents == [s.head] && RequestsPending(s, id, snapshot)
    case Publish => s.proc.Drafted? && s.proc.id in s.graph
    case SendFails => s.proc.Sending? || s.proc.Drafted?
    case Record => s.proc.Sent? && Pending(s)
    case RecoverOffer(_) => s.proc.Idle? && Pending(s)
    case ReadInbox(_) => s.proc.Idle? && s.active.Some? && !Pending(s)
    case Reply(_, _) => s.proc.Observing? && s.active.Some?
    case TimeOut => s.proc.Observing? && s.active.Some? && s.active.value.phase.Offered?
    case BlockedFallback => s.proc.Observing? && s.active.Some? && s.active.value.phase.Blocked?
    case FinishPass => s.proc.Observing? && s.active.Some?
    case Revoke =>
      s.proc.Idle? && s.active.Some? &&
      (s.active.value.phase.Created? || s.active.value.phase.Offered? || s.active.value.phase.Accepted? ||
       s.active.value.phase.RequiresHuman?)
    case ForeignAppend(id, snapshot) =>
      && id !in s.graph && s.head in snapshot.parents && (forall p :: p in snapshot.parents ==> p in s.graph)
      && NotForged(s, id, snapshot)
    case Crash => true
  }

  /** Persist the next offer and go on to send it; past the attempt bound
      the operation fails and persists nothing. */
  function Offer(s: World, a: Assignment): World {
    if CanOffer(a) then s.(active := Some(OfferNext(a)), proc := Sending) else s.(proc := Idle)
  }

  ghost function Next(s: World, e: Event): World
    requires Enabled(s, e)
  {
    match e
    case Assign(id, about, terms, ranked) =>
      s.(active := Some(Assignment(id, about, terms, ranked, Phase.Created, [], None)),
         proc := Creating, used := s.used + {id})
    case FirstOffer => s.(active := Some(OfferNext(s.active.value)), proc := Sending)
    case Draft(id, snapshot) => s.(graph := s.graph[id := snapshot], proc := Drafted(id))
    case Publish =>
      // one compare-and-swap; a lost one drafts again on the new head
      if s.graph[s.proc.id].parents == [s.head] then s.(head := s.proc.id, proc := Sent(s.proc.id))
      else s.(proc := Sending)
    case SendFails => s.(proc := Idle)
    case Record => s.(active := Some(RecordRequest(s.active.value, s.proc.id)), proc := Idle)
    case RecoverOffer(reset) =>
      if reset then s.(active := None)
      else if !(exists x :: Matching(s, x)) then s.(proc := Sending)
      else
        var x :| Matching(s, x);
        if forall y :: Matching(s, y) ==> y == x then s.(proc := Sent(x)) else s.(active := None)
    case ReadInbox(reset) =>
      if reset then s.(active := Some(s.active.value.(phase := Phase.RequiresHuman)))
      else s.(proc := Observing(s.head))
    case Reply(p, m) =>
      s.(active := Some(ApplyProfile(s.active.value, p, m, s.setting.dispatcher).0))
    case TimeOut =>
      var a := WithLastState(s.active.value, AttemptState.TimedOut).(cursor := Some(s.proc.cursor));
      if |a.attempts| < |a.ranked| then Offer(s, a)
      else s.(active := Some(a.(phase := Phase.Cancelled)))
    case BlockedFallback =>
      var a := s.active.value.(cursor := Some(s.proc.cursor));
      if |a.attempts| < |a.ranked| then Offer(s, a) else s.(active := Some(a))
    case FinishPass =>
      // terminal assignments leave the active slot
      var a := s.active.value.(cursor := Some(s.proc.cursor));
      s.(active := if a.phase.IsArchived() then None else Some(a), proc := Idle)
    case Revoke =>
      var a := WithLastState(s.active.value, AttemptState.Revoked);
      if s.active.value.phase.Accepted? && |a.attempts| < |a.ranked| then Offer(s, a)
      else s.(active := None)
    case ForeignAppend(id, snapshot) => s.(graph := s.graph[id := snapshot], head := id)
    case Crash => s.(proc := Idle)
  }

  // ----- invariant

  ghost predicate GraphOk(s: World) {
    Closed(s.graph) && Acyclic(s.graph) && s.head in s.graph
  }

  /** Requests belong to assignments already drawn and attempts already offered. */
  ghost predicate KeysOk(s: World) {
    forall x, key :: IsRequest(s, x, key) ==>
      && key.assignment in s.used
      && (s.active.Some? && key.assignment == s.active.value.id ==> key.attempt < |s.active.value.attempts|)
  }

  ghost predicate Unique(s: World) {
    forall x, y, key :: IsRequest(s, x, key) && IsRequest(s, y, key) ==> x == y
  }

  ghost predicate ActiveOk(s: World) {
    s.active.Some? ==>
      && s.active.value.id in s.used
      && AttemptsOk(s.active.value)
      && (s.active.value.cursor.Some? ==> IsPublished(s, s.active.value.cursor.value))
  }

  /** The persisted cursor never hides the request of a pending offer, and
      that request says exactly what recovery looks for. */
  ghost predicate PendingOk(s: World) {
    Pending(s) ==> forall x :: IsRequest(s, x, LastKey(s.active.value)) ==>
      && RequestsPending(s, x, s.graph[x])
      && !(s.active.value.cursor.Some? && Reaches(s.graph, s.active.value.cursor.value, x))
  }

  ghost predicate NoneFor(s: World, key: RequestKey) {
    forall x :: !IsRequest(s, x, key)
  }

  ghost predicate ProcOk(s: World) {
    match s.proc
    case Idle => true
    case Creating => s.active.Some? && s.active.value.attempts == [] && s.active.value.phase.Created?
    case Observing(c) => !Pending(s) && IsPublished(s, c)
    case Sending => Pending(s) && NoneFor(s, LastKey(s.active.value))
    case Drafted(id) =>
      && Pending(s) && NoneFor(s, LastKey(s.active.value))
      && id in s.graph && !IsPublished(s, id) && RequestsPending(s, id, s.graph[id])
    case Sent(id) => Pending(s) && IsRequest(s, id, LastKey(s.active.value))
  }

  ghost predicate Inv(s: World) {
    GraphOk(s) && KeysOk(s) && Unique(s) && ActiveOk(s) && PendingOk(s) && ProcOk(s)
  }

  lemma PendingCarries(s: World, id: Id, snapshot: Snapshot)
    requires Pending(s) && AttemptsOk(s.active.value) && RequestsPending(s, id, snapshot)
    ensures Carries(s.setting, id, snapshot, LastKey(s.active.value))
  {
  }

  /** The delta since the cursor holds every published request of the pending
      offer: recovery sees it exactly when it exists. */
  lemma DeltaShowsPendingRequest(s: World, x: Id)
    requires Inv(s) && Pending(s)
    ensures Matching(s, x) <==> IsRequest(s, x, LastKey(s.active.value))
  {
    if Matching(s, x) {
      PendingCarries(s, x, s.graph[x]);
    }
  }

  /** `m` is the dispatcher's request for the last attempt: to the candidate
      drawn for it, about the assigned snapshot, in reply to nothing, with the
      assignment's own number, attempt, candidate and terms. */
  predicate AsksFor(s: World, m: AgentMessage)
    requires Pending(s) && |s.active.value.attempts| <= |s.active.value.ranked|
  {
    var a := s.active.value;
    var n := |a.attempts| - 1;
    && m.from == s.setting.dispatcher && m.to == a.ranked[n] && m.kind == Request
    && m.about == a.about && m.replyTo == None
    && match s.setting.parse(m.body)
       case Some(AssignmentProfile(assignment, attempt, about, selected, terms)) =>
         assignment == a.id && attempt == n && about == a.about && selected == a.ranked[n] && terms == a.terms
       case _ => false
  }

  /** Filtering an exact inbox read for the request of the pending offer finds
      precisely what recovery has to find. */
  lemma InboxShowsMatching(s: World, inbox: seq<AgentMessage>, x: Id)
    requires Pending(s)
    requires forall m :: m in inbox <==>
               InDeltaMessages(s.graph, s.setting.codec, s.head, s.active.value.cursor, None, m)
    requires OffersInOrder(s.active.value)
    ensures Matching(s, x) <==> exists m :: m in inbox && m.messageId == x && AsksFor(s, m)
  {
    if Matching(s, x) {
      var m := MessageOf(s.setting, x, s.graph[x]).value;
      assert m in inbox;
    }
  }

  lemma RecoveryVerdict(s: World)
    requires Inv(s) && Pending(s)
    ensures forall x, y :: Matching(s, x) && Matching(s, y) ==> x == y
    ensures !(exists x :: Matching(s, x)) ==> NoneFor(s, LastKey(s.active.value))
  {
    forall x
      ensures Matching(s, x) <==> IsRequest(s, x, LastKey(s.active.value))
    {
      DeltaShowsPendingRequest(s, x);
    }
  }

  // ----- growing the graph

  /** A fresh snapshot changes nothing about the old ones. */
  lemma GrowKeepsReach(g: Graph, id: Id, snapshot: Snapshot)
    requires Closed(g) && Acyclic(g) && id !in g && forall p :: p in snapshot.parents ==> p in g
    ensures var h := g[id := snapshot];
            && Closed(h) && Acyclic(h)
            && (forall c, x :: c in g ==> (Reaches(h, c, x) <==> Reaches(g, c, x)))
            && (forall c :: c in g ==> !Reaches(h, c, id))
  {
    var h := g[id := snapshot];
    FreshSnapshotKeepsGraph(g, id, snapshot);
    forall c, x | c in g
      ensures Reaches(h, c, x) <==> Reaches(g, c, x)
      ensures Reaches(h, c, x) ==> x != id
    {
      ReachesStable(g, h, c, x);
      if Reaches(g, c, x) {
        ReachesStaysClosed(g, c, x);
      }
    }
  }

  /** Same head, same published requests. */
  ghost predicate SameRequests(s: World, t: World) {
    && t.setting == s.setting
    && (forall x, key :: IsRequest(t, x, key) <==> IsRequest(s, x, key))
    && (forall x :: IsPublished(s, x) ==> IsPublished(t, x))
    && (forall x :: x in s.graph ==> x in t.graph && t.graph[x] == s.graph[x])
    && (forall c, x :: c in s.graph ==> (Reaches(t.graph, c, x) <==> Reaches(s.graph, c, x)))
  }

  lemma DraftKeepsRequests(s: World, e: Event)
    requires Inv(s) && Enabled(s, e) && e.Draft?
    ensures SameRequests(s, Next(s, e)) && GraphOk(Next(s, e)) && !IsPublished(Next(s, e), e.message)
  {
    GrowKeepsReach(s.graph, e.message, e.s);
  }

  lemma ForeignKeepsRequests(s: World, e: Event)
    requires Inv(s) && Enabled(s, e) && e.ForeignAppend?
    ensures SameRequests(s, Next(s, e)) && GraphOk(Next(s, e))
    ensures s.proc.Drafted? ==> !IsPublished(Next(s, e), s.proc.id)
  {
    var t := Next(s, e);
    GrowKeepsReach(s.graph, e.message, e.s);
    if s.proc.Drafted? {
      PendingCarries(s, s.proc.id, s.graph[s.proc.id]);
    }
    forall x
      ensures IsPublished(t, x) <==> x == e.message || exists p :: p in e.s.parents && Reaches(s.graph, p, x)
    {
      ReachesThroughParents(t.graph, e.message, x);
    }
    forall x, key | IsRequest(t, x, key)
      ensures IsRequest(s, x, key)
    {
      assert IsPublished(t, x) && x != e.message;
      var p :| p in e.s.parents && Reaches(s.graph, p, x);
      assert Brings(s, p, x, key);
    }
    if s.proc.Drafted? && IsPublished(t, s.proc.id) {
      var p :| p in e.s.parents && Reaches(s.graph, p, s.proc.id);
      assert Brings(s, p, s.proc.id, LastKey(s.active.value));
    }
  }

  /** Requests that are the same keep the invariant about requests. */
  lemma SameRequestsKeepInv(s: World, t: World)
    requires Inv(s) && SameRequests(s, t) && t.active == s.active && t.used == s.used && GraphOk(t)
    ensures KeysOk(t) && Unique(t) && ActiveOk(t) && PendingOk(t)
  {
    if s.active.Some? && s.active.value.cursor.Some? {
      ReachesStaysClosed(s.graph, s.head, s.active.value.cursor.value);
    }
  }

  lemma DraftKeepsInv(s: World, e: Event)
    requires Inv(s) && Enabled(s, e) && e.Draft?
    ensures Inv(Next(s, e))
  {
    DraftKeepsRequests(s, e);
    SameRequestsKeepInv(s, Next(s, e));
  }

  lemma ForeignKeepsInv(s: World, e: Event)
    requires Inv(s) && Enabled(s, e) && e.ForeignAppend?
    ensures Inv(Next(s, e))
  {
    ForeignKeepsRequests(s, e);
    SameRequestsKeepInv(s, Next(s, e));
  }

  /** The swap publishes exactly the drafted request. */
  lemma PublishAddsOne(s: World)
    requires Inv(s) && s.proc.Drafted? && s.graph[s.proc.id].parents == [s.head]
    ensures var t := Next(s, Publish);
            && (forall x :: IsPublished(t, x) <==> x == s.proc.id || IsPublished(s, x))
            && (forall x, key :: IsRequest(t, x, key) <==>
                  IsRequest(s, x, key) || (x == s.proc.id && key == LastKey(s.active.value)))
  {
    OneParent(s.graph, s.proc.id, s.head);
    PendingCarries(s, s.proc.id, s.graph[s.proc.id]);
  }

  lemma PublishKeepsInv(s: World)
    requires Inv(s) && Enabled(s, Publish)
    ensures Inv(Next(s, Publish))
  {
    if s.graph[s.proc.id].parents == [s.head] {
      PublishAddsOne(s);
      var c := s.active.value.cursor;
      if c.Some? && Reaches(s.graph, c.value, s.proc.id) {
        ReachesTransitive(s.graph, s.head, c.value, s.proc.id);
      }
    } else {
      SameWorldRequests(s, Next(s, Publish));
    }
  }

  lemma OfferKeepsInv(s: World, a: Assignment)
    requires Inv(s) && s.active.Some? && CanOffer(a) && OffersInOrder(a)
    requires a.id == s.active.value.id && |a.attempts| == |s.active.value.attempts|
    requires a.cursor.Some? ==> IsPublished(s, a.cursor.value)
    ensures Inv(Offer(s, a))
  {
    OfferNextOk(a);
    SameWorldRequests(s, Offer(s, a));
  }

  lemma SameWorldRequests(s: World, t: World)
    requires t.setting == s.setting && t.graph == s.graph && t.head == s.head
    ensures forall x, key :: IsRequest(t, x, key) <==> IsRequest(s, x, key)
    ensures forall x :: IsPublished(t, x) <==> IsPublished(s, x)
  {
  }

  lemma DispatchKeepsInv(s: World, e: Event)
    requires Inv(s) && Enabled(s, e)
    requires e.Assign? || e.FirstOffer? || e.SendFails? || e.Record? || e.Crash?
    ensures Inv(Next(s, e))
  {
    SameWorldRequests(s, Next(s, e));
    if e.FirstOffer? {
      OfferKeepsInv(s, s.active.value);
    }
  }

  lemma RecoverKeepsInv(s: World, e: Event)
    requires Inv(s) && Enabled(s, e) && e.RecoverOffer?
    ensures Inv(Next(s, e))
  {
    SameWorldRequests(s, Next(s, e));
    RecoveryVerdict(s);
    forall x | Matching(s, x)
      ensures IsRequest(s, x, LastKey(s.active.value))
    {
      DeltaShowsPendingRequest(s, x);
    }
  }

  lemma ObserveKeepsInv(s: World, e: Event)
    requires Inv(s) && Enabled(s, e)
    requires e.ReadInbox? || e.Reply? || e.FinishPass?
    ensures Inv(Next(s, e))
  {
    SameWorldRequests(s, Next(s, e));
    ReachesSelf(s.graph, s.head);
    if e.Reply? {
      ApplyProfileOk(s.active.value, e.p, e.m, s.setting.dispatcher);
    }
  }

  /** The assignment as it stands before the next candidate is offered. */
  ghost function FallenBack(s: World, e: Event): Assignment
    requires Enabled(s, e) && (e.TimeOut? || e.BlockedFallback? || e.Revoke?)
  {
    var active := s.active.value;
    if e.TimeOut? then WithLastState(active, AttemptState.TimedOut).(cursor := Some(s.proc.cursor))
    else if e.BlockedFallback? then active.(cursor := Some(s.proc.cursor))
    else WithLastState(active, AttemptState.Revoked)
  }

  lemma FallbackKeepsInv(s: World, e: Event)
    requires Inv(s) && Enabled(s, e)
    requires e.TimeOut? || e.BlockedFallback? || e.Revoke?
    ensures Inv(Next(s, e))
  {
    FallenBackOk(s, e);
    if Next(s, e).proc.Sending? {
      OfferKeepsInv(s, FallenBack(s, e));
      assert Next(s, e) == Offer(s, FallenBack(s, e));
    } else {
      FallbackEnds(s, e);
    }
  }

  lemma FallenBackOk(s: World, e: Event)
    requires Inv(s) && Enabled(s, e) && (e.TimeOut? || e.BlockedFallback? || e.Revoke?)
    ensures var a := FallenBack(s, e);
            && OffersInOrder(a) && a.id == s.active.value.id && |a.attempts| == |s.active.value.attempts|
            && (a.cursor.Some? ==> IsPublished(s, a.cursor.value))
  {
  }

  /** No further candidate is offered. */
  lemma FallbackEnds(s: World, e: Event)
    requires Inv(s) && Enabled(s, e) && (e.TimeOut? || e.BlockedFallback? || e.Revoke?)
    requires !Next(s, e).proc.Sending?
    ensures Inv(Next(s, e))
  {
    var t := Next(s, e);
    if t.active.Some? && t != s.(proc := Idle) {
      assert t.proc == s.proc && t.active.value.id == s.active.value.id;
      assert ActiveOk(t) && !Pending(t);
    }
    NothingOffered(s, t);
  }

  /** A step that publishes nothing and leaves nothing to send. */
  lemma NothingOffered(s: World, t: World)
    requires Inv(s) && t.setting == s.setting && t.graph == s.graph && t.head == s.head && t.used == s.used
    requires t.active.Some? && t != s.(proc := Idle) ==>
               && ActiveOk(t) && !Pending(t) && s.active.Some? && t.active.value.id == s.active.value.id
               && |t.active.value.attempts| == |s.active.value.attempts|
    requires t.proc.Idle? || (t.proc == s.proc && s.proc.Observing?)
    ensures Inv(t)
  {
    SameWorldRequests(s, t);
  }

  lemma NextKeepsInv(s: World, e: Event)
    requires Inv(s) && Enabled(s, e)
    ensures Inv(Next(s, e))
  {
    if e.Draft? {
      DraftKeepsInv(s, e);
    } else if e.Publish? {
      PublishKeepsInv(s);
    } else if e.ForeignAppend? {
      ForeignKeepsInv(s, e);
    } else if e.ReadInbox? || e.Reply? || e.FinishPass? {
      ObserveKeepsInv(s, e);
    } else if e.TimeOut? || e.BlockedFallback? || e.Revoke? {
      FallbackKeepsInv(s, e);
    } else if e.RecoverOffer? {
      RecoverKeepsInv(s, e);
    } else {
      DispatchKeepsInv(s, e);
    }
  }

  // ----- whole runs

  /** Requests of earlier assignments may be in the history already. */
  ghost predicate Init(s: World) {
    GraphOk(s) && KeysOk(s) && Unique(s) && s.active.None? && s.proc.Idle?
  }

  ghost function Step(s: World, e: Event): World {
    if Enabled(s, e) then Next(s, e) else s
  }

  ghost function Exec(s: World, es: seq<Event>): World {
    if es == [] then s else Step(Exec(s, es[..|es| - 1]), es[|es| - 1])
  }

  lemma {:induction false} RunKeepsInv(s: World, es: seq<Event>)
    requires Init(s)
    ensures Inv(Exec(s, es))
  {
    if es != [] {
      RunKeepsInv(s, es[..|es| - 1]);
      if Enabled(Exec(s, es[..|es| - 1]), es[|es| - 1]) {
        NextKeepsInv(Exec(s, es[..|es| - 1]), es[|es| - 1]);
      }
    }
  }

  /** In every run, with any number of crashes, lost swaps and restarts, at
      most one published snapshot delivers a request per assignment and
      attempt. */
  lemma AtMostOneRequest(s: World, es: seq<Event>, x: Id, y: Id, key: RequestKey)
    requires Init(s) && IsRequest(Exec(s, es), x, key) && IsRequest(Exec(s, es), y, key)
    ensures x == y
  {
    RunKeepsInv(s, es);
  }

  /** In every run the offers follow the draw, number at most
      min(|ranked|, 64), and only the last of them can be open. */
  lemma OffersFollowDraw(s: World, es: seq<Event>)
    requires Init(s) && Exec(s, es).active.Some?
    ensures AttemptsOk(Exec(s, es).active.value)
  {
    RunKeepsInv(s, es);
  }

  /** Recovery is never confused by two matching requests; it takes over a
      published request, sends an unpublished one, and with a lost cursor puts
      the assignment away without sending. */
  lemma RecoveryNeverRepublishes(s: World, es: seq<Event>)
    requires Init(s)
    ensures var t := Exec(s, es);
            t.proc.Idle? && Pending(t) ==>
              && (forall x, y :: Matching(t, x) && Matching(t, y) ==> x == y)
              && (forall x :: IsRequest(t, x, LastKey(t.active.value)) ==>
                    Next(t, RecoverOffer(false)).proc == Sent(x))
              && (NoneFor(t, LastKey(t.active.value)) ==> Next(t, RecoverOffer(false)).proc == Sending)
              && Next(t, RecoverOffer(true)) == t.(active := None)
  {
    RunKeepsInv(s, es);
    var t := Exec(s, es);
    if t.proc.Idle? && Pending(t) {
      RecoveryVerdict(t);
      if x :| Matching(t, x) {
        DeltaShowsPendingRequest(t, x);
      }
      forall x | IsRequest(t, x, LastKey(t.active.value))
        ensures Next(t, RecoverOffer(false)).proc == Sent(x)
      {
        DeltaShowsPendingRequest(t, x);
      }
    }
  }

  /** A crash between publishing a request and recording it changes nothing
      in the end: recovery finds the very same request in the history. */
  lemma CrashBeforeRecordIsHarmless(s: World)
    requires Inv(s) && s.proc.Sent?
    ensures Step(Step(Step(s, Crash), RecoverOffer(false)), Record) == Step(s, Record)
  {
    var crashed, x := Step(s, Crash), s.proc.id;
    NextKeepsInv(s, Crash);
    SameWorldRequests(s, crashed);
    RecoveryVerdict(crashed);
    DeltaShowsPendingRequest(crashed, x);
    assert Step(crashed, RecoverOffer(false)) == s;
  }

  /** An undisturbed assignment reaches its first candidate: the new head
      delivers its request. */
  lemma FirstOfferIsSent(
    s: World, id: nat, about: Id, terms: Terms, ranked: seq<string>, message: Id, snapshot: Snapshot, m: AgentMessage)
    requires Init(s) && id !in s.used && ranked != [] && message !in s.graph && snapshot.parents == [s.head]
    requires MessageOf(s.setting, message, snapshot) == Some(m)
    requires m.from == s.setting.dispatcher && m.to == ranked[0] && m.kind == Request && m.about == about && m.replyTo.None?
    requires s.setting.parse(m.body) == Some(AssignmentProfile(id, 0, about, ranked[0], terms))
    ensures var t := Step(Step(Step(Step(Step(s, Assign(id, about, terms, ranked)), FirstOffer), Draft(message, snapshot)),
                               Publish), Record);
            && t.head == message && IsRequest(t, message, RequestKey(id, 0))
            && HasActive(t, id) && t.active.value.phase == Phase.Offered && t.active.value.cursor == Some(message)
            && t.active.value.attempts == [Attempt(0, ranked[0], AttemptState.Offered, Some(message), None, None)]
  {
    var created := Assignment(id, about, terms, ranked, Phase.Created, [], None);
    var s1 := Step(s, Assign(id, about, terms, ranked));
    assert s1.active == Some(created) && s1.proc.Creating?;
    var s2 := Step(s1, FirstOffer);
    assert s2.active == Some(OfferNext(created)) && s2.proc.Sending?;
    assert OfferNext(created).attempts == [Attempt(0, ranked[0], AttemptState.Offered, None, None, None)];
    var s3 := Step(s2, Draft(message, snapshot));
    assert s3.proc == Drafted(message) && s3.active == s2.active;
    var s4 := Step(s3, Publish);
    assert s4.proc == Sent(message) && s4.active == s2.active;
    ReachesSelf(s4.graph, message);
  }

  predicate HasActive(s: World, id: nat) {
    s.active.Some? && s.active.value.id == id
  }

  lemma StepIsLater(s: World, e: Event, id: nat)
    requires Inv(s)
    ensures s.used <= Step(s, e).used
    ensures HasActive(s, id) && HasActive(Step(s, e), id) ==> Later(s.active.value, Step(s, e).active.value)
    ensures id in s.used && HasActive(Step(s, e), id) ==> HasActive(s, id)
  {
    if e.Reply? && Enabled(s, e) {
      ApplyProfileOk(s.active.value, e.p, e.m, s.setting.dispatcher);
    } else if (e.TimeOut? || e.BlockedFallback? || e.Revoke?) && Enabled(s, e) {
      FallbackIsLater(s, e);
    }
  }

  lemma FallbackIsLater(s: World, e: Event)
    requires Enabled(s, e) && (e.TimeOut? || e.BlockedFallback? || e.Revoke?)
    requires s.active.Some? && AttemptsOk(s.active.value)
    ensures Next(s, e).used == s.used
    ensures Next(s, e).active.Some? ==> Later(s.active.value, Next(s, e).active.value)
  {
    FallenBackIsLater(s, e);
    var t := Next(s, e);
    if t.proc.Sending? && t.proc != s.proc {
      assert t == Offer(s, FallenBack(s, e));
    }
  }

  lemma FallenBackIsLater(s: World, e: Event)
    requires Enabled(s, e) && (e.TimeOut? || e.BlockedFallback? || e.Revoke?)
    requires s.active.Some? && AttemptsOk(s.active.value)
    ensures var active, a := s.active.value, FallenBack(s, e);
            Later(active, a) && (CanOffer(a) ==> Later(active, OfferNext(a)))
  {
    var active, a := s.active.value, FallenBack(s, e);
    assert OffersInOrder(a) && Later(active, a);
    if CanOffer(a) {
      OfferNextOk(a);
      LaterTransitive(active, a, OfferNext(a));
    }
  }

  /** There is a next candidate, and what happened lets it be asked. */
  predicate AsksAgain(a: Assignment, e: Event) {
    && |a.attempts| < |a.ranked| && |a.attempts| < INTEGRATOR_MAX_ATTEMPTS
    && (e.TimeOut? || e.BlockedFallback? || (e.Revoke? && a.phase == Phase.Accepted))
  }

  /** How the abandoned attempt ends: timed out, revoked, or blocked as it was. */
  ghost predicate Abandoned(before: Attempt, after: Attempt, e: Event) {
    && after.attempt == before.attempt && after.selected == before.selected && after.request == before.request
    && after.acceptance == before.acceptance && after.terminal == before.terminal
    && after.state == (if e.TimeOut? then AttemptState.TimedOut
                       else if e.Revoke? then AttemptState.Revoked else AttemptState.Blocked)
  }

  /** The next candidate is asked, and the attempt before it abandoned. */
  ghost predicate AskedNext(a: Assignment, t: World, e: Event)
    requires |a.attempts| < |a.ranked| && a.attempts != []
  {
    var n := |a.attempts|;
    && t.proc == Sending && t.active.Some? && t.active.value.phase == Phase.Offered
    && |t.active.value.attempts| == n + 1
    && Abandoned(a.attempts[n - 1], t.active.value.attempts[n - 1], e)
    && t.active.value.attempts[n] == Attempt(n, a.ranked[n], AttemptState.Offered, None, None, None)
  }

  /** Nobody is left to ask. */
  ghost predicate GaveUp(a: Assignment, t: World, e: Event)
    requires a.attempts != []
  {
    var n := |a.attempts|;
    if e.Revoke? then t.active == None
    else
      && t.active.Some? && |t.active.value.attempts| == n
      && Abandoned(a.attempts[n - 1], t.active.value.attempts[n - 1], e)
      && t.active.value.phase == (if e.TimeOut? then Phase.Cancelled else Phase.Blocked)
  }

  /** A timeout, a blocker or a revocation of accepted work asks the next
      candidate in the draw and closes the attempt before it for that reason;
      without one a timed out assignment is cancelled, a blocked one stays
      blocked and a revoked one is dropped. */
  lemma FallbackIsExact(s: World, e: Event)
    requires Inv(s) && Enabled(s, e) && (e.TimeOut? || e.BlockedFallback? || e.Revoke?)
    requires s.active.value.attempts != []
    ensures var a, t := s.active.value, Next(s, e);
            if AsksAgain(a, e) then AskedNext(a, t, e)
            else if |a.attempts| < |a.ranked| && (e.Revoke? ==> a.phase == Phase.Accepted) then t == s.(proc := Idle)
            else GaveUp(a, t, e)
  {
    if AsksAgain(s.active.value, e) {
      FallbackAsksNext(s, e);
    } else if e.TimeOut? {
      assert Next(s, e).active.Some? ==> |Next(s, e).active.value.attempts| == |s.active.value.attempts|;
    }
  }

  lemma FallbackAsksNext(s: World, e: Event)
    requires Enabled(s, e) && (e.TimeOut? || e.BlockedFallback? || e.Revoke?)
    requires AttemptsOk(s.active.value) && s.active.value.attempts != [] && AsksAgain(s.active.value, e)
    ensures AskedNext(s.active.value, Next(s, e), e)
  {
    LastIsAbandoned(s, e);
    OfferNextOk(FallenBack(s, e));
    FallbackOffers(s, e);
  }

  lemma FallbackOffers(s: World, e: Event)
    requires Enabled(s, e) && (e.TimeOut? || e.BlockedFallback? || e.Revoke?)
    requires s.active.value.attempts != [] && AsksAgain(s.active.value, e)
    ensures CanOffer(FallenBack(s, e))
    ensures Next(s, e).active == Some(OfferNext(FallenBack(s, e))) && Next(s, e).proc == Sending
  {
  }

  lemma LastIsAbandoned(s: World, e: Event)
    requires Enabled(s, e) && (e.TimeOut? || e.BlockedFallback? || e.Revoke?)
    requires AttemptsOk(s.active.value) && s.active.value.attempts != []
    ensures var a, back := s.active.value, FallenBack(s, e);
            && OffersInOrder(back) && |back.attempts| == |a.attempts| && back.ranked == a.ranked
            && Abandoned(a.attempts[|a.attempts| - 1], back.attempts[|a.attempts| - 1], e)
  {
  }

  /** A pass that ends puts finished, blocked, cancelled and escalated work
      away and keeps everything else with the cursor it read up to. */
  lemma PassEnds(s: World)
    requires Enabled(s, FinishPass)
    ensures var a, t := s.active.value, Next(s, FinishPass);
            && (t.active == None <==>
                  a.phase in {Phase.Completed, Phase.Blocked, Phase.RequiresHuman, Phase.Cancelled})
            && (t.active != None ==> t.active == Some(a.(cursor := Some(s.proc.cursor))))
            && t.proc == Idle
  {
  }

  /** In every run an assignment's earlier attempts are never rewritten and
      its offers never undone, whatever replies arrive afterwards. */
  lemma {:induction false} EarlierAttemptsAreFinal(s: World, es: seq<Event>, k: nat, id: nat)
    requires Init(s) && k <= |es|
    requires HasActive(Exec(s, es[..k]), id) && HasActive(Exec(s, es), id)
    ensures Later(Exec(s, es[..k]).active.value, Exec(s, es).active.value)
    decreases |es|
  {
    var n := |es|;
    assert es[..n] == es;
    if k < n {
      var before, e := es[..n - 1], es[n - 1];
      assert before[..k] == es[..k];
      RunKeepsInv(s, before);
      RunKeepsInv(s, es[..k]);
      UsedGrows(s, before, k);
      StepIsLater(Exec(s, before), e, id);
      EarlierAttemptsAreFinal(s, before, k, id);
      LaterTransitive(Exec(s, es[..k]).active.value, Exec(s, before).active.value, Exec(s, es).active.value);
    }
  }

  /** The last attempt of the active assignment is completed. */
  predicate IsDone(s: World, id: nat) {
    HasActive(s, id) && s.active.value.attempts != []
    && s.active.value.attempts[|s.active.value.attempts| - 1].state == AttemptState.Completed
  }

  lemma DoneStays(s: World, e: Event, id: nat)
    requires Inv(s) && IsDone(s, id) && HasActive(Step(s, e), id)
    ensures IsDone(Step(s, e), id) && Step(s, e).active.value.attempts == s.active.value.attempts
  {
    if e.Reply? && Enabled(s, e) {
      ReplyAppliedIff(s.active.value, e.p, e.m, s.setting.dispatcher);
    }
  }

  /** In every run, once a completed result is applied no further offer of
      that assignment is ever made. */
  lemma {:induction false} NoOfferAfterCompleted(s: World, es: seq<Event>, k: nat, id: nat)
    requires Init(s) && k <= |es| && IsDone(Exec(s, es[..k]), id) && HasActive(Exec(s, es), id)
    ensures Exec(s, es).active.value.attempts == Exec(s, es[..k]).active.value.attempts
    decreases |es|
  {
    var n := |es|;
    assert es[..n] == es;
    if k < n {
      var before, e := es[..n - 1], es[n - 1];
      assert before[..k] == es[..k];
      RunKeepsInv(s, before);
      RunKeepsInv(s, es[..k]);
      UsedGrows(s, before, k);
      StepIsLater(Exec(s, before), e, id);
      NoOfferAfterCompleted(s, before, k, id);
      DoneStays(Exec(s, before), e, id);
    }
  }

  /** A completed result from the selected candidate is what makes it done. */
  lemma CompletedResultIsDone(s: World, p: Profile, m: AgentMessage)
    requires Inv(s) && Enabled(s, Event.Reply(p, m)) && p.ResultProfile? && p.digest.outcome == OutcomeState.Completed
    requires var a := s.active.value;
             a.phase.Accepted? && a.attempts != [] && AnswersAttempt(a, p, m, s.setting.dispatcher, |a.attempts| - 1)
    ensures IsDone(Next(s, Event.Reply(p, m)), s.active.value.id)
    ensures Next(s, Event.Reply(p, m)).active.value.phase == Phase.Completed
  {
    ReplyAppliedIff(s.active.value, p, m, s.setting.dispatcher);
  }

  /** A human was asked to look at the active assignment. */
  predicate IsEscalated(s: World, id: nat) {
    HasActive(s, id) && s.active.value.phase == Phase.RequiresHuman && !Pending(s)
  }

  lemma EscalatedStays(s: World, e: Event, id: nat)
    requires Inv(s) && IsEscalated(s, id) && HasActive(Step(s, e), id)
    ensures IsEscalated(Step(s, e), id) && Step(s, e).active.value.attempts == s.active.value.attempts
  {
    if e.Reply? && Enabled(s, e) {
      ReplyAppliedIff(s.active.value, e.p, e.m, s.setting.dispatcher);
    }
  }

  /** A lost inbox cursor asks a human, and in every run from there on no
      reply is applied and no further offer made for that assignment. */
  lemma {:induction false} LostCursorStopsOffers(s: World, es: seq<Event>, k: nat, id: nat)
    requires Init(s) && k < |es| && es[k] == ReadInbox(true) && HasActive(Exec(s, es[..k]), id)
    requires Enabled(Exec(s, es[..k]), es[k]) && HasActive(Exec(s, es), id)
    ensures IsEscalated(Exec(s, es), id)
    ensures Exec(s, es).active.value.attempts == Exec(s, es[..k]).active.value.attempts
    decreases |es|
  {
    var n := |es|;
    var before, e := es[..n - 1], es[n - 1];
    assert before[..k] == es[..k];
    if k < n - 1 {
      RunKeepsInv(s, before);
      RunKeepsInv(s, es[..k]);
      UsedGrows(s, before, k);
      StepIsLater(Exec(s, before), e, id);
      LostCursorStopsOffers(s, before, k, id);
      EscalatedStays(Exec(s, before), e, id);
    }
  }

  lemma {:induction false} UsedGrows(s: World, es: seq<Event>, k: nat)
    requires Init(s) && k <= |es|
    ensures Exec(s, es[..k]).used <= Exec(s, es).used
    decreases |es|
  {
    var n := |es|;
    assert es[..n] == es;
    if k < n {
      assert es[..n - 1][..k] == es[..k];
      UsedGrows(s, es[..n - 1], k);
      RunKeepsInv(s, es[..n - 1]);
      StepIsLater(Exec(s, es[..n - 1]), es[n - 1], 0);
    }
  }
}
