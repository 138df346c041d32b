/** One integrator assignment: ranked offers, replies, timeouts and revocation. */
module Assignments {
  import opened Base
  import opened Sorting
  import opened Signals

  const INTEGRATOR_MAX_ATTEMPTS: nat := 64

  datatype Phase = Created | Offered | Accepted | Completed | Blocked | Revoked | RequiresHuman | Cancelled
  {
    predicate IsArchived() {
      Completed? || Blocked? || RequiresHuman? || Cancelled?
    }
  }

  datatype AttemptState = Offered | Accepted | TimedOut | Superseded | Revoked | Blocked | Completed
  {
    predicate IsOpen() {
      Offered? || Accepted?
    }
  }

  datatype Attempt = Attempt(
    attempt: nat,
    selected: string,
    state: AttemptState,
    request: Option<Id>,
    acceptance: Option<Id>,
    terminal: Option<Id>)

  /** What every request of an assignment repeats. */
  datatype Terms = Terms(roster: Id, neutral: bool, task: string)

  datatype Assignment = Assignment(
    id: nat,
    about: Id,
    terms: Terms,
    ranked: seq<string>,
    phase: Phase,
    attempts: seq<Attempt>,
    cursor: Option<Id>)

  datatype OutcomeState = Completed | Blocked | RequiresHuman | Cancelled

  datatype Digest = Digest(assignment: nat, about: Id, integrator: string, outcome: OutcomeState)

  /** The `ffint1` bodies. */
  datatype Profile =
    | AssignmentProfile(assignment: nat, attempt: nat, about: Id, selected: string, terms: Terms)
    | AcceptedProfile(assignment: nat, attempt: nat, about: Id)
    | ResultProfile(assignment: nat, attempt: nat, about: Id, digest: Digest)
    | BlockedProfile(assignment: nat, attempt: nat, about: Id)

  function ExpectedKind(p: Profile): MessageKind {
    match p
    case AssignmentProfile(_, _, _, _, _) => Request
    case AcceptedProfile(_, _, _) => Status
    case ResultProfile(_, _, _, _) => ResultReply
    case BlockedProfile(_, _, _) => BlockedReply
  }

  /** First attempt carrying that number, or the length. */
  function FindAttempt(attempts: seq<Attempt>, n: nat): (i: nat)
    ensures i <= |attempts| && (i < |attempts| ==> attempts[i].attempt == n)
    ensures forall k :: 0 <= k < i ==> attempts[k].attempt != n
  {
    if attempts == [] || attempts[0].attempt == n then 0 else 1 + FindAttempt(attempts[1..], n)
  }

  predicate ProfileMatches(a: Assignment, p: Profile, m: AgentMessage, dispatcher: string) {
    var i := FindAttempt(a.attempts, p.attempt);
    && !p.AssignmentProfile?
    && i < |a.attempts|
    && p.assignment == a.id && p.about == a.about && m.about == a.about
    && m.from == a.attempts[i].selected && m.to == dispatcher && m.kind == ExpectedKind(p)
    && m.replyTo == a.attempts[i].request
    && (p.ResultProfile? ==>
          p.digest.assignment == a.id && p.digest.about == a.about && p.digest.integrator == a.attempts[i].selected)
  }

  /** Recognises a request of the dispatcher for one attempt. */
  predicate IsAssignmentRequest(
    a: Assignment, t: Attempt, dispatcher: string, parse: string -> Option<Profile>, m: AgentMessage)
  {
    && m.from == dispatcher && m.to == t.selected && m.kind == Request && m.about == a.about && m.replyTo.None?
    && parse(m.body) == Some(AssignmentProfile(a.id, t.attempt, a.about, t.selected, a.terms))
  }

  function OutcomePhase(outcome: OutcomeState): Phase {
    match outcome
    case Completed => Phase.Completed
    case Blocked => Phase.Blocked
    case RequiresHuman => Phase.RequiresHuman
    case Cancelled => Phase.Cancelled
  }

  /** Applies one reply; a stale, duplicate or superseded one changes nothing. */
  function ApplyProfile(a: Assignment, p: Profile, m: AgentMessage, dispatcher: string): (r: (Assignment, bool))
    ensures !r.1 ==> r.0 == a
  {
    var i := FindAttempt(a.attempts, p.attempt);
    if !ProfileMatches(a, p, m, dispatcher) then (a, false)
    else if p.attempt + 1 != |a.attempts| || a.phase.Revoked? then (a, false)
    else if !a.attempts[i].state.IsOpen() then (a, false)
    else
      match p
      case AcceptedProfile(_, _, _) =>
        if !a.phase.Offered? then (a, false)
        else (WithAttempt(a, i, a.attempts[i].(state := AttemptState.Accepted, acceptance := Some(m.messageId)), Phase.Accepted), true)
      case ResultProfile(_, _, _, digest) =>
        if !a.phase.Accepted? then (a, false)
        else
          var state := if digest.outcome.Completed? then AttemptState.Completed else AttemptState.Blocked;
          (WithAttempt(a, i, a.attempts[i].(state := state, terminal := Some(m.messageId)),
                       OutcomePhase(digest.outcome)), true)
      case BlockedProfile(_, _, _) =>
        if !a.phase.Offered? && !a.phase.Accepted? then (a, false)
        else (WithAttempt(a, i, a.attempts[i].(state := AttemptState.Blocked, terminal := Some(m.messageId)), Phase.Blocked), true)
      case AssignmentProfile(_, _, _, _, _) => (a, false)
  }

  function WithAttempt(a: Assignment, i: nat, t: Attempt, phase: Phase): Assignment
    requires i < |a.attempts|
  {
    a.(attempts := a.attempts[i := t], phase := phase)
  }

  function WithLastState(a: Assignment, state: AttemptState): Assignment {
    if a.attempts == [] then a
    else
      var last := |a.attempts| - 1;
      a.(attempts := a.attempts[last := a.attempts[last].(state := state)])
  }

  predicate CanOffer(a: Assignment) {
    |a.attempts| < |a.ranked| && |a.attempts| < INTEGRATOR_MAX_ATTEMPTS
  }

  /** Offers the next ranked candidate, closing an attempt that is still open. */
  function OfferNext(a: Assignment): Assignment
    requires CanOffer(a)
  {
    var closed :=
      if a.attempts != [] && a.attempts[|a.attempts| - 1].state.IsOpen()
      then WithLastState(a, AttemptState.Superseded) else a;
    var n := |closed.attempts|;
    closed.(
      attempts := closed.attempts + [Attempt(n, a.ranked[n], AttemptState.Offered, None, None, None)],
      phase := Phase.Offered)
  }

  /** The published request's id becomes the attempt's request and the cursor. */
  function RecordRequest(a: Assignment, id: Id): Assignment
    requires a.attempts != []
  {
    var last := |a.attempts| - 1;
    a.(attempts := a.attempts[last := a.attempts[last].(request := Some(id))], cursor := Some(id))
  }

  /** The last offer was persisted but its request is not recorded yet. */
  predicate NeedsSend(a: Assignment) {
    a.attempts != [] && a.attempts[|a.attempts| - 1].state.Offered? && a.attempts[|a.attempts| - 1].request.None?
  }

  /** Attempt i is numbered i and selects ranked[i], and only the last attempt
      can be open. */
  ghost predicate OffersInOrder(a: Assignment) {
    && |a.attempts| <= |a.ranked| && |a.attempts| <= INTEGRATOR_MAX_ATTEMPTS
    && (forall i :: 0 <= i < |a.attempts| ==> a.attempts[i].attempt == i && a.attempts[i].selected == a.ranked[i])
    && (forall i :: 0 <= i < |a.attempts| - 1 ==> !a.attempts[i].state.IsOpen())
  }

  /** The phase and the last attempt say the same; only a lost inbox can turn
      any phase into one for a human. */
  ghost predicate PhaseFits(a: Assignment) {
    if a.attempts == [] then a.phase.Created? || a.phase.RequiresHuman?
    else
      match a.attempts[|a.attempts| - 1].state
      case Offered => a.phase.Offered? || a.phase.RequiresHuman?
      case Accepted => a.phase.Accepted? || a.phase.RequiresHuman?
      case Completed => a.phase.Completed? || a.phase.RequiresHuman?
      case Blocked => a.phase.Blocked? || a.phase.Cancelled? || a.phase.RequiresHuman?
      case TimedOut => a.phase.Cancelled? || a.phase.RequiresHuman?
      case Superseded => false
      case Revoked => false
  }

  /** Offers are in order and the phase agrees with the last of them. */
  ghost predicate AttemptsOk(a: Assignment) {
    OffersInOrder(a) && PhaseFits(a)
  }

  /** `b` is `a` some steps later: the same draw, no offer undone, and every
      attempt before `a`'s last exactly as it was. */
  ghost predicate Later(a: Assignment, b: Assignment) {
    && b.id == a.id && b.about == a.about && b.terms == a.terms && b.ranked == a.ranked
    && |a.attempts| <= |b.attempts|
    && forall i :: 0 <= i < |a.attempts| - 1 ==> b.attempts[i] == a.attempts[i]
  }

  lemma LaterTransitive(a: Assignment, b: Assignment, c: Assignment)
    requires Later(a, b) && Later(b, c)
    ensures Later(a, c)
  {
  }

  lemma ApplyProfileOk(a: Assignment, p: Profile, m: AgentMessage, dispatcher: string)
    requires AttemptsOk(a)
    ensures var r := ApplyProfile(a, p, m, dispatcher);
            && AttemptsOk(r.0) && Later(a, r.0) && |r.0.attempts| == |a.attempts| && r.0.cursor == a.cursor
            && (NeedsSend(r.0) ==> NeedsSend(a))
  {
    var i := FindAttempt(a.attempts, p.attempt);
    if p.attempt < |a.attempts| {
      assert a.attempts[p.attempt].attempt == p.attempt;
    }
  }

  /** A reply to an earlier attempt, to a closed one, or from anyone but the
      selected candidate answering its own request changes nothing. */
  lemma StaleReplyIsNoOp(a: Assignment, p: Profile, m: AgentMessage, dispatcher: string)
    requires AttemptsOk(a)
    requires || p.attempt + 1 != |a.attempts|
             || !a.attempts[p.attempt].state.IsOpen()
             || m.from != a.ranked[p.attempt]
             || m.replyTo != a.attempts[p.attempt].request
    ensures ApplyProfile(a, p, m, dispatcher) == (a, false)
  {
    var i := FindAttempt(a.attempts, p.attempt);
    if p.attempt < |a.attempts| {
      assert a.attempts[p.attempt].attempt == p.attempt;
    }
  }

  lemma OfferNextOk(a: Assignment)
    requires OffersInOrder(a) && CanOffer(a)
    ensures AttemptsOk(OfferNext(a)) && Later(a, OfferNext(a)) && NeedsSend(OfferNext(a))
    ensures |OfferNext(a).attempts| == |a.attempts| + 1 && OfferNext(a).cursor == a.cursor
    ensures OfferNext(a).phase == Phase.Offered
    ensures OfferNext(a).attempts[|a.attempts|] ==
            Attempt(|a.attempts|, a.ranked[|a.attempts|], AttemptState.Offered, None, None, None)
    ensures a.attempts != [] ==>
              var last := |a.attempts| - 1;
              OfferNext(a).attempts[last] ==
              if a.attempts[last].state == AttemptState.Offered || a.attempts[last].state == AttemptState.Accepted
              then a.attempts[last].(state := AttemptState.Superseded) else a.attempts[last]
  {
  }

  /** `m` with profile `p` is an answer of the candidate of attempt `n` to the
      request it was sent, of the kind its profile calls for. */
  predicate AnswersAttempt(a: Assignment, p: Profile, m: AgentMessage, dispatcher: string, n: nat)
    requires n < |a.attempts| && n < |a.ranked|
  {
    && p.assignment == a.id && p.attempt == n && p.about == a.about
    && m.from == a.ranked[n] && m.to == dispatcher && m.about == a.about && m.replyTo == a.attempts[n].request
    && match p
       case AcceptedProfile(_, _, _) => m.kind == Status
       case BlockedProfile(_, _, _) => m.kind == BlockedReply
       case ResultProfile(_, _, _, digest) =>
         m.kind == ResultReply && digest.assignment == a.id && digest.about == a.about && digest.integrator == a.ranked[n]
       case AssignmentProfile(_, _, _, _, _) => false
  }

  /** The kind of reply fits the phase: an offer is accepted or declined, an
      accepted one is finished or blocked. */
  predicate FitsPhase(a: Assignment, p: Profile) {
    match p
    case AcceptedProfile(_, _, _) => a.phase.Offered?
    case ResultProfile(_, _, _, _) => a.phase.Accepted?
    case BlockedProfile(_, _, _) => a.phase.Offered? || a.phase.Accepted?
    case AssignmentProfile(_, _, _, _, _) => false
  }

  /** What an applied reply makes of the phase and of the attempt. */
  ghost predicate Took(p: Profile, m: AgentMessage, before: Attempt, after: Attempt, phase: Phase) {
    && after.attempt == before.attempt && after.selected == before.selected && after.request == before.request
    && match p
       case AcceptedProfile(_, _, _) =>
         && phase == Phase.Accepted && after.state == AttemptState.Accepted
         && after.acceptance == Some(m.messageId) && after.terminal == before.terminal
       case BlockedProfile(_, _, _) =>
         && phase == Phase.Blocked && after.state == AttemptState.Blocked
         && after.terminal == Some(m.messageId) && after.acceptance == before.acceptance
       case ResultProfile(_, _, _, digest) =>
         && after.terminal == Some(m.messageId) && after.acceptance == before.acceptance
         && (digest.outcome == OutcomeState.Completed <==> phase == Phase.Completed)
         && (digest.outcome == OutcomeState.Blocked <==> phase == Phase.Blocked)
         && (digest.outcome == OutcomeState.RequiresHuman <==> phase == Phase.RequiresHuman)
         && (digest.outcome == OutcomeState.Cancelled <==> phase == Phase.Cancelled)
         && after.state == (if digest.outcome == OutcomeState.Completed then AttemptState.Completed else AttemptState.Blocked)
       case AssignmentProfile(_, _, _, _, _) => false
  }

  lemma MatchesIff(a: Assignment, p: Profile, m: AgentMessage, dispatcher: string)
    requires OffersInOrder(a)
    ensures ProfileMatches(a, p, m, dispatcher) <==>
            p.attempt < |a.attempts| && AnswersAttempt(a, p, m, dispatcher, p.attempt)
  {
    if p.attempt < |a.attempts| {
      assert a.attempts[p.attempt].attempt == p.attempt;
    }
  }

  /** A reply is applied exactly when the selected candidate of the last
      attempt answers its own request with a kind that fits the phase; then
      that attempt alone changes, as the reply says, and otherwise nothing. */
  lemma ReplyAppliedIff(a: Assignment, p: Profile, m: AgentMessage, dispatcher: string)
    requires AttemptsOk(a)
    ensures var (b, changed) := ApplyProfile(a, p, m, dispatcher);
            changed <==>
              && a.attempts != [] && AnswersAttempt(a, p, m, dispatcher, |a.attempts| - 1)
              && FitsPhase(a, p)
    ensures var (b, changed) := ApplyProfile(a, p, m, dispatcher);
            !changed ==> b == a
    ensures var (b, changed) := ApplyProfile(a, p, m, dispatcher);
            changed ==>
              var last := |a.attempts| - 1;
              && b.attempts == a.attempts[last := b.attempts[last]]
              && b == a.(attempts := b.attempts, phase := b.phase)
              && Took(p, m, a.attempts[last], b.attempts[last], b.phase)
  {
    MatchesIff(a, p, m, dispatcher);
    if p.attempt < |a.attempts| {
      assert a.attempts[p.attempt].attempt == p.attempt;
    }
  }

  // ----- one observation

  datatype Reply = Reply(profile: Profile, message: AgentMessage)

  function ApplyOrder(p: Profile): nat {
    match p
    case AcceptedProfile(_, _, _) => 0
    case ResultProfile(_, _, _, _) => 1
    case BlockedProfile(_, _, _) => 1
    case AssignmentProfile(_, _, _, _, _) => 2
  }

  /** Acceptances first, then older before newer, ties by id. */
  predicate AppliesBefore(a: Reply, b: Reply) {
    || ApplyOrder(a.profile) < ApplyOrder(b.profile)
    || (ApplyOrder(a.profile) == ApplyOrder(b.profile)
        && (a.message.createdAtMs < b.message.createdAtMs
            || (a.message.createdAtMs == b.message.createdAtMs && a.message.messageId <= b.message.messageId)))
  }

  /** A result whose inspected snapshot cannot be reached is passed over. */
  function ApplyReply(a: Assignment, r: Reply, dispatcher: string, inspectable: Digest -> bool): (Assignment, bool) {
    if r.profile.ResultProfile? && !inspectable(r.profile.digest) then (a, false)
    else ApplyProfile(a, r.profile, r.message, dispatcher)
  }

  function ApplyAll(a: Assignment, rs: seq<Reply>, dispatcher: string, inspectable: Digest -> bool): Assignment
    decreases |rs|
  {
    if rs == [] then a
    else ApplyAll(ApplyReply(a, rs[0], dispatcher, inspectable).0, rs[1..], dispatcher, inspectable)
  }

  /** `b` is `a` after `n` replies of one observation were applied. */
  ghost predicate Observed(a: Assignment, b: Assignment, n: nat) {
    && AttemptsOk(b) && Later(a, b) && |b.attempts| == |a.attempts| && b.cursor == a.cursor
    && (NeedsSend(b) ==> NeedsSend(a))
    && n <= 2 && (n == 0 ==> b == a)
    && (n >= 1 ==> !b.phase.Offered?) && (n >= 2 ==> !b.phase.Accepted?)
  }

  lemma ObservedStep(
    a: Assignment, b: Assignment, n: nat, r: Reply, dispatcher: string, inspectable: Digest -> bool)
    requires Observed(a, b, n)
    ensures var (next, changed) := ApplyReply(b, r, dispatcher, inspectable);
            (changed ==> Observed(a, next, n + 1)) && (!changed ==> next == b)
  {
    var (next, changed) := ApplyReply(b, r, dispatcher, inspectable);
    ApplyProfileOk(b, r.profile, r.message, dispatcher);
    ReplyAppliedIff(b, r.profile, r.message, dispatcher);
    LaterTransitive(a, b, next);
  }

  /** One observation's replies, applied in the program's order. */
  method ApplyReplies(a: Assignment, replies: seq<Reply>, dispatcher: string, inspectable: Digest -> bool)
    returns (b: Assignment, processed: nat)
    requires AttemptsOk(a)
    ensures b == ApplyAll(a, SortBy(replies, AppliesBefore), dispatcher, inspectable)
    ensures AttemptsOk(b) && Later(a, b) && |b.attempts| == |a.attempts| && b.cursor == a.cursor
    ensures NeedsSend(b) ==> NeedsSend(a)
    ensures processed == 0 ==> b == a
    ensures processed <= |replies| && processed <= 2
  {
    var ordered := SortBy(replies, AppliesBefore);
    Rearranged(replies, ordered);
    b, processed := a, 0;
    for i := 0 to |ordered|
      invariant ApplyAll(a, ordered, dispatcher, inspectable) == ApplyAll(b, ordered[i..], dispatcher, inspectable)
      invariant Observed(a, b, processed) && processed <= i
    {
      var r := ordered[i];
      assert ordered[i..][0] == r && ordered[i..][1..] == ordered[i + 1..];
      var (next, changed) := ApplyReply(b, r, dispatcher, inspectable);
      ObservedStep(a, b, processed, r, dispatcher, inspectable);
      if changed {
        b, processed := next, processed + 1;
      }
    }
    assert ordered[|ordered|..] == [];
  }

  /** The last attempt's own reply, ready to be applied. */
  predicate Answers(a: Assignment, r: Reply, dispatcher: string, inspectable: Digest -> bool) {
    && ProfileMatches(a, r.profile, r.message, dispatcher) && r.profile.attempt + 1 == |a.attempts|
    && (r.profile.ResultProfile? ==> inspectable(r.profile.digest))
  }

  predicate IsTerminalReply(r: Reply) {
    r.profile.ResultProfile? || r.profile.BlockedProfile?
  }

  ghost predicate HasTerminal(a: Assignment, rs: seq<Reply>, dispatcher: string, inspectable: Digest -> bool) {
    exists r :: r in rs && Answers(a, r, dispatcher, inspectable) && IsTerminalReply(r)
  }

  /** Whom a reply must come from, and about what, is the same in `b`. */
  ghost predicate SameAddress(a: Assignment, b: Assignment) {
    && b.id == a.id && b.about == a.about && |b.attempts| == |a.attempts|
    && (forall i :: 0 <= i < |a.attempts| ==>
          && b.attempts[i].attempt == a.attempts[i].attempt && b.attempts[i].selected == a.attempts[i].selected
          && b.attempts[i].request == a.attempts[i].request)
  }

  lemma {:induction false} FindSame(a: seq<Attempt>, b: seq<Attempt>, n: nat)
    requires |a| == |b| && forall i :: 0 <= i < |a| ==> b[i].attempt == a[i].attempt
    ensures FindAttempt(a, n) == FindAttempt(b, n)
  {
    if a != [] {
      FindSame(a[1..], b[1..], n);
    }
  }

  lemma SameAnswers(a: Assignment, b: Assignment, r: Reply, dispatcher: string, inspectable: Digest -> bool)
    requires SameAddress(a, b)
    ensures Answers(a, r, dispatcher, inspectable) <==> Answers(b, r, dispatcher, inspectable)
  {
    FindSame(a.attempts, b.attempts, r.profile.attempt);
  }

  lemma ReplyKeepsAddress(a: Assignment, r: Reply, dispatcher: string, inspectable: Digest -> bool)
    requires AttemptsOk(a)
    ensures SameAddress(a, ApplyReply(a, r, dispatcher, inspectable).0)
    ensures AttemptsOk(ApplyReply(a, r, dispatcher, inspectable).0)
  {
    ApplyProfileOk(a, r.profile, r.message, dispatcher);
    ReplyAppliedIff(a, r.profile, r.message, dispatcher);
  }

  /** A closed assignment is left alone by every further reply. */
  lemma {:induction false} ClosedStays(a: Assignment, rs: seq<Reply>, dispatcher: string, inspectable: Digest -> bool)
    requires AttemptsOk(a) && !a.phase.Offered? && !a.phase.Accepted?
    ensures ApplyAll(a, rs, dispatcher, inspectable) == a
    decreases |rs|
  {
    if rs != [] {
      ReplyAppliedIff(a, rs[0].profile, rs[0].message, dispatcher);
      ClosedStays(a, rs[1..], dispatcher, inspectable);
    }
  }

  function LastAttempt(a: Assignment): Attempt
    requires a.attempts != []
  {
    a.attempts[|a.attempts| - 1]
  }

  /** `t` was sent no later than `u`; of two sent together the smaller id
      counts first. */
  predicate NotLater(t: Reply, u: Reply) {
    || t.message.createdAtMs < u.message.createdAtMs
    || (t.message.createdAtMs == u.message.createdAtMs && t.message.messageId <= u.message.messageId)
  }

  /** The earliest acceptance, or the earliest terminal reply, among `rs`. */
  ghost predicate FirstOf(
    a: Assignment, rs: seq<Reply>, t: Reply, terminal: bool, dispatcher: string, inspectable: Digest -> bool)
  {
    && t in rs && Answers(a, t, dispatcher, inspectable) && IsTerminalReply(t) == terminal
    && (forall u :: u in rs && Answers(a, u, dispatcher, inspectable) && IsTerminalReply(u) == terminal ==> NotLater(t, u))
  }

  lemma FrontIsFirst(
    a: Assignment, rs: seq<Reply>, dispatcher: string, inspectable: Digest -> bool)
    requires rs != [] && Sorted(rs, AppliesBefore) && Answers(a, rs[0], dispatcher, inspectable)
    ensures FirstOf(a, rs, rs[0], IsTerminalReply(rs[0]), dispatcher, inspectable)
  {
    forall u | u in rs && Answers(a, u, dispatcher, inspectable) && IsTerminalReply(u) == IsTerminalReply(rs[0])
      ensures NotLater(rs[0], u)
    {
      var i :| 0 <= i < |rs| && rs[i] == u;
      assert i == 0 || AppliesBefore(rs[0], rs[i]);
    }
  }

  lemma FirstOfMore(
    a: Assignment, b: Assignment, rs: seq<Reply>, t: Reply, terminal: bool, dispatcher: string, inspectable: Digest -> bool)
    requires rs != [] && SameAddress(a, b) && FirstOf(b, rs[1..], t, terminal, dispatcher, inspectable)
    requires !(Answers(a, rs[0], dispatcher, inspectable) && IsTerminalReply(rs[0]) == terminal)
    ensures FirstOf(a, rs, t, terminal, dispatcher, inspectable)
  {
    SameAnswers(a, b, t, dispatcher, inspectable);
    forall u | u in rs && Answers(a, u, dispatcher, inspectable) && IsTerminalReply(u) == terminal
      ensures NotLater(t, u)
    {
      SameAnswers(a, b, u, dispatcher, inspectable);
      assert u in rs[1..];
    }
  }

  /** Once accepted, the earliest terminal reply of the read is applied. */
  lemma {:induction false} TerminalIsApplied(a: Assignment, rs: seq<Reply>, dispatcher: string, inspectable: Digest -> bool)
    returns (t: Reply)
    requires AttemptsOk(a) && a.phase.Accepted? && HasTerminal(a, rs, dispatcher, inspectable)
    requires Sorted(rs, AppliesBefore)
    ensures FirstOf(a, rs, t, true, dispatcher, inspectable)
    ensures var b := ApplyAll(a, rs, dispatcher, inspectable);
            && b.attempts != [] && LastAttempt(b).acceptance == LastAttempt(a).acceptance
            && LastAttempt(b).terminal == Some(t.message.messageId) && !b.phase.Accepted? && !b.phase.Offered?
    decreases |rs|
  {
    var r, rest := rs[0], rs[1..];
    var next := ApplyReply(a, r, dispatcher, inspectable).0;
    ReplyAppliedIff(a, r.profile, r.message, dispatcher);
    MatchesIff(a, r.profile, r.message, dispatcher);
    ReplyKeepsAddress(a, r, dispatcher, inspectable);
    if Answers(a, r, dispatcher, inspectable) && IsTerminalReply(r) {
      t := r;
      FrontIsFirst(a, rs, dispatcher, inspectable);
      ClosedStays(next, rest, dispatcher, inspectable);
    } else {
      assert next == a;
      var u :| u in rs && Answers(a, u, dispatcher, inspectable) && IsTerminalReply(u);
      assert u in rest;
      t := TerminalIsApplied(a, rest, dispatcher, inspectable);
      FirstOfMore(a, a, rs, t, true, dispatcher, inspectable);
    }
  }

  /** An acceptance and a terminal reply in one read are both applied, however
      the inbox delivered them, and of several the earliest. */
  lemma AcceptedAndTerminalBothApplied(
    a: Assignment, replies: seq<Reply>, accepted: Reply, dispatcher: string, inspectable: Digest -> bool)
    returns (first: Reply, last: Reply)
    requires AttemptsOk(a) && a.phase.Offered?
    requires accepted in replies && accepted.profile.AcceptedProfile? && Answers(a, accepted, dispatcher, inspectable)
    requires HasTerminal(a, replies, dispatcher, inspectable)
    ensures FirstOf(a, replies, first, false, dispatcher, inspectable) && FirstOf(a, replies, last, true, dispatcher, inspectable)
    ensures var b := ApplyAll(a, SortBy(replies, AppliesBefore), dispatcher, inspectable);
            && b.attempts != [] && !b.phase.Accepted? && !b.phase.Offered?
            && LastAttempt(b).acceptance == Some(first.message.messageId)
            && LastAttempt(b).terminal == Some(last.message.messageId)
  {
    var ordered := SortBy(replies, AppliesBefore);
    SortBySorted(replies, AppliesBefore);
    Rearranged(replies, ordered);
    var t :| t in replies && Answers(a, t, dispatcher, inspectable) && IsTerminalReply(t);
    assert t in ordered;
    first, last := BothInOrder(a, ordered, accepted, dispatcher, inspectable);
  }

  /** An offer is accepted by its candidate's acceptance, and any other reply
      that is no answer leaves it alone. */
  lemma ReplyToOffer(a: Assignment, r: Reply, dispatcher: string, inspectable: Digest -> bool) returns (next: Assignment)
    requires AttemptsOk(a) && a.phase.Offered?
    ensures next == ApplyReply(a, r, dispatcher, inspectable).0 && AttemptsOk(next) && SameAddress(a, next)
    ensures !Answers(a, r, dispatcher, inspectable) ==> next == a
    ensures Answers(a, r, dispatcher, inspectable) && !IsTerminalReply(r) ==>
              next.phase.Accepted? && next.attempts != [] && LastAttempt(next).acceptance == Some(r.message.messageId)
  {
    next := ApplyReply(a, r, dispatcher, inspectable).0;
    ReplyAppliedIff(a, r.profile, r.message, dispatcher);
    MatchesIff(a, r.profile, r.message, dispatcher);
    ReplyKeepsAddress(a, r, dispatcher, inspectable);
  }

  lemma {:induction false} BothInOrder(
    a: Assignment, rs: seq<Reply>, accepted: Reply, dispatcher: string, inspectable: Digest -> bool)
    returns (first: Reply, last: Reply)
    requires AttemptsOk(a) && a.phase.Offered? && Sorted(rs, AppliesBefore)
    requires accepted in rs && accepted.profile.AcceptedProfile? && Answers(a, accepted, dispatcher, inspectable)
    requires HasTerminal(a, rs, dispatcher, inspectable)
    ensures FirstOf(a, rs, first, false, dispatcher, inspectable) && FirstOf(a, rs, last, true, dispatcher, inspectable)
    ensures var b := ApplyAll(a, rs, dispatcher, inspectable);
            && b.attempts != [] && !b.phase.Accepted? && !b.phase.Offered?
            && LastAttempt(b).acceptance == Some(first.message.messageId)
            && LastAttempt(b).terminal == Some(last.message.messageId)
    decreases |rs|
  {
    var r, rest := rs[0], rs[1..];
    AcceptedComesFirst(a, rs, accepted, dispatcher, inspectable);
    if Answers(a, r, dispatcher, inspectable) {
      first := r;
      FrontIsFirst(a, rs, dispatcher, inspectable);
      last := AcceptedThenTerminal(a, rs, dispatcher, inspectable);
    } else {
      var same := ReplyToOffer(a, r, dispatcher, inspectable);
      first, last := BothInOrder(a, rest, accepted, dispatcher, inspectable);
      FirstOfMore(a, a, rs, first, false, dispatcher, inspectable);
      FirstOfMore(a, a, rs, last, true, dispatcher, inspectable);
    }
  }

  /** The sorted replies do not start with the terminal one. */
  lemma AcceptedComesFirst(
    a: Assignment, rs: seq<Reply>, accepted: Reply, dispatcher: string, inspectable: Digest -> bool)
    requires Sorted(rs, AppliesBefore) && HasTerminal(a, rs, dispatcher, inspectable)
    requires accepted in rs && accepted.profile.AcceptedProfile?
    ensures !IsTerminalReply(rs[0]) && HasTerminal(a, rs[1..], dispatcher, inspectable)
    ensures accepted == rs[0] || accepted in rs[1..]
  {
    var i :| 0 <= i < |rs| && rs[i] == accepted;
    assert i == 0 || AppliesBefore(rs[0], rs[i]);
    assert i == 0 || accepted == rs[1..][i - 1];
    var t :| t in rs && Answers(a, t, dispatcher, inspectable) && IsTerminalReply(t);
    assert t in rs[1..];
  }

  lemma AcceptedThenTerminal(a: Assignment, rs: seq<Reply>, dispatcher: string, inspectable: Digest -> bool)
    returns (last: Reply)
    requires AttemptsOk(a) && a.phase.Offered? && Sorted(rs, AppliesBefore)
    requires rs != [] && Answers(a, rs[0], dispatcher, inspectable) && !IsTerminalReply(rs[0])
    requires HasTerminal(a, rs[1..], dispatcher, inspectable)
    ensures FirstOf(a, rs, last, true, dispatcher, inspectable)
    ensures var b := ApplyAll(a, rs, dispatcher, inspectable);
            && b.attempts != [] && !b.phase.Accepted? && !b.phase.Offered?
            && LastAttempt(b).acceptance == Some(rs[0].message.messageId)
            && LastAttempt(b).terminal == Some(last.message.messageId)
  {
    var next := ReplyToOffer(a, rs[0], dispatcher, inspectable);
    var t :| t in rs[1..] && Answers(a, t, dispatcher, inspectable) && IsTerminalReply(t);
    SameAnswers(a, next, t, dispatcher, inspectable);
    last := TerminalIsApplied(next, rs[1..], dispatcher, inspectable);
    FirstOfMore(a, next, rs, last, true, dispatcher, inspectable);
  }
}
