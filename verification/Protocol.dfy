/** The reducer that projects resolution profiles out of the signal stream. */
module Protocol {
  import opened Base
  import opened Sorting

  const MAX_ENTRIES: nat := 64
  const MAX_APPLIED: nat := 4096
  const MAX_PENDING_PER_FINGERPRINT: nat := 8
  const MAX_PENDING_FINGERPRINTS: nat := 64

  datatype Job = Job(jobId: Id, assignmentId: Id, attempt: nat, owner: string, fingerprint: Id, body: string)

  datatype ResolutionResult = ResolutionResult(
    jobId: Id, assignmentId: Id, attempt: nat, fingerprint: Id, generation: nat, body: string)

  datatype HumanAnswer = HumanAnswer(
    jobId: Id, assignmentId: Id, attempt: nat, fingerprint: Id, generation: nat, body: string)

  datatype Revocation = Revocation(jobId: Id, assignmentId: Id, attempt: nat, fingerprint: Id, reason: nat)

  datatype Profile =
    | Assignment(job: Job, generation: Option<nat>)
    | Finished(result: ResolutionResult)
    | Revoke(revocation: Revocation)
    | Answered(answer: HumanAnswer)

  datatype Message = Message(id: Id, sender: string, body: string)

  /** Recognises a profile in a message body. */
  type Parser = string -> Option<Profile>

  datatype EntryState = Assigned | ResultReceived | HumanAnswered | Revoked

  datatype Entry = Entry(
    fingerprint: Id, jobId: Id, assignmentId: Id, attempt: nat, owner: string, job: Option<Job>,
    state: EntryState, generation: nat, result: Option<ResolutionResult>, answer: Option<HumanAnswer>,
    revokeReason: Option<nat>, observed: Id)

  datatype Held = Held(message: Message, profile: Profile)

  datatype Projection = Projection(
    incomplete: bool, applied: seq<Id>, entries: map<Id, Entry>, pending: map<Id, seq<Held>>)

  const Empty: Projection := Projection(false, [], map[], map[])

  /** A projection together with the jobs to import. */
  datatype Reduced = Reduced(p: Projection, imports: seq<Job>)

  datatype ProtocolError = FingerprintCollision | LateResult | LateAnswer

  function FingerprintOf(profile: Profile): Id {
    match profile
    case Assignment(job, _) => job.fingerprint
    case Finished(result) => result.fingerprint
    case Revoke(r) => r.fingerprint
    case Answered(a) => a.fingerprint
  }

  // ----- applied ids

  predicate Ascending(s: seq<Id>) {
    forall i, j :: 0 <= i < j < |s| ==> s[i] < s[j]
  }

  function InsertId(s: seq<Id>, id: Id): seq<Id> {
    if s == [] || id < s[0] then [id] + s else [s[0]] + InsertId(s[1..], id)
  }

  function RegisterApplied(p: Projection, id: Id): Projection {
    if id in p.applied then p
    else if |p.applied| >= MAX_APPLIED then
      p.(incomplete := true, applied := InsertId(p.applied[MAX_APPLIED / 2..], id))
    else p.(applied := InsertId(p.applied, id))
  }

  // ----- one profile against one entry

  datatype Outcome = Outcome(entry: Entry, held: bool, job: Option<Job>)

  function Assigning(job: Job, generation: Option<nat>, id: Id): Entry {
    Entry(job.fingerprint, job.jobId, job.assignmentId, job.attempt, job.owner, Some(job), Assigned,
          if generation.Some? then generation.value else 0, None, None, None, id)
  }

  predicate ResultBinds(r: ResolutionResult, e: Entry) {
    && r.jobId == e.jobId && r.assignmentId == e.assignmentId && r.attempt == e.attempt
    && r.fingerprint == e.fingerprint
  }

  predicate AnswerBinds(a: HumanAnswer, e: Entry) {
    && a.jobId == e.jobId && a.assignmentId == e.assignmentId && a.attempt == e.attempt
    && a.fingerprint == e.fingerprint
  }

  predicate RevokeBinds(r: Revocation, e: Entry) {
    && r.jobId == e.jobId && r.assignmentId == e.assignmentId && r.fingerprint == e.fingerprint
    && r.attempt >= e.attempt
  }

  function Settle(e: Entry): Result<Outcome, ProtocolError> {
    Ok(Outcome(e, false, None))
  }

  function Hold(e: Entry): Result<Outcome, ProtocolError> {
    Ok(Outcome(e, true, None))
  }

  function ApplyProfile(e: Entry, profile: Profile, id: Id, sender: string): Result<Outcome, ProtocolError> {
    match profile
    case Assignment(job, generation) =>
      if e.jobId == job.jobId && e.assignmentId == job.assignmentId then Settle(e)
      else if e.assignmentId == job.assignmentId && e.attempt == job.attempt then
        Ok(Outcome(Assigning(job, generation, id), false, Some(job)))
      else Err(FingerprintCollision)
    case Finished(r) =>
      if !(ResultBinds(r, e) && sender == e.owner) then Hold(e)
      else if e.state.Revoked? || e.result == Some(r) then Settle(e)
      else if e.result.Some? && id >= e.observed then Err(LateResult)
      else Settle(e.(state := ResultReceived, generation := r.generation, result := Some(r), observed := id))
    case Revoke(r) =>
      if !RevokeBinds(r, e) then Hold(e)
      else if e.state.Revoked? then Settle(e)
      else Settle(e.(state := Revoked, revokeReason := Some(r.reason), observed := id))
    case Answered(a) =>
      if !(AnswerBinds(a, e) && a.generation == e.generation) then Hold(e)
      else if e.state.Revoked? || e.answer == Some(a) then Settle(e)
      else if e.answer.Some? && id >= e.observed then Err(LateAnswer)
      else Settle(e.(state := HumanAnswered, answer := Some(a), observed := id))
  }

  // ----- held profiles

  predicate HeldBefore(a: Held, b: Held) {
    a.message.id <= b.message.id
  }

  function HeldFor(p: Projection, fp: Id): seq<Held> {
    if fp in p.pending then p.pending[fp] else []
  }

  predicate AlreadyHeld(held: seq<Held>, id: Id) {
    exists i :: 0 <= i < |held| && held[i].message.id == id
  }

  function PushHeld(p: Projection, fp: Id, item: Held): Projection {
    p.(pending := p.pending[fp := SortBy(HeldFor(p, fp) + [item], HeldBefore)])
  }

  /** No room to hold one more profile for `fp`. */
  predicate PendingFull(p: Projection, fp: Id) {
    || |HeldFor(p, fp)| >= MAX_PENDING_PER_FINGERPRINT
    || (|p.pending| >= MAX_PENDING_FINGERPRINTS && fp !in p.pending)
  }

  /** Past the bound the profile is still held; only the flag is raised. */
  function HoldMessage(p: Projection, fp: Id, item: Held): Projection {
    if AlreadyHeld(HeldFor(p, fp), item.message.id) then p
    else PushHeld(p.(incomplete := p.incomplete || PendingFull(p, fp)), fp, item)
  }

  /** Retries one held profile; it is held again when it still does not bind. */
  function DrainOne(r: Reduced, fp: Id, item: Held): Result<Reduced, ProtocolError>
    requires fp in r.p.entries
  {
    match ApplyProfile(r.p.entries[fp], item.profile, item.message.id, item.message.sender)
    case Err(error) => Err(error)
    case Ok(o) =>
      if o.held then Ok(Reduced(PushHeld(r.p, fp, item), r.imports))
      else Ok(Applied(r, fp, o, item.message.id))
  }

  function Applied(r: Reduced, fp: Id, o: Outcome, id: Id): Reduced {
    Reduced(RegisterApplied(r.p.(entries := r.p.entries[fp := o.entry]), id),
            r.imports + (if o.job.Some? then [o.job.value] else []))
  }

  function DrainAll(r: Reduced, fp: Id, items: seq<Held>): (out: Result<Reduced, ProtocolError>)
    requires fp in r.p.entries
    ensures out.Ok? ==> fp in out.value.p.entries
    decreases |items|
  {
    if items == [] then Ok(r)
    else
      match DrainOne(r, fp, items[0])
      case Err(error) => Err(error)
      case Ok(next) => DrainAll(next, fp, items[1..])
  }

  /** One pass over the profiles held for `fp`. */
  function Drain(r: Reduced, fp: Id): Result<Reduced, ProtocolError>
    requires fp in r.p.entries
  {
    if fp !in r.p.pending then Ok(r)
    else DrainAll(r.(p := r.p.(pending := r.p.pending - {fp})), fp, r.p.pending[fp])
  }

  // ----- one message

  predicate IsFirstRevoked(entries: map<Id, Entry>, key: Id) {
    && key in entries && entries[key].state.Revoked?
    && (forall k :: k in entries && entries[k].state.Revoked? ==> key <= k)
  }

  /** The revoked entry with the smallest fingerprint, if any. */
  ghost function FirstRevoked(entries: map<Id, Entry>): Option<Id> {
    if k :| IsFirstRevoked(entries, k) then Some(k) else None
  }

  /** Makes room for one more entry if it can. */
  ghost function MakeRoom(p: Projection): Projection {
    if |p.entries| < MAX_ENTRIES then p
    else
      match FirstRevoked(p.entries)
      case Some(key) => p.(entries := p.entries - {key})
      case None => p.(incomplete := true)
  }

  ghost function FirstAssignment(r: Reduced, job: Job, generation: Option<nat>, id: Id): Result<Reduced, ProtocolError> {
    var p := MakeRoom(r.p);
    if |p.entries| >= MAX_ENTRIES then Ok(r.(p := p))
    else
      var fp := job.fingerprint;
      var registered := RegisterApplied(p, id);
      Drain(Reduced(registered.(entries := registered.entries[fp := Assigning(job, generation, id)]),
                    r.imports + [job]), fp)
  }

  ghost function Step(r: Reduced, m: Message, parse: Parser): Result<Reduced, ProtocolError> {
    match parse(m.body)
    case None => Ok(r)
    case Some(profile) => StepProfile(r, m, profile)
  }

  ghost function StepProfile(r: Reduced, m: Message, profile: Profile): Result<Reduced, ProtocolError> {
    var fp := FingerprintOf(profile);
    if fp in r.p.entries then
      match ApplyProfile(r.p.entries[fp], profile, m.id, m.sender)
      case Err(error) => Err(error)
      case Ok(o) =>
        if o.held then Ok(r.(p := HoldMessage(r.p, fp, Held(m, profile))))
        else Drain(Applied(r, fp, o, m.id), fp)
    else if profile.Assignment? then FirstAssignment(r, profile.job, profile.generation, m.id)
    else if m.id in r.p.applied then Ok(r)
    else Ok(r.(p := HoldMessage(r.p, fp, Held(m, profile))))
  }

  ghost function Fold(r: Reduced, ms: seq<Message>, parse: Parser): Result<Reduced, ProtocolError>
    decreases |ms|
  {
    if ms == [] then Ok(r)
    else
      match Step(r, ms[0], parse)
      case Err(error) => Err(error)
      case Ok(next) => Fold(next, ms[1..], parse)
  }

  predicate ById(a: Message, b: Message) {
    a.id <= b.id
  }

  /** A batch is applied in canonical message id order. */
  ghost function Batch(r: Reduced, ms: seq<Message>, parse: Parser): Result<Reduced, ProtocolError> {
    Fold(r, SortBy(ms, ById), parse)
  }
}
