/**
 The durable submission service (packages/gateway/src/submission.ts) as a state machine in which any number
 of invocations, of any number of service instances, interleave at every `await`. Each awaited call is
 three steps: it is issued, it takes effect, and its reply resumes the code up to the next `await`.
 An invocation may stall or crash between any two steps, and every clock reading is arbitrary.
 */
module Submission {
  import opened Common
  import opened CanonicalJson
  import opened SubmissionStore

  // ---------------------------------------------------------------- requests

  datatype Request = Request(
    schemaVersion: Text,
    principalId: Text,
    upstreamProfileId: Text,
    clientRequestId: Text,
    chainId: Text,
    signedOrder: Json,
    digest: Text)
  {
    function KeyOf(): Key {
      Key(principalId, upstreamProfileId, clientRequestId)
    }

    /** The part of the request its digest covers. */
    function Projection(): Json {
      RequestProjection(schemaVersion, upstreamProfileId, chainId, signedOrder)
    }
  }

  const SCHEMA_VERSION: Text := T("cork.limit-order-submission/v1")

  function RequestProjection(schemaVersion: Text, profile: Text, chainId: Text, signedOrder: Json): Json {
    Obj([
      Entry(T("schemaVersion"), Str(schemaVersion)),
      Entry(T("upstreamProfileId"), Str(profile)),
      Entry(T("chainId"), Str(chainId)),
      Entry(T("signedOrder"), signedOrder)])
  }

  predicate ValidRequest(w: World, request: Request) {
    && request.schemaVersion == SCHEMA_VERSION
    && IsCanonicalDecimal(request.chainId)
    && request.signedOrder.Obj?
    && ValidKey(request.KeyOf())
    && w.requestDigest(request.Projection()) == request.digest
  }

  // ---------------------------------------------------------------- upstream

  datatype SubmitOutcome =
    | SubmitAccepted(result: UpstreamResult, orderIdentifier: Option<Text>)
    | SubmitRejected(result: UpstreamResult, orderIdentifier: Option<Text>)
    | SubmitUncertain(identity: Json)
    | SubmitUndecodable(identity: Json)
    | SubmitThrew

  datatype ReconcileOutcome =
    | ReconcileFound(accepted: bool, result: UpstreamResult, orderIdentifier: Option<Text>, identity: Json)
    | ReconcileAbsent(identity: Json)
    | ReconcileUnproved(identity: Json)
    | ReconcileUndecodable(identity: Json)
    | ReconcileThrew

  datatype ServiceResult =
    | Terminal(accepted: bool, replayed: bool, result: UpstreamResult, orderIdentifier: Option<Text>)
    | RetryAuthorized(retryAfter: int)
    | InvalidRequest
    | KeyConflict
    | InProgress(until: Option<int>)
    | Unknown(attemptCount: int)
    | Threw

  // ---------------------------------------------------------------- invocations

  datatype Service = Service(ownerId: Text, dispatchMs: int, reconcileMs: int)

  /** What the code does with the reply of the repository call it awaits. */
  datatype Resumption =
    | SubmitCreated(now: int)
    | SubmitExpired(base: Record)
    | SubmitReclaimed(base: Record)
    | DispatchStarted(base: Record, started: Record)
    | DispatchTerminal(base: Record)
    | AmbiguousStored(base: Record)
    | ReconcileRead
    | ReconcileExpired(base: Record, now: int)
    | ReconcileIdle(base: Record, now: int)
    | ReconcileClaimed(base: Record)
    | ReconcileTerminal(base: Record)
    | RetryStored(base: Record, now: int)
    | Released(base: Record)

  datatype Pc =
    | Begin
    | AtStore(request: StoreRequest, after: Resumption)
    | Replied(reply: StoreReply, after: Resumption)
    | SubmitReady(started: Record)
    | SubmitAwait(started: Record)
    | ReconcileReady(owned: Record)
    | ReconcileAwait(owned: Record)
    | Done(result: ServiceResult)
    | Crashed

  datatype Operation = SubmitCall | ReconcileCall

  /** `attempt` is the number of the attempt whose durable start this invocation stored, or 0. */
  datatype Invocation = Invocation(service: Service, op: Operation, request: Request, pc: Pc, attempt: nat)

  datatype Clock = Clock(first: int, second: int)

  // ---------------------------------------------------------------- the service's local computation

  function RecordWith(w: World, current: Record, state: RecordState, phase: Option<Phase>, lease: Option<Lease>,
                      upstreamResult: Option<UpstreamResult>, orderIdentifier: Option<Text>,
                      append: Option<Evidence>, now: int): Option<Record>
  {
    var next := Record(
      current.version + 1, current.requestDigest, state, phase, current.attemptCount,
      current.lastDispatchStartedAt, lease, upstreamResult, orderIdentifier,
      if append.None? then current.evidence else current.evidence + [append.value], now);
    if ValidRecord(w, next) then Some(next) else None
  }

  /** The durable start: one more attempt, dated, under the lease already held. */
  function StartedFrom(w: World, claimed: Record, now: int): Option<Record> {
    var next := claimed.(version := claimed.version + 1, phase := Some(Started),
                         attemptCount := claimed.attemptCount + 1, lastDispatchStartedAt := Some(now),
                         upstreamResult := None, orderIdentifier := None, updatedAt := now);
    if ValidRecord(w, next) then Some(next) else None
  }

  function Replay(r: Record, replayed: bool): Pc {
    if r.Terminal() && r.upstreamResult.Some?
    then Done(Terminal(r.state.Accepted?, replayed, r.upstreamResult.value, r.orderIdentifier))
    else Done(Threw)
  }

  function Busy(r: Record): Pc {
    Done(InProgress(if r.lease.None? then None else Some(r.lease.value.expiresAt)))
  }

  function Unresolved(r: Record): Pc {
    Done(Unknown(r.attemptCount))
  }

  predicate LeaseLive(r: Record, now: int) {
    r.lease.Some? && r.lease.value.expiresAt > now
  }

  function Swap(key: Key, base: Record, next: Option<Record>, after: Resumption): Pc {
    if next.None? then Done(Threw) else AtStore(CompareAndSet(key, CompareExpectation(base), next.value), after)
  }

  /** Give up the lease and append one piece of evidence: the record becomes, or stays, idle ambiguous. */
  function ToAmbiguous(w: World, base: Record, kind: EvidenceKind, identity: Json, now: int): Option<Record> {
    var e := CreateEvidence(w, kind, now, identity);
    if e.None? then None else RecordWith(w, base, Ambiguous, None, None, None, None, e, now)
  }

  function VersionIdentity(r: Record): Json {
    Obj([Entry(T("recordVersion"), Num(DecimalText(r.version)))])
  }

  function KindIdentity(kind: string): Json {
    Obj([Entry(T("kind"), Str(T(kind)))])
  }

  function Start(w: World, inv: Invocation, clock: Clock): Pc {
    var request := inv.request;
    if !ValidRequest(w, request) then Done(InvalidRequest) else
    match inv.op
    case SubmitCall =>
      var initial := CreateInitialRecord(w, request.digest, inv.service.ownerId, clock.first, inv.service.dispatchMs);
      if initial.None? then Done(Threw)
      else AtStore(CreateIfAbsent(request.KeyOf(), initial.value), SubmitCreated(clock.first))
    case ReconcileCall =>
      AtStore(Read(request.KeyOf()), ReconcileRead)
  }

  /** A lease ran out: the record becomes idle ambiguous, with the version it had as evidence. */
  function Expire(w: World, key: Key, record: Record, kind: EvidenceKind, now: int, after: Resumption): Pc {
    Swap(key, record, ToAmbiguous(w, record, kind, VersionIdentity(record), now), after)
  }

  /** Take over a claim that never started. */
  function Reclaim(w: World, inv: Invocation, record: Record, now: int): Pc {
    var lease := CreateLease(ForDispatch, inv.service.ownerId, now, inv.service.dispatchMs);
    if lease.None? then Done(Threw)
    else Swap(inv.request.KeyOf(), record, RecordWith(w, record, Pending, Some(Claimed), lease, None, None, None, now),
              SubmitReclaimed(record))
  }

  /** `submit` after `createIfAbsent`. */
  function AfterCreated(w: World, inv: Invocation, record: Record, now: int, clock: Clock): Pc {
    var key := inv.request.KeyOf();
    if record.requestDigest != inv.request.digest then Done(KeyConflict)
    else if record.Terminal() then Replay(record, true)
    else if record.state.Ambiguous? then
      if LeaseLive(record, now) then Busy(record) else Unresolved(record)
    else if record.phase == Some(Started) then
      if LeaseLive(record, now) then Busy(record)
      else Expire(w, key, record, DispatchLeaseExpired, now, SubmitExpired(record))
    else AfterClaimed(w, inv, record, now, clock)
  }

  /** `submit` on a record that was claimed and not started. */
  function AfterClaimed(w: World, inv: Invocation, record: Record, now: int, clock: Clock): Pc {
    if record.lease.None? || !record.lease.value.purpose.ForDispatch? then Unresolved(record)
    else if record.lease.value.owner != inv.service.ownerId && record.lease.value.expiresAt > now then Busy(record)
    else if record.lease.value.owner != inv.service.ownerId || record.lease.value.expiresAt <= now then
      Reclaim(w, inv, record, now)
    else Dispatch(w, inv, record, clock.first)
  }

  function Dispatch(w: World, inv: Invocation, claimed: Record, now: int): Pc {
    if || !claimed.state.Pending?
       || claimed.phase != Some(Claimed)
       || claimed.lease.None?
       || !claimed.lease.value.purpose.ForDispatch?
       || claimed.lease.value.owner != inv.service.ownerId
       || claimed.attemptCount >= 2
    then Unresolved(claimed)
    else
      var started := StartedFrom(w, claimed, now);
      if started.None? then Done(Threw)
      else Swap(inv.request.KeyOf(), claimed, started, DispatchStarted(claimed, started.value))
  }

  function MarkAmbiguous(w: World, key: Key, started: Record, kind: EvidenceKind, identity: Json, now: int): Pc {
    Swap(key, started, ToAmbiguous(w, started, kind, identity, now), AmbiguousStored(started))
  }

  /** The upstream accepted or rejected: the answer becomes the terminal content. */
  function StoreAnswer(w: World, key: Key, started: Record, accepted: bool, result: UpstreamResult,
                       orderIdentifier: Option<Text>, now: int): Pc {
    Swap(key, started,
         RecordWith(w, started, if accepted then Accepted else Rejected, None, None, Some(result), orderIdentifier, None, now),
         DispatchTerminal(started))
  }

  /** `#dispatch` after the upstream answered. */
  function AfterSubmit(w: World, key: Key, started: Record, outcome: SubmitOutcome, clock: Clock): Pc {
    match outcome
    case SubmitThrew =>
      MarkAmbiguous(w, key, started, TransportUncertain, KindIdentity("adapter-throw"), clock.first)
    case SubmitUncertain(identity) =>
      MarkAmbiguous(w, key, started, TransportUncertain, identity, clock.first)
    case SubmitUndecodable(identity) =>
      MarkAmbiguous(w, key, started, ContentDecodingFailed, identity, clock.first)
    case _ =>
      if !w.acceptsResult(outcome.result) then
        MarkAmbiguous(w, key, started, ContentDecodingFailed, KindIdentity("invalid-upstream-result"), clock.first)
      else StoreAnswer(w, key, started, outcome.SubmitAccepted?, outcome.result, outcome.orderIdentifier, clock.first)
  }

  function ReleaseUnknown(w: World, key: Key, owned: Record, kind: EvidenceKind, identity: Json, now: int): Pc {
    Swap(key, owned, ToAmbiguous(w, owned, kind, identity, now), Released(owned))
  }

  /** The upstream knows the order: its answer becomes the terminal content. */
  function StoreFound(w: World, key: Key, owned: Record, accepted: bool, result: UpstreamResult,
                      orderIdentifier: Option<Text>, identity: Json, now: int): Pc {
    var e := CreateEvidence(w, if accepted then FoundAccepted else FoundRejected, now, identity);
    if e.None? then Done(Threw)
    else Swap(key, owned,
              RecordWith(w, owned, if accepted then Accepted else Rejected, None, None, Some(result), orderIdentifier, e, now),
              ReconcileTerminal(owned))
  }

  /** The upstream proved the first attempt absent: one more attempt is authorised, under a dispatch lease. */
  function GrantRetry(w: World, inv: Invocation, owned: Record, identity: Json, now: int): Pc {
    var e := CreateEvidence(w, AbsenceProved, now, identity);
    var lease := CreateLease(ForDispatch, inv.service.ownerId, now, inv.service.dispatchMs);
    if e.None? || lease.None? then Done(Threw)
    else Swap(inv.request.KeyOf(), owned,
              RecordWith(w, owned, Pending, Some(Claimed), lease, None, None, e, now), RetryStored(owned, now))
  }

  /** `#reconcileOwned` after the upstream answered. */
  function AfterReconcile(w: World, inv: Invocation, owned: Record, outcome: ReconcileOutcome, clock: Clock): Pc {
    var key := inv.request.KeyOf();
    match outcome
    case ReconcileFound(accepted, result, orderIdentifier, identity) =>
      if !w.acceptsResult(result) then
        ReleaseUnknown(w, key, owned, ContentDecodingFailed, KindIdentity("invalid-reconciliation-result"), clock.second)
      else StoreFound(w, key, owned, accepted, result, orderIdentifier, identity, clock.first)
    case ReconcileAbsent(identity) =>
      if owned.attemptCount == 1 then GrantRetry(w, inv, owned, identity, clock.first)
      else ReleaseUnknown(w, key, owned, AbsenceProved, identity, clock.second)
    case ReconcileUnproved(identity) =>
      ReleaseUnknown(w, key, owned, AbsenceUnproved, identity, clock.second)
    case ReconcileUndecodable(identity) =>
      ReleaseUnknown(w, key, owned, ContentDecodingFailed, identity, clock.second)
    case ReconcileThrew =>
      ReleaseUnknown(w, key, owned, AbsenceUnproved, KindIdentity("reconcile-adapter-throw"), clock.second)
  }

  /** `reconcile` after `read`. */
  function AfterRead(w: World, inv: Invocation, found: Option<Record>, clock: Clock): Pc {
    if found.None? then Done(InvalidRequest) else
    var record := found.value;
    if record.requestDigest != inv.request.digest then Done(KeyConflict)
    else if record.Terminal() then Replay(record, true)
    else if record.state.Pending? then
      if LeaseLive(record, clock.first) then Busy(record)
      else if record.phase == Some(Claimed) then Busy(record)
      else Expire(w, inv.request.KeyOf(), record, DispatchLeaseExpired, clock.first, ReconcileExpired(record, clock.first))
    else ReconcileAmbiguous(w, inv, record, clock.first)
  }

  function ReconcileAmbiguous(w: World, inv: Invocation, record: Record, now: int): Pc {
    if LeaseLive(record, now) then Busy(record)
    else if record.lease.Some? then
      Expire(w, inv.request.KeyOf(), record, ReconcileLeaseExpired, now, ReconcileIdle(record, now))
    else ClaimReconcile(w, inv, record, now)
  }

  function ClaimReconcile(w: World, inv: Invocation, idle: Record, now: int): Pc {
    var lease := CreateLease(ForReconcile, inv.service.ownerId, now, inv.service.reconcileMs);
    if lease.None? then Done(Threw)
    else Swap(inv.request.KeyOf(), idle, RecordWith(w, idle, Ambiguous, None, lease, None, None, None, now),
              ReconcileClaimed(idle))
  }

  /** A compare-and-set that lost: the service reports the record it found, or the one it held. */
  function Lost(base: Record, current: Option<Record>): Pc {
    if current.None? then Unresolved(base) else Busy(current.value)
  }

  /** The code between the reply of a repository call and the next `await`. */
  function Resume(w: World, inv: Invocation, reply: StoreReply, after: Resumption, clock: Clock): Pc {
    match reply
    case StoreThrew => Done(Threw)
    case Created(record) => if after.SubmitCreated? then AfterCreated(w, inv, record, after.now, clock) else Crashed
    case Existing(record) => if after.SubmitCreated? then AfterCreated(w, inv, record, after.now, clock) else Crashed
    case Found(found) => if after.ReconcileRead? then AfterRead(w, inv, found, clock) else Crashed
    case Updated(stored) => AfterUpdated(w, inv, stored, after, clock)
    case NotUpdated(current) => AfterNotUpdated(w, inv.request.KeyOf(), current, after, clock.first)
  }

  function AfterNotUpdated(w: World, key: Key, current: Option<Record>, after: Resumption, now: int): Pc {
    match after
    case SubmitExpired(base) => Unresolved(base)
    case DispatchTerminal(base) =>
      MarkAmbiguous(w, key, base, CompareAndSetUncertain, KindIdentity("terminal-compare-and-set-failed"), now)
    case AmbiguousStored(base) => Unresolved(base)
    case ReconcileTerminal(base) => Unresolved(base)
    case RetryStored(base, _) => Unresolved(base)
    case Released(base) => Unresolved(base)
    case SubmitReclaimed(base) => Lost(base, current)
    case DispatchStarted(base, _) => Lost(base, current)
    case ReconcileExpired(base, _) => Lost(base, current)
    case ReconcileIdle(base, _) => Lost(base, current)
    case ReconcileClaimed(base) => Lost(base, current)
    case _ => Crashed
  }

  function AfterUpdated(w: World, inv: Invocation, stored: Record, after: Resumption, clock: Clock): Pc {
    match after
    case SubmitExpired(_) => Unresolved(stored)
    case SubmitReclaimed(_) => Dispatch(w, inv, stored, clock.first)
    case DispatchStarted(_, started) => SubmitReady(started)
    case DispatchTerminal(_) => Replay(stored, false)
    case AmbiguousStored(_) => Unresolved(stored)
    case ReconcileExpired(_, now) => ReconcileAmbiguous(w, inv, stored, now)
    case ReconcileIdle(_, now) => ClaimReconcile(w, inv, stored, now)
    case ReconcileClaimed(_) => ReconcileReady(stored)
    case ReconcileTerminal(_) => Replay(stored, false)
    case RetryStored(_, now) =>
      Done(RetryAuthorized(if stored.lease.Some? then stored.lease.value.expiresAt else now))
    case Released(_) => Unresolved(stored)
    case _ => Crashed
  }

  // ---------------------------------------------------------------- the machine

  /** What happened, in order: durable writes, upstream calls and upstream answers. */
  datatype Event =
    | Stored(key: Key, record: Record)
    | SubmitIssued(caller: nat, key: Key, attempt: nat, chainId: Text, signedOrder: Json)
    | SubmitAnswered(caller: nat, key: Key, outcome: SubmitOutcome)
    | ReconcileIssued(caller: nat, key: Key, attemptCount: int, chainId: Text, signedOrder: Json)
    | ReconcileAnswered(caller: nat, key: Key, found: ReconcileOutcome)

  /** `history[k]` lists every record ever stored under `k`; the last one is `records[k]`. */
  datatype State = State(
    records: map<Key, Record>,
    history: map<Key, seq<Record>>,
    calls: seq<Invocation>,
    log: seq<Event>)

  const INITIAL := State(map[], map[], [], [])

  datatype Label =
    | Arrive(service: Service, op: Operation, request: Request)
    | Begins(i: nat, clock: Clock)
    | Serve(i: nat)
    | Resumes(i: nat, clock: Clock)
    | Issue(i: nat)
    | AnswerSubmit(i: nat, outcome: SubmitOutcome, clock: Clock)
    | AnswerReconcile(i: nat, found: ReconcileOutcome, clock: Clock)
    | Crash(i: nat)

  function At(s: State, i: nat, pc: Pc): State
    requires i < |s.calls|
  {
    s.(calls := s.calls[i := s.calls[i].(pc := pc)])
  }

  /** The effect of one repository call, with the write recorded in the history and the log. */
  function Served(w: World, s: State, i: nat): State
    requires i < |s.calls| && s.calls[i].pc.AtStore?
  {
    var inv := s.calls[i];
    var req := inv.pc.request;
    var reply := Reply(w, s.records, req);
    var writes := reply.Created? || reply.Updated?;
    var attempt := if reply.Updated? && inv.pc.after.DispatchStarted? && reply.record.attemptCount >= 0
                   then reply.record.attemptCount else inv.attempt;
    State(
      Written(s.records, req.key, reply),
      if writes then s.history[req.key := HistoryOf(s, req.key) + [reply.record]] else s.history,
      s.calls[i := inv.(pc := Replied(reply, inv.pc.after), attempt := attempt)],
      if writes then s.log + [Stored(req.key, reply.record)] else s.log)
  }

  function HistoryOf(s: State, key: Key): seq<Record> {
    if key in s.history then s.history[key] else []
  }

  /** One step. A label that does not apply leaves the state alone. */
  function Next(w: World, s: State, step: Label): State {
    match step
    case Arrive(service, op, request) =>
      s.(calls := s.calls + [Invocation(service, op, request, Begin, 0)])
    case Begins(i, clock) =>
      if i < |s.calls| && s.calls[i].pc.Begin? then At(s, i, Start(w, s.calls[i], clock)) else s
    case Serve(i) =>
      if i < |s.calls| && s.calls[i].pc.AtStore? then Served(w, s, i) else s
    case Resumes(i, clock) =>
      if i < |s.calls| && s.calls[i].pc.Replied?
      then At(s, i, Resume(w, s.calls[i], s.calls[i].pc.reply, s.calls[i].pc.after, clock)) else s
    case Issue(i) =>
      if i < |s.calls| && s.calls[i].pc.SubmitReady? then
        var c := s.calls[i];
        At(s, i, SubmitAwait(c.pc.started)).(
          log := s.log + [SubmitIssued(i, c.request.KeyOf(), c.attempt, c.request.chainId, c.request.signedOrder)])
      else if i < |s.calls| && s.calls[i].pc.ReconcileReady? then
        var c := s.calls[i];
        At(s, i, ReconcileAwait(c.pc.owned)).(
          log := s.log + [ReconcileIssued(i, c.request.KeyOf(), c.pc.owned.attemptCount, c.request.chainId, c.request.signedOrder)])
      else s
    case AnswerSubmit(i, outcome, clock) =>
      if i < |s.calls| && s.calls[i].pc.SubmitAwait? then
        var c := s.calls[i];
        At(s, i, AfterSubmit(w, c.request.KeyOf(), c.pc.started, outcome, clock)).(
          log := s.log + [SubmitAnswered(i, c.request.KeyOf(), outcome)])
      else s
    case AnswerReconcile(i, found, clock) =>
      if i < |s.calls| && s.calls[i].pc.ReconcileAwait? then
        var c := s.calls[i];
        At(s, i, AfterReconcile(w, c, c.pc.owned, found, clock)).(
          log := s.log + [ReconcileAnswered(i, c.request.KeyOf(), found)])
      else s
    case Crash(i) =>
      if i < |s.calls| then At(s, i, Crashed) else s
  }

  /** The state after a run. Every finite interleaving is one sequence of labels. */
  function After(w: World, run: seq<Label>): State {
    if run == [] then INITIAL else Next(w, After(w, run[..|run| - 1]), run[|run| - 1])
  }
}
