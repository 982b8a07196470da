/** The invariant of the submission machine and its preservation by every step. */
module SubmissionInvariant {
  import opened Common
  import opened CanonicalJson
  import opened SubmissionStore
  import opened Submission

  // ---------------------------------------------------------------- one record to the next

  /** A retry is granted only out of owned reconciliation, at attempt one, with the proof of absence appended. */
  predicate RetryGrant(b: Record, n: Record) {
    && b.state.Ambiguous? && b.lease.Some?
    && b.attemptCount == 1
    && |n.evidence| == |b.evidence| + 1
    && n.evidence[|b.evidence|].kind.AbsenceProved?
  }

  /** The only ways a stored record is ever replaced. */
  predicate Evolves(b: Record, n: Record) {
    && n.version == b.version + 1
    && n.requestDigest == b.requestDigest
    && !b.Terminal()
    && |b.evidence| <= |n.evidence| <= |b.evidence| + 1
    && n.evidence[..|b.evidence|] == b.evidence
    && (n.phase == Some(Started) ==>
          b.phase == Some(Claimed) && n.attemptCount == b.attemptCount + 1 && n.evidence == b.evidence)
    && (n.phase != Some(Started) ==> n.attemptCount == b.attemptCount)
    && (n.phase == Some(Claimed) ==>
          (b.phase == Some(Claimed) && n.evidence == b.evidence) || RetryGrant(b, n))
    && (n.phase.None? ==> b.phase != Some(Claimed))
  }

  predicate Fresh(r: Record) {
    r.version == 1 && r.attemptCount == 0 && r.evidence == [] && r.phase == Some(Claimed)
  }

  predicate HistoryOk(w: World, h: seq<Record>) {
    && |h| > 0
    && Fresh(h[0])
    && (forall i | 0 <= i < |h| :: h[i].version == i + 1 && ValidRecord(w, h[i]))
    && (forall i | 0 < i < |h| :: Evolves(h[i - 1], h[i]))
  }

  type Histories = map<Key, seq<Record>>

  predicate InHistory(H: Histories, key: Key, r: Record) {
    key in H && 1 <= r.version <= |H[key]| && H[key][r.version - 1] == r
  }

  // ---------------------------------------------------------------- what the log says

  /** The event carries the upstream's own words for the terminal content of `r`. */
  predicate Answers(e: Event, key: Key, r: Record) {
    match e
    case SubmitAnswered(_, k, SubmitAccepted(result, id)) =>
      k == key && r.state.Accepted? && r.upstreamResult == Some(result) && r.orderIdentifier == id
    case SubmitAnswered(_, k, SubmitRejected(result, id)) =>
      k == key && r.state.Rejected? && r.upstreamResult == Some(result) && r.orderIdentifier == id
    case ReconcileAnswered(_, k, ReconcileFound(accepted, result, id, _)) =>
      k == key && (if accepted then r.state.Accepted? else r.state.Rejected?)
      && r.upstreamResult == Some(result) && r.orderIdentifier == id
    case _ => false
  }

  ghost predicate Witnessed(log: seq<Event>, key: Key, r: Record) {
    exists p | 0 <= p < |log| :: Answers(log[p], key, r)
  }

  /** A stored record that grants the retry: absence was proved while the attempt count was one. */
  predicate GrantsRetry(e: Event, key: Key) {
    && e.Stored? && e.key == key
    && e.record.attemptCount == 1 && e.record.phase == Some(Claimed)
    && |e.record.evidence| > 0
    && e.record.evidence[|e.record.evidence| - 1].kind.AbsenceProved?
  }

  ghost predicate AbsenceProvedIn(log: seq<Event>, key: Key) {
    exists p | 0 <= p < |log| :: GrantsRetry(log[p], key)
  }

  ghost predicate SubmitIssuedBy(log: seq<Event>, i: nat, key: Key) {
    exists p | 0 <= p < |log| :: log[p].SubmitIssued? && log[p].caller == i && log[p].key == key
  }

  ghost predicate ReconcileIssuedBy(log: seq<Event>, i: nat, key: Key) {
    exists p | 0 <= p < |log| :: log[p].ReconcileIssued? && log[p].caller == i && log[p].key == key
  }

  /** This record can only be reached through a granted retry. */
  predicate BeyondFirstAttempt(r: Record) {
    r.attemptCount == 2 || (r.attemptCount == 1 && r.phase == Some(Claimed))
  }

  // ---------------------------------------------------------------- one invocation

  predicate HasBase(after: Resumption) {
    !after.SubmitCreated? && !after.ReconcileRead?
  }

  predicate OwnedBy(r: Record, owner: Text) {
    r.lease.Some? && r.lease.value.owner == owner
  }

  /** A compare-and-set against a leased record comes from the lease's owner, or after the lease ran out on its clock. */
  predicate LeaseAllows(b: Record, n: Record, owner: Text) {
    b.lease.Some? ==> b.lease.value.owner == owner || b.lease.value.expiresAt <= n.updatedAt
  }

  /** The shape of the record each compare-and-set would store. */
  predicate Fits(after: Resumption, next: Record, owner: Text) {
    match after
    case SubmitCreated(_) => false
    case ReconcileRead => false
    case SubmitReclaimed(_) => next.phase == Some(Claimed)
    case RetryStored(_, _) => next.phase == Some(Claimed)
    case DispatchStarted(_, started) => next == started && next.phase == Some(Started) && OwnedBy(next, owner)
    case DispatchTerminal(base) => next.Terminal() && base.phase == Some(Started) && OwnedBy(base, owner)
    case ReconcileTerminal(_) => next.Terminal()
    case ReconcileClaimed(_) => next.state.Ambiguous? && OwnedBy(next, owner)
    case _ => next.state.Ambiguous? && next.lease.None?
  }

  ghost predicate RequestOk(w: World, H: Histories, log: seq<Event>, inv: Invocation)
    requires inv.pc.AtStore?
  {
    var request := inv.pc.request;
    var after := inv.pc.after;
    && request.key == inv.request.KeyOf()
    && match request
       case CreateIfAbsent(_, record) =>
         after.SubmitCreated? && Fresh(record) && ValidRecord(w, record)
       case Read(_) => after.ReconcileRead?
       case CompareAndSet(key, expected, next) =>
         && HasBase(after)
         && InHistory(H, key, after.base)
         && after.base.requestDigest == inv.request.digest
         && expected == CompareExpectation(after.base)
         && Evolves(after.base, next)
         && ValidRecord(w, next)
         && Fits(after, next, inv.service.ownerId)
         && LeaseAllows(after.base, next, inv.service.ownerId)
         && (next.Terminal() ==> Witnessed(log, key, next))
         && (after.DispatchStarted? ==> inv.attempt == 0)
  }

  ghost predicate ReplyOk(H: Histories, inv: Invocation)
    requires inv.pc.Replied?
  {
    var key := inv.request.KeyOf();
    var after := inv.pc.after;
    match inv.pc.reply
    case StoreThrew => true
    case Created(r) => after.SubmitCreated? && InHistory(H, key, r)
    case Existing(r) => after.SubmitCreated? && InHistory(H, key, r)
    case Found(found) => after.ReconcileRead? && (found.Some? ==> InHistory(H, key, found.value))
    case Updated(r) =>
      && HasBase(after) && Fits(after, r, inv.service.ownerId) && InHistory(H, key, r)
      && r.requestDigest == inv.request.digest
      && (after.DispatchStarted? ==> inv.attempt == r.attemptCount)
    case NotUpdated(_) =>
      && HasBase(after)
      && InHistory(H, key, after.base)
      && after.base.requestDigest == inv.request.digest
      && (after.DispatchTerminal? ==> after.base.phase == Some(Started) && OwnedBy(after.base, inv.service.ownerId))
  }

  /** The terminal content of the last record is what the caller was told. */
  predicate ReturnedFrom(H: Histories, key: Key, result: ServiceResult)
    requires result.Terminal?
  {
    && key in H && |H[key]| > 0
    && var r := H[key][|H[key]| - 1];
       r.Terminal() && r.state.Accepted? == result.accepted
       && r.upstreamResult == Some(result.result) && r.orderIdentifier == result.orderIdentifier
  }

  ghost predicate CallOk(w: World, H: Histories, log: seq<Event>, i: nat, inv: Invocation) {
    var key := inv.request.KeyOf();
    match inv.pc
    case Begin => inv.attempt == 0
    case AtStore(_, after) =>
      && ValidRequest(w, inv.request) && RequestOk(w, H, log, inv)
      && (!HasBase(after) || after.SubmitReclaimed? ==> inv.attempt == 0)
    case Replied(_, after) =>
      && ValidRequest(w, inv.request) && ReplyOk(H, inv)
      && (!HasBase(after) || after.SubmitReclaimed? ==> inv.attempt == 0)
    case SubmitReady(r) =>
      && ValidRequest(w, inv.request) && InHistory(H, key, r) && r.phase == Some(Started) && OwnedBy(r, inv.service.ownerId)
      && r.requestDigest == inv.request.digest && inv.attempt == r.attemptCount
    case SubmitAwait(r) =>
      && ValidRequest(w, inv.request) && InHistory(H, key, r) && r.phase == Some(Started) && OwnedBy(r, inv.service.ownerId)
      && r.requestDigest == inv.request.digest && SubmitIssuedBy(log, i, key)
    case ReconcileReady(r) =>
      && ValidRequest(w, inv.request) && InHistory(H, key, r) && r.state.Ambiguous? && OwnedBy(r, inv.service.ownerId)
      && r.requestDigest == inv.request.digest
    case ReconcileAwait(r) =>
      && ValidRequest(w, inv.request) && InHistory(H, key, r) && r.state.Ambiguous? && OwnedBy(r, inv.service.ownerId)
      && r.requestDigest == inv.request.digest && ReconcileIssuedBy(log, i, key)
    case Done(result) => result.Terminal? ==> ReturnedFrom(H, key, result)
    case Crashed => true
  }

  // ---------------------------------------------------------------- the invariant

  ghost predicate StoreInv(w: World, s: State) {
    && s.records.Keys == s.history.Keys
    && (forall k | k in s.history ::
          HistoryOk(w, s.history[k]) && s.records[k] == s.history[k][|s.history[k]| - 1])
  }

  ghost predicate CallsInv(w: World, s: State) {
    forall i | 0 <= i < |s.calls| :: CallOk(w, s.history, s.log, i, s.calls[i])
  }

  /** The durable start an invocation stored is one no other invocation stored. */
  ghost predicate AttemptsInv(w: World, s: State) {
    && (forall i | 0 <= i < |s.calls| && s.calls[i].attempt > 0 ::
          var key := s.calls[i].request.KeyOf();
          && ValidRequest(w, s.calls[i].request)
          && key in s.records && s.calls[i].attempt <= s.records[key].attemptCount
          && s.calls[i].request.digest == s.records[key].requestDigest
          && (s.calls[i].attempt == 2 ==> AbsenceProvedIn(s.log, key)))
    && (forall i, j | 0 <= i < j < |s.calls| && s.calls[i].attempt > 0 && s.calls[j].attempt > 0
                      && s.calls[i].request.KeyOf() == s.calls[j].request.KeyOf() ::
          s.calls[i].attempt != s.calls[j].attempt)
  }

  /** The invocation may still make its upstream `submit` call. */
  predicate BeforeIssue(c: Invocation) {
    c.pc.SubmitReady? || ((c.pc.AtStore? || c.pc.Replied?) && c.pc.after.DispatchStarted?)
  }

  ghost predicate IssuedOk(calls: seq<Invocation>, e: Event)
    requires e.SubmitIssued?
  {
    && e.caller < |calls|
    && var c := calls[e.caller];
       && c.attempt == e.attempt && e.attempt > 0
       && e.key == c.request.KeyOf() && e.chainId == c.request.chainId && e.signedOrder == c.request.signedOrder
       && !BeforeIssue(c)
  }

  ghost predicate LogInv(s: State) {
    && (forall p | 0 <= p < |s.log| && s.log[p].SubmitIssued? ::
          IssuedOk(s.calls, s.log[p]) && (s.log[p].attempt == 2 ==> AbsenceProvedIn(s.log[..p], s.log[p].key)))
    && (forall p, q | 0 <= p < q < |s.log| && s.log[p].SubmitIssued? && s.log[q].SubmitIssued? ::
          s.log[p].caller != s.log[q].caller)
    && (forall p | 0 <= p < |s.log| && s.log[p].SubmitAnswered? ::
          SubmitIssuedBy(s.log[..p], s.log[p].caller, s.log[p].key))
    && (forall p | 0 <= p < |s.log| && s.log[p].ReconcileAnswered? ::
          ReconcileIssuedBy(s.log[..p], s.log[p].caller, s.log[p].key))
  }

  ghost predicate ContentInv(s: State) {
    forall k | k in s.records ::
      && (s.records[k].Terminal() ==> Witnessed(s.log, k, s.records[k]))
      && (BeyondFirstAttempt(s.records[k]) ==> AbsenceProvedIn(s.log, k))
  }

  ghost predicate Inv(w: World, s: State) {
    StoreInv(w, s) && CallsInv(w, s) && AttemptsInv(w, s) && LogInv(s) && ContentInv(s)
  }

  // ---------------------------------------------------------------- framing

  ghost predicate HistoriesOk(w: World, H: Histories) {
    forall k | k in H :: HistoryOk(w, H[k])
  }

  /** Histories only grow, and stop growing at a terminal record. */
  ghost predicate Extends(H: Histories, H': Histories) {
    forall k | k in H ::
      && k in H' && |H[k]| <= |H'[k]| && H'[k][..|H[k]|] == H[k]
      && (|H[k]| > 0 && H[k][|H[k]| - 1].Terminal() ==> H'[k] == H[k])
  }

  lemma InHistoryFrame(H: Histories, H': Histories, key: Key, r: Record)
    requires InHistory(H, key, r) && Extends(H, H')
    ensures InHistory(H', key, r)
  {
    assert H'[key][r.version - 1] == H'[key][..|H[key]|][r.version - 1];
  }

  lemma IssuedFrame(log: seq<Event>, log': seq<Event>, i: nat, key: Key)
    requires log <= log'
    ensures SubmitIssuedBy(log, i, key) ==> SubmitIssuedBy(log', i, key)
    ensures ReconcileIssuedBy(log, i, key) ==> ReconcileIssuedBy(log', i, key)
  {
    assert forall p | 0 <= p < |log| :: log'[p] == log[p];
    if SubmitIssuedBy(log, i, key) {
      var p :| 0 <= p < |log| && log[p].SubmitIssued? && log[p].caller == i && log[p].key == key;
      assert log'[p] == log[p];
    }
    if ReconcileIssuedBy(log, i, key) {
      var p :| 0 <= p < |log| && log[p].ReconcileIssued? && log[p].caller == i && log[p].key == key;
      assert log'[p] == log[p];
    }
  }

  lemma WitnessFrame(log: seq<Event>, log': seq<Event>, key: Key, r: Record)
    requires Witnessed(log, key, r) && log <= log'
    ensures Witnessed(log', key, r)
  {
    var p :| 0 <= p < |log| && Answers(log[p], key, r);
    assert Answers(log'[p], key, r);
  }

  lemma RequestFrame(w: World, H: Histories, log: seq<Event>, H': Histories, log': seq<Event>, inv: Invocation)
    requires inv.pc.AtStore? && RequestOk(w, H, log, inv) && Extends(H, H') && log <= log'
    ensures RequestOk(w, H', log', inv)
  {
    var request := inv.pc.request;
    if request.CompareAndSet? {
      InHistoryFrame(H, H', request.key, inv.pc.after.base);
      if request.next.Terminal() { WitnessFrame(log, log', request.key, request.next); }
    }
  }

  lemma ReplyFrame(H: Histories, H': Histories, inv: Invocation)
    requires inv.pc.Replied? && ReplyOk(H, inv) && Extends(H, H')
    ensures ReplyOk(H', inv)
  {
    var key, reply := inv.request.KeyOf(), inv.pc.reply;
    if reply.Created? || reply.Existing? || reply.Updated? { InHistoryFrame(H, H', key, reply.record); }
    if reply.Found? && reply.found.Some? { InHistoryFrame(H, H', key, reply.found.value); }
    if reply.NotUpdated? { InHistoryFrame(H, H', key, inv.pc.after.base); }
  }

  lemma CallFrame(w: World, H: Histories, log: seq<Event>, H': Histories, log': seq<Event>, i: nat, inv: Invocation)
    requires CallOk(w, H, log, i, inv) && Extends(H, H') && log <= log'
    ensures CallOk(w, H', log', i, inv)
  {
    var key := inv.request.KeyOf();
    match inv.pc
    case Begin =>
    case AtStore(_, _) => RequestFrame(w, H, log, H', log', inv);
    case Replied(_, _) => ReplyFrame(H, H', inv);
    case SubmitReady(r) => InHistoryFrame(H, H', key, r);
    case SubmitAwait(r) => InHistoryFrame(H, H', key, r); IssuedFrame(log, log', i, key);
    case ReconcileReady(r) => InHistoryFrame(H, H', key, r);
    case ReconcileAwait(r) => InHistoryFrame(H, H', key, r); IssuedFrame(log, log', i, key);
    case Done(_) =>
    case Crashed =>
  }

  // ---------------------------------------------------------------- local computation

  lemma StartOk(w: World, H: Histories, log: seq<Event>, i: nat, inv: Invocation, clock: Clock)
    requires inv.pc.Begin? && CallOk(w, H, log, i, inv)
    ensures CallOk(w, H, log, i, inv.(pc := Start(w, inv, clock)))
  {
  }

  /** Every stored record is valid and knows its own place in the history. */
  lemma InHistoryValid(w: World, H: Histories, key: Key, r: Record)
    requires HistoriesOk(w, H) && InHistory(H, key, r)
    ensures ValidRecord(w, r)
  {
    assert HistoryOk(w, H[key]);
  }

  lemma SwapOk(w: World, H: Histories, log: seq<Event>, i: nat, inv: Invocation, base: Record, next: Option<Record>, after: Resumption)
    requires ValidRequest(w, inv.request)
    requires HasBase(after) && after.base == base
    requires InHistory(H, inv.request.KeyOf(), base) && base.requestDigest == inv.request.digest
    requires next.Some? ==> Evolves(base, next.value) && ValidRecord(w, next.value)
                            && Fits(after, next.value, inv.service.ownerId) && LeaseAllows(base, next.value, inv.service.ownerId)
    requires next.Some? && next.value.Terminal() ==> Witnessed(log, inv.request.KeyOf(), next.value)
    requires after.DispatchStarted? || after.SubmitReclaimed? ==> inv.attempt == 0
    ensures CallOk(w, H, log, i, inv.(pc := Swap(inv.request.KeyOf(), base, next, after)))
  {
  }

  /** Only the last record of a history can be terminal. */
  lemma OnlyLastTerminal(w: World, h: seq<Record>, j: nat)
    requires HistoryOk(w, h) && j < |h| - 1
    ensures !h[j].Terminal()
  {
    assert Evolves(h[j + 1 - 1], h[j + 1]);
  }

  lemma TerminalIsLast(w: World, H: Histories, key: Key, r: Record)
    requires HistoriesOk(w, H) && InHistory(H, key, r) && r.Terminal()
    ensures r == H[key][|H[key]| - 1]
  {
    assert HistoryOk(w, H[key]);
    if r.version - 1 < |H[key]| - 1 {
      OnlyLastTerminal(w, H[key], r.version - 1);
    }
  }

  lemma ReplayOk(w: World, H: Histories, log: seq<Event>, i: nat, inv: Invocation, r: Record, replayed: bool)
    requires HistoriesOk(w, H) && InHistory(H, inv.request.KeyOf(), r) && r.Terminal()
    ensures CallOk(w, H, log, i, inv.(pc := Replay(r, replayed)))
  {
    TerminalIsLast(w, H, inv.request.KeyOf(), r);
  }

  lemma DispatchOk(w: World, H: Histories, log: seq<Event>, i: nat, inv: Invocation, claimed: Record, now: int)
    requires ValidRequest(w, inv.request) && InHistory(H, inv.request.KeyOf(), claimed)
    requires claimed.requestDigest == inv.request.digest && inv.attempt == 0
    ensures CallOk(w, H, log, i, inv.(pc := Dispatch(w, inv, claimed, now)))
  {
  }

  lemma ToAmbiguousEvolves(w: World, base: Record, kind: EvidenceKind, identity: Json, now: int)
    requires base.phase != Some(Claimed) && !base.Terminal()
    ensures var next := ToAmbiguous(w, base, kind, identity, now);
            next.Some? ==> Evolves(base, next.value) && ValidRecord(w, next.value)
                           && next.value.state.Ambiguous? && next.value.lease.None? && next.value.updatedAt == now
  {
  }

  lemma ExpireOk(w: World, H: Histories, log: seq<Event>, i: nat, inv: Invocation, record: Record, kind: EvidenceKind, now: int, after: Resumption)
    requires ValidRequest(w, inv.request) && InHistory(H, inv.request.KeyOf(), record)
    requires record.requestDigest == inv.request.digest && record.phase != Some(Claimed) && !record.Terminal()
    requires !LeaseLive(record, now)
    requires after in {SubmitExpired(record), ReconcileExpired(record, now), ReconcileIdle(record, now)}
    ensures CallOk(w, H, log, i, inv.(pc := Expire(w, inv.request.KeyOf(), record, kind, now, after)))
  {
    ToAmbiguousEvolves(w, record, kind, VersionIdentity(record), now);
    SwapOk(w, H, log, i, inv, record, ToAmbiguous(w, record, kind, VersionIdentity(record), now), after);
  }

  lemma ReclaimOk(w: World, H: Histories, log: seq<Event>, i: nat, inv: Invocation, record: Record, now: int)
    requires ValidRequest(w, inv.request) && InHistory(H, inv.request.KeyOf(), record)
    requires record.requestDigest == inv.request.digest && record.phase == Some(Claimed) && !record.Terminal()
    requires record.lease.Some? && (record.lease.value.owner != inv.service.ownerId ==> !LeaseLive(record, now))
    requires inv.attempt == 0
    ensures CallOk(w, H, log, i, inv.(pc := Reclaim(w, inv, record, now)))
  {
    var lease := CreateLease(ForDispatch, inv.service.ownerId, now, inv.service.dispatchMs);
    var next := RecordWith(w, record, Pending, Some(Claimed), lease, None, None, None, now);
    SwapOk(w, H, log, i, inv, record, next, SubmitReclaimed(record));
  }

  lemma AfterClaimedOk(w: World, H: Histories, log: seq<Event>, i: nat, inv: Invocation, record: Record, now: int, clock: Clock)
    requires ValidRequest(w, inv.request) && InHistory(H, inv.request.KeyOf(), record)
    requires record.requestDigest == inv.request.digest && record.phase == Some(Claimed) && !record.Terminal()
    requires inv.attempt == 0
    ensures CallOk(w, H, log, i, inv.(pc := AfterClaimed(w, inv, record, now, clock)))
  {
    if record.lease.Some? && (record.lease.value.owner != inv.service.ownerId ==> !LeaseLive(record, now)) {
      ReclaimOk(w, H, log, i, inv, record, now);
    }
    DispatchOk(w, H, log, i, inv, record, clock.first);
  }

  lemma AfterCreatedOk(w: World, H: Histories, log: seq<Event>, i: nat, inv: Invocation, record: Record, now: int, clock: Clock)
    requires ValidRequest(w, inv.request) && HistoriesOk(w, H) && InHistory(H, inv.request.KeyOf(), record)
    requires inv.attempt == 0
    ensures CallOk(w, H, log, i, inv.(pc := AfterCreated(w, inv, record, now, clock)))
  {
    InHistoryValid(w, H, inv.request.KeyOf(), record);
    if record.requestDigest != inv.request.digest {
    } else if record.Terminal() {
      ReplayOk(w, H, log, i, inv, record, true);
    } else if record.phase == Some(Started) {
      if !LeaseLive(record, now) { ExpireOk(w, H, log, i, inv, record, DispatchLeaseExpired, now, SubmitExpired(record)); }
    } else if record.phase.Some? {
      assert record.phase.value.Claimed?;
      AfterClaimedOk(w, H, log, i, inv, record, now, clock);
    }
  }

  lemma ClaimReconcileOk(w: World, H: Histories, log: seq<Event>, i: nat, inv: Invocation, idle: Record, now: int)
    requires ValidRequest(w, inv.request) && InHistory(H, inv.request.KeyOf(), idle)
    requires idle.requestDigest == inv.request.digest && idle.state.Ambiguous? && idle.phase.None? && idle.lease.None?
    ensures CallOk(w, H, log, i, inv.(pc := ClaimReconcile(w, inv, idle, now)))
  {
    var lease := CreateLease(ForReconcile, inv.service.ownerId, now, inv.service.reconcileMs);
    if lease.Some? {
      var next := RecordWith(w, idle, Ambiguous, None, lease, None, None, None, now);
      SwapOk(w, H, log, i, inv, idle, next, ReconcileClaimed(idle));
    }
  }

  lemma ReconcileAmbiguousOk(w: World, H: Histories, log: seq<Event>, i: nat, inv: Invocation, record: Record, now: int)
    requires ValidRequest(w, inv.request) && InHistory(H, inv.request.KeyOf(), record)
    requires record.requestDigest == inv.request.digest && record.state.Ambiguous? && record.phase.None?
    ensures CallOk(w, H, log, i, inv.(pc := ReconcileAmbiguous(w, inv, record, now)))
  {
    if record.lease.None? {
      ClaimReconcileOk(w, H, log, i, inv, record, now);
    } else if !LeaseLive(record, now) {
      ExpireOk(w, H, log, i, inv, record, ReconcileLeaseExpired, now, ReconcileIdle(record, now));
    }
  }

  lemma AfterReadOk(w: World, H: Histories, log: seq<Event>, i: nat, inv: Invocation, record: Record, clock: Clock)
    requires ValidRequest(w, inv.request) && HistoriesOk(w, H) && InHistory(H, inv.request.KeyOf(), record)
    ensures CallOk(w, H, log, i, inv.(pc := AfterRead(w, inv, Some(record), clock)))
  {
    InHistoryValid(w, H, inv.request.KeyOf(), record);
    var now := clock.first;
    if record.requestDigest != inv.request.digest {
    } else if record.Terminal() {
      ReplayOk(w, H, log, i, inv, record, true);
    } else if record.phase == Some(Started) {
      if !LeaseLive(record, now) { ExpireOk(w, H, log, i, inv, record, DispatchLeaseExpired, now, ReconcileExpired(record, now)); }
    } else if record.phase.None? {
      ReconcileAmbiguousOk(w, H, log, i, inv, record, now);
    }
  }

  lemma AfterUpdatedOk(w: World, H: Histories, log: seq<Event>, i: nat, inv: Invocation, clock: Clock)
    requires inv.pc.Replied? && inv.pc.reply.Updated? && CallOk(w, H, log, i, inv) && HistoriesOk(w, H)
    ensures CallOk(w, H, log, i, inv.(pc := AfterUpdated(w, inv, inv.pc.reply.record, inv.pc.after, clock)))
  {
    var stored := inv.pc.reply.record;
    InHistoryValid(w, H, inv.request.KeyOf(), stored);
    match inv.pc.after
    case SubmitReclaimed(_) => DispatchOk(w, H, log, i, inv, stored, clock.first);
    case DispatchTerminal(_) => ReplayOk(w, H, log, i, inv, stored, false);
    case ReconcileTerminal(_) => ReplayOk(w, H, log, i, inv, stored, false);
    case ReconcileExpired(_, now) => ReconcileAmbiguousOk(w, H, log, i, inv, stored, now);
    case ReconcileIdle(_, now) => ClaimReconcileOk(w, H, log, i, inv, stored, now);
    case _ =>
  }

  lemma MarkAmbiguousOk(w: World, H: Histories, log: seq<Event>, i: nat, inv: Invocation, started: Record, kind: EvidenceKind, identity: Json, now: int)
    requires ValidRequest(w, inv.request) && HistoriesOk(w, H) && InHistory(H, inv.request.KeyOf(), started)
    requires started.phase == Some(Started) && started.requestDigest == inv.request.digest && OwnedBy(started, inv.service.ownerId)
    ensures CallOk(w, H, log, i, inv.(pc := MarkAmbiguous(w, inv.request.KeyOf(), started, kind, identity, now)))
  {
    InHistoryValid(w, H, inv.request.KeyOf(), started);
    ToAmbiguousEvolves(w, started, kind, identity, now);
    SwapOk(w, H, log, i, inv, started, ToAmbiguous(w, started, kind, identity, now), AmbiguousStored(started));
  }

  /** Every lost compare-and-set but that of a terminal write ends the invocation without a terminal result. */
  lemma GivesUp(w: World, key: Key, current: Option<Record>, after: Resumption, now: int)
    requires !after.DispatchTerminal?
    ensures var pc := AfterNotUpdated(w, key, current, after, now); pc.Crashed? || (pc.Done? && !pc.result.Terminal?)
  {
  }

  lemma AfterNotUpdatedOk(w: World, H: Histories, log: seq<Event>, i: nat, inv: Invocation, current: Option<Record>, now: int)
    requires inv.pc.Replied? && inv.pc.reply == NotUpdated(current) && CallOk(w, H, log, i, inv) && HistoriesOk(w, H)
    ensures CallOk(w, H, log, i, inv.(pc := AfterNotUpdated(w, inv.request.KeyOf(), current, inv.pc.after, now)))
  {
    if inv.pc.after.DispatchTerminal? {
      MarkAmbiguousOk(w, H, log, i, inv, inv.pc.after.base, CompareAndSetUncertain,
                      KindIdentity("terminal-compare-and-set-failed"), now);
    } else {
      GivesUp(w, inv.request.KeyOf(), current, inv.pc.after, now);
    }
  }

  lemma ResumeOk(w: World, H: Histories, log: seq<Event>, i: nat, inv: Invocation, clock: Clock)
    requires inv.pc.Replied? && CallOk(w, H, log, i, inv) && HistoriesOk(w, H)
    ensures CallOk(w, H, log, i, inv.(pc := Resume(w, inv, inv.pc.reply, inv.pc.after, clock)))
  {
    match inv.pc.reply
    case StoreThrew =>
    case Created(record) => AfterCreatedOk(w, H, log, i, inv, record, inv.pc.after.now, clock);
    case Existing(record) => AfterCreatedOk(w, H, log, i, inv, record, inv.pc.after.now, clock);
    case Found(found) =>
      if found.Some? { AfterReadOk(w, H, log, i, inv, found.value, clock); }
    case Updated(_) => AfterUpdatedOk(w, H, log, i, inv, clock);
    case NotUpdated(current) => AfterNotUpdatedOk(w, H, log, i, inv, current, clock.first);
  }

  /** A reply leads on to a submission only if it was the reply to a durable start, or no attempt is held yet. */
  lemma ResumeStays(w: World, H: Histories, inv: Invocation, clock: Clock)
    requires inv.pc.Replied? && ReplyOk(H, inv)
    requires !HasBase(inv.pc.after) || inv.pc.after.SubmitReclaimed? ==> inv.attempt == 0
    ensures BeforeIssue(inv.(pc := Resume(w, inv, inv.pc.reply, inv.pc.after, clock)))
            ==> inv.attempt == 0 || BeforeIssue(inv)
  {
  }

  // ---------------------------------------------------------------- upstream answers

  lemma StoreAnswerOk(w: World, H: Histories, log: seq<Event>, i: nat, inv: Invocation, started: Record, accepted: bool,
                      result: UpstreamResult, orderIdentifier: Option<Text>, now: int)
    requires ValidRequest(w, inv.request) && InHistory(H, inv.request.KeyOf(), started) && ValidRecord(w, started)
    requires started.phase == Some(Started) && started.requestDigest == inv.request.digest && OwnedBy(started, inv.service.ownerId)
    requires forall r: Record | && (if accepted then r.state.Accepted? else r.state.Rejected?)
                                && r.upstreamResult == Some(result) && r.orderIdentifier == orderIdentifier
               :: Witnessed(log, inv.request.KeyOf(), r)
    ensures CallOk(w, H, log, i, inv.(pc := StoreAnswer(w, inv.request.KeyOf(), started, accepted, result, orderIdentifier, now)))
  {
    var next := RecordWith(w, started, if accepted then Accepted else Rejected, None, None,
                           Some(result), orderIdentifier, None, now);
    SwapOk(w, H, log, i, inv, started, next, DispatchTerminal(started));
  }

  lemma AnsweredWitness(log: seq<Event>, log': seq<Event>, e: Event, key: Key, r: Record)
    requires log' == log + [e] && Answers(e, key, r)
    ensures Witnessed(log', key, r)
  {
    assert log'[|log|] == e;
  }

  lemma AfterSubmitOk(w: World, H: Histories, log: seq<Event>, i: nat, inv: Invocation, outcome: SubmitOutcome, clock: Clock)
    requires inv.pc.SubmitAwait? && CallOk(w, H, log, i, inv) && HistoriesOk(w, H)
    ensures var key := inv.request.KeyOf();
            CallOk(w, H, log + [SubmitAnswered(i, key, outcome)], i,
                   inv.(pc := AfterSubmit(w, key, inv.pc.started, outcome, clock)))
  {
    var key, started := inv.request.KeyOf(), inv.pc.started;
    var e := SubmitAnswered(i, key, outcome);
    var log' := log + [e];
    InHistoryValid(w, H, key, started);
    match outcome
    case SubmitThrew =>
      MarkAmbiguousOk(w, H, log', i, inv, started, TransportUncertain, KindIdentity("adapter-throw"), clock.first);
    case SubmitUncertain(identity) =>
      MarkAmbiguousOk(w, H, log', i, inv, started, TransportUncertain, identity, clock.first);
    case SubmitUndecodable(identity) =>
      MarkAmbiguousOk(w, H, log', i, inv, started, ContentDecodingFailed, identity, clock.first);
    case _ =>
      if w.acceptsResult(outcome.result) {
        forall r: Record | Answers(e, key, r) ensures Witnessed(log', key, r) { AnsweredWitness(log, log', e, key, r); }
        StoreAnswerOk(w, H, log', i, inv, started, outcome.SubmitAccepted?, outcome.result, outcome.orderIdentifier, clock.first);
      } else {
        MarkAmbiguousOk(w, H, log', i, inv, started, ContentDecodingFailed, KindIdentity("invalid-upstream-result"), clock.first);
      }
  }

  /** Once the upstream has answered, the invocation never submits again. */
  lemma AnswerEndsSubmission(w: World, inv: Invocation, started: Record, outcome: SubmitOutcome, clock: Clock)
    ensures !BeforeIssue(inv.(pc := AfterSubmit(w, inv.request.KeyOf(), started, outcome, clock)))
  {
  }

  lemma ReleaseUnknownOk(w: World, H: Histories, log: seq<Event>, i: nat, inv: Invocation, owned: Record, kind: EvidenceKind, identity: Json, now: int)
    requires ValidRequest(w, inv.request) && HistoriesOk(w, H) && InHistory(H, inv.request.KeyOf(), owned)
    requires owned.state.Ambiguous? && owned.requestDigest == inv.request.digest && OwnedBy(owned, inv.service.ownerId)
    ensures CallOk(w, H, log, i, inv.(pc := ReleaseUnknown(w, inv.request.KeyOf(), owned, kind, identity, now)))
  {
    InHistoryValid(w, H, inv.request.KeyOf(), owned);
    ToAmbiguousEvolves(w, owned, kind, identity, now);
    SwapOk(w, H, log, i, inv, owned, ToAmbiguous(w, owned, kind, identity, now), Released(owned));
  }

  lemma StoreFoundOk(w: World, H: Histories, log: seq<Event>, i: nat, inv: Invocation, owned: Record, accepted: bool,
                     result: UpstreamResult, orderIdentifier: Option<Text>, identity: Json, now: int)
    requires ValidRequest(w, inv.request) && InHistory(H, inv.request.KeyOf(), owned) && ValidRecord(w, owned)
    requires owned.state.Ambiguous? && owned.requestDigest == inv.request.digest && OwnedBy(owned, inv.service.ownerId)
    requires forall r: Record | && (if accepted then r.state.Accepted? else r.state.Rejected?)
                                && r.upstreamResult == Some(result) && r.orderIdentifier == orderIdentifier
               :: Witnessed(log, inv.request.KeyOf(), r)
    ensures CallOk(w, H, log, i, inv.(pc := StoreFound(w, inv.request.KeyOf(), owned, accepted, result, orderIdentifier, identity, now)))
  {
    var e := CreateEvidence(w, if accepted then FoundAccepted else FoundRejected, now, identity);
    var next := RecordWith(w, owned, if accepted then Accepted else Rejected, None, None,
                           Some(result), orderIdentifier, e, now);
    if e.Some? { SwapOk(w, H, log, i, inv, owned, next, ReconcileTerminal(owned)); }
  }

  lemma GrantRetryOk(w: World, H: Histories, log: seq<Event>, i: nat, inv: Invocation, owned: Record, identity: Json, now: int)
    requires ValidRequest(w, inv.request) && InHistory(H, inv.request.KeyOf(), owned) && ValidRecord(w, owned)
    requires owned.state.Ambiguous? && owned.requestDigest == inv.request.digest && OwnedBy(owned, inv.service.ownerId)
    requires owned.attemptCount == 1
    ensures CallOk(w, H, log, i, inv.(pc := GrantRetry(w, inv, owned, identity, now)))
  {
    var e := CreateEvidence(w, AbsenceProved, now, identity);
    var lease := CreateLease(ForDispatch, inv.service.ownerId, now, inv.service.dispatchMs);
    if e.Some? && lease.Some? {
      var next := RecordWith(w, owned, Pending, Some(Claimed), lease, None, None, e, now);
      SwapOk(w, H, log, i, inv, owned, next, RetryStored(owned, now));
    }
  }

  lemma AfterReconcileOk(w: World, H: Histories, log: seq<Event>, i: nat, inv: Invocation, found: ReconcileOutcome, clock: Clock)
    requires inv.pc.ReconcileAwait? && CallOk(w, H, log, i, inv) && HistoriesOk(w, H)
    ensures CallOk(w, H, log + [ReconcileAnswered(i, inv.request.KeyOf(), found)], i,
                   inv.(pc := AfterReconcile(w, inv, inv.pc.owned, found, clock)))
  {
    var key, owned := inv.request.KeyOf(), inv.pc.owned;
    var event := ReconcileAnswered(i, key, found);
    var log' := log + [event];
    InHistoryValid(w, H, key, owned);
    match found
    case ReconcileFound(accepted, result, orderIdentifier, identity) =>
      if w.acceptsResult(result) {
        forall r: Record | Answers(event, key, r) ensures Witnessed(log', key, r) {
          AnsweredWitness(log, log', event, key, r);
        }
        StoreFoundOk(w, H, log', i, inv, owned, accepted, result, orderIdentifier, identity, clock.first);
      } else {
        ReleaseUnknownOk(w, H, log', i, inv, owned, ContentDecodingFailed,
                         KindIdentity("invalid-reconciliation-result"), clock.second);
      }
    case ReconcileAbsent(identity) =>
      if owned.attemptCount == 1 {
        GrantRetryOk(w, H, log', i, inv, owned, identity, clock.first);
      } else {
        ReleaseUnknownOk(w, H, log', i, inv, owned, AbsenceProved, identity, clock.second);
      }
    case ReconcileUnproved(identity) =>
      ReleaseUnknownOk(w, H, log', i, inv, owned, AbsenceUnproved, identity, clock.second);
    case ReconcileUndecodable(identity) =>
      ReleaseUnknownOk(w, H, log', i, inv, owned, ContentDecodingFailed, identity, clock.second);
    case ReconcileThrew =>
      ReleaseUnknownOk(w, H, log', i, inv, owned, AbsenceUnproved, KindIdentity("reconcile-adapter-throw"), clock.second);
  }

  /** A reconciling invocation does not submit; a retry is left to the next `submit`. */
  lemma ReconcileNeverSubmits(w: World, inv: Invocation, owned: Record, found: ReconcileOutcome, clock: Clock)
    ensures !BeforeIssue(inv.(pc := AfterReconcile(w, inv, owned, found, clock)))
  {
  }
}
