/**
 What `reconcile` achieves when nothing interferes, spelled out field by field: whatever the upstream knows about an
 ambiguous submission is what the record, its evidence and the result say afterwards.
 */
module ReconciliationProgress {
  import opened Common
  import opened CanonicalJson
  import opened SubmissionStore
  import opened Submission
  import opened SubmissionProgress

  // ---------------------------------------------------------------- the first repository call

  /** The code that runs on the record that `read` found. */
  lemma RecordIsRead(w: World, run: seq<Label>, service: Service, request: Request, r: Option<Record>, c: Clock, d: Clock)
    requires IsGoodRequest(w, request) && Lookup(After(w, run), request.KeyOf()) == r
    ensures var inv := Caller(service, ReconcileCall, request, Replied(Found(r), ReconcileRead));
            Stands(After(w, Asked(w, run, service, ReconcileCall, request, c, d)), |After(w, run).calls|,
                   inv.(pc := AfterRead(w, inv, r, d)), r)
  {
    var inv := Caller(service, ReconcileCall, request, Begin);
    Arrives(w, run, service, ReconcileCall, request);
    ReadTurn(w, run + [Arrive(service, ReconcileCall, request)], |After(w, run).calls|, inv, r, c, d);
  }

  lemma ReadTurn(w: World, run: seq<Label>, i: nat, inv: Invocation, r: Option<Record>, c: Clock, d: Clock)
    requires Stands(After(w, run), i, inv, r) && inv.pc.Begin? && inv.op.ReconcileCall? && IsGoodRequest(w, inv.request)
    ensures var served := inv.(pc := Replied(Found(r), ReconcileRead));
            Stands(After(w, run + FirstTurn(i, c, d)), i, inv.(pc := AfterRead(w, served, r, d)), r)
  {
    var asks, served := Start(w, inv, c), inv.(pc := Replied(Found(r), ReconcileRead));
    assert asks == AtStore(Read(inv.request.KeyOf()), ReconcileRead);
    forall s: State | Stands(s, i, inv.(pc := asks), r) ensures Stands(Next(w, s, Serve(i)), i, served, r) {
      ReadStep(w, s, i, inv.(pc := asks), ReconcileRead, r);
    }
    FirstTurnEnds(w, run, i, inv, r, asks, served, r, c, d);
  }

  /** What `reconcile` reports on a record that it leaves alone, or where there is none. */
  predicate ReportsOn(r: Option<Record>, digest: Text, now: int, result: ServiceResult) {
    if r.None? then result == InvalidRequest
    else if r.value.requestDigest != digest then result == KeyConflict
    else if r.value.state.Accepted? || r.value.state.Rejected? then
      && r.value.upstreamResult.Some?
      && result == Terminal(r.value.state.Accepted?, true, r.value.upstreamResult.value, r.value.orderIdentifier)
    else (IsLive(r.value, now) || r.value.phase == Some(Claimed)) && r.value.lease.Some?
         && result == InProgress(Some(r.value.lease.value.expiresAt))
  }

  lemma ReconcileReports(w: World, run: seq<Label>, service: Service, request: Request, r: Option<Record>, c: Clock, d: Clock,
                         result: ServiceResult)
    requires IsGoodRequest(w, request) && Lookup(After(w, run), request.KeyOf()) == r
    requires ReportsOn(r, request.digest, d.first, result)
    ensures var s := After(w, Asked(w, run, service, ReconcileCall, request, c, d));
            && |After(w, run).calls| < |s.calls| && s.calls[|After(w, run).calls|].pc == Done(result)
            && Lookup(s, request.KeyOf()) == r
  {
    StoredIsValid(w, run, request.KeyOf());
    RecordIsRead(w, run, service, request, r, c, d);
    ReadReportIs(w, Caller(service, ReconcileCall, request, Replied(Found(r), ReconcileRead)), r, d, result);
  }

  lemma ReadReportIs(w: World, inv: Invocation, r: Option<Record>, d: Clock, result: ServiceResult)
    requires r.Some? ==> ValidRecord(w, r.value)
    requires ReportsOn(r, inv.request.digest, d.first, result)
    ensures AfterRead(w, inv, r, d) == Done(result)
  {
    if r.Some? && r.value.requestDigest == inv.request.digest && r.value.state.Ambiguous? {
      assert AfterRead(w, inv, r, d) == ReconcileAmbiguous(w, inv, r.value, d.first);
    }
  }

  // ---------------------------------------------------------------- claiming an idle record

  /** An ambiguous record that nobody reconciles. */
  predicate IsIdle(w: World, b: Record, digest: Text) {
    && ValidRecord(w, b) && b.version + 2 <= MAX_SAFE_INTEGER && b.requestDigest == digest
    && b.state.Ambiguous? && b.lease.None?
  }

  /** The record while it is being reconciled. */
  function OwnedFrom(b: Record, service: Service, now: int): Record {
    Record(b.version + 1, b.requestDigest, Ambiguous, None, b.attemptCount, b.lastDispatchStartedAt,
           Some(Lease(ForReconcile, service.ownerId, now, now + service.reconcileMs)), None, None, b.evidence, now)
  }

  lemma ClaimIs(w: World, inv: Invocation, b: Record, now: int)
    requires IsIdle(w, b, inv.request.digest) && CanLease(inv.service, now, inv.service.reconcileMs)
    ensures ValidRecord(w, OwnedFrom(b, inv.service, now))
    ensures ClaimReconcile(w, inv, b, now)
            == AtStore(CompareAndSet(inv.request.KeyOf(), CompareExpectation(b), OwnedFrom(b, inv.service, now)), ReconcileClaimed(b))
  {
    var owned := OwnedFrom(b, inv.service, now);
    assert RecordWith(w, b, Ambiguous, None, owned.lease, None, None, None, now) == Some(owned);
  }

  /** What is done with an answer does not depend on where the invocation stands. */
  lemma AnswerFrame(w: World, inv: Invocation, pc: Pc, owned: Record, found: ReconcileOutcome, d: Clock)
    ensures AfterReconcile(w, inv.(pc := pc), owned, found, d) == AfterReconcile(w, inv, owned, found, d)
  {
  }

  /** The reconciliation lease is stored, and the upstream is asked and answers. */
  lemma Reconciles(w: World, run: seq<Label>, i: nat, inv: Invocation, b: Record, now: int, c: Clock,
                   found: ReconcileOutcome, d: Clock, owned: Record) returns (inv': Invocation)
    requires ValidKey(inv.request.KeyOf()) && IsIdle(w, b, inv.request.digest)
    requires CanLease(inv.service, now, inv.service.reconcileMs) && owned == OwnedFrom(b, inv.service, now)
    requires Stands(After(w, run), i, inv.(pc := ClaimReconcile(w, inv, b, now)), Some(b))
    ensures Stands(After(w, run + StoreTurn(i, c) + ReconcileTurn(i, found, d)), i, inv', Some(owned))
    ensures inv'.request == inv.request && inv'.service == inv.service
    ensures inv'.pc == AfterReconcile(w, inv', owned, found, d)
  {
    ClaimIs(w, inv, b, now);
    Writes(w, run, i, inv.(pc := ClaimReconcile(w, inv, b, now)), b, owned, ReconcileClaimed(b), c);
    inv' := Asks(w, run + StoreTurn(i, c), i, inv.(pc := ReconcileReady(owned)), owned, found, d);
  }

  lemma Asks(w: World, run: seq<Label>, i: nat, ready: Invocation, owned: Record, found: ReconcileOutcome, d: Clock)
    returns (inv': Invocation)
    requires Stands(After(w, run), i, ready, Some(owned)) && ready.pc == ReconcileReady(owned)
    ensures Stands(After(w, run + ReconcileTurn(i, found, d)), i, inv', Some(owned))
    ensures inv'.request == ready.request && inv'.service == ready.service
    ensures inv'.pc == AfterReconcile(w, inv', owned, found, d)
  {
    AfterTwo(w, run, Issue(i), AnswerReconcile(i, found, d));
    ReconcileStep(w, After(w, run), i, ready, Some(owned), owned, found, d);
    inv' := ready.(pc := AfterReconcile(w, ready, owned, found, d));
    AnswerFrame(w, ready, inv'.pc, owned, found, d);
  }

  // ---------------------------------------------------------------- what each answer leads to

  /** The record of an idle one after reconciliation. */
  function Reconciled(b: Record, state: RecordState, phase: Option<Phase>, lease: Option<Lease>, result: Option<UpstreamResult>,
                      id: Option<Text>, evidence: Evidence, now: int): Record {
    Record(b.version + 2, b.requestDigest, state, phase, b.attemptCount, b.lastDispatchStartedAt, lease, result, id,
           b.evidence + [evidence], now)
  }

  /** The upstream knows the order, and its payload passes the checks. */
  predicate IsFound(w: World, found: ReconcileOutcome) {
    && found.ReconcileFound? && w.acceptsResult(found.result)
    && (found.orderIdentifier.Some? ==> |found.orderIdentifier.value| > 0)
  }

  /** The evidence of an answer that settles nothing. */
  predicate SettlesNothing(w: World, attemptCount: int, found: ReconcileOutcome, kind: EvidenceKind, identity: Json) {
    match found
    case ReconcileFound(_, result, _, _) =>
      !w.acceptsResult(result) && kind == ContentDecodingFailed && identity == Named("invalid-reconciliation-result")
    case ReconcileAbsent(shown) => attemptCount != 1 && kind == AbsenceProved && identity == shown
    case ReconcileUnproved(shown) => kind == AbsenceUnproved && identity == shown
    case ReconcileUndecodable(shown) => kind == ContentDecodingFailed && identity == shown
    case ReconcileThrew => kind == AbsenceUnproved && identity == Named("reconcile-adapter-throw")
  }

  lemma FoundEnds(w: World, run: seq<Label>, i: nat, inv: Invocation, b: Record, now: int, found: ReconcileOutcome,
                  kind: EvidenceKind, d: Clock, e: Clock, end: Record)
    requires ValidKey(inv.request.KeyOf()) && IsIdle(w, b, inv.request.digest) && CanLease(inv.service, now, inv.service.reconcileMs)
    requires IsFound(w, found) && kind == (if found.accepted then FoundAccepted else FoundRejected)
    requires IsProof(w, kind, d.first, found.identity)
    requires Stands(After(w, run), i, inv, Some(OwnedFrom(b, inv.service, now)))
    requires inv.pc == AfterReconcile(w, inv, OwnedFrom(b, inv.service, now), found, d)
    requires end == Reconciled(b, if found.accepted then Accepted else Rejected, None, None, Some(found.result),
                               found.orderIdentifier, Proof(w, kind, d.first, found.identity), d.first)
    ensures Ends(After(w, run + StoreTurn(i, e)), i, inv.request.KeyOf(),
                 Terminal(found.accepted, false, found.result, found.orderIdentifier), end)
  {
    var owned := OwnedFrom(b, inv.service, now);
    var shown := CreateEvidence(w, kind, d.first, found.identity);
    assert RecordWith(w, owned, end.state, None, None, Some(found.result), found.orderIdentifier, shown, d.first) == Some(end);
    WritesAndEnds(w, run, i, inv, owned, end, ReconcileTerminal(owned), e,
                  Terminal(found.accepted, false, found.result, found.orderIdentifier));
  }

  lemma AbsentEnds(w: World, run: seq<Label>, i: nat, inv: Invocation, b: Record, now: int, identity: Json,
                   d: Clock, e: Clock, end: Record)
    requires ValidKey(inv.request.KeyOf()) && IsIdle(w, b, inv.request.digest) && CanLease(inv.service, now, inv.service.reconcileMs)
    requires b.attemptCount == 1 && CanLease(inv.service, d.first, inv.service.dispatchMs)
    requires IsProof(w, AbsenceProved, d.first, identity)
    requires Stands(After(w, run), i, inv, Some(OwnedFrom(b, inv.service, now)))
    requires inv.pc == AfterReconcile(w, inv, OwnedFrom(b, inv.service, now), ReconcileAbsent(identity), d)
    requires end == Reconciled(b, Pending, Some(Claimed),
                               Some(Lease(ForDispatch, inv.service.ownerId, d.first, d.first + inv.service.dispatchMs)),
                               None, None, Proof(w, AbsenceProved, d.first, identity), d.first)
    ensures Ends(After(w, run + StoreTurn(i, e)), i, inv.request.KeyOf(),
                 RetryAuthorized(d.first + inv.service.dispatchMs), end)
  {
    var owned := OwnedFrom(b, inv.service, now);
    AbsenceGrants(w, inv, b, owned, identity, d, end);
    WritesAndEnds(w, run, i, inv, owned, end, RetryStored(owned, d.first), e, RetryAuthorized(d.first + inv.service.dispatchMs));
  }

  lemma AbsenceGrants(w: World, inv: Invocation, b: Record, owned: Record, identity: Json, d: Clock, end: Record)
    requires ValidRecord(w, owned) && owned.version == b.version + 1 && owned.requestDigest == b.requestDigest
    requires owned.attemptCount == b.attemptCount == 1 && owned.lastDispatchStartedAt == b.lastDispatchStartedAt
    requires owned.evidence == b.evidence && b.version + 2 <= MAX_SAFE_INTEGER
    requires CanLease(inv.service, d.first, inv.service.dispatchMs) && IsProof(w, AbsenceProved, d.first, identity)
    requires end == Reconciled(b, Pending, Some(Claimed),
                               Some(Lease(ForDispatch, inv.service.ownerId, d.first, d.first + inv.service.dispatchMs)),
                               None, None, Proof(w, AbsenceProved, d.first, identity), d.first)
    ensures ValidRecord(w, end)
    ensures AfterReconcile(w, inv, owned, ReconcileAbsent(identity), d)
            == AtStore(CompareAndSet(inv.request.KeyOf(), CompareExpectation(owned), end), RetryStored(owned, d.first))
  {
    var shown := CreateEvidence(w, AbsenceProved, d.first, identity);
    assert RecordWith(w, owned, Pending, Some(Claimed), end.lease, None, None, shown, d.first) == Some(end);
  }

  lemma UnsettledEnds(w: World, run: seq<Label>, i: nat, inv: Invocation, b: Record, now: int, found: ReconcileOutcome,
                      kind: EvidenceKind, identity: Json, d: Clock, e: Clock, end: Record)
    requires ValidKey(inv.request.KeyOf()) && IsIdle(w, b, inv.request.digest) && CanLease(inv.service, now, inv.service.reconcileMs)
    requires SettlesNothing(w, b.attemptCount, found, kind, identity) && IsProof(w, kind, d.second, identity)
    requires Stands(After(w, run), i, inv, Some(OwnedFrom(b, inv.service, now)))
    requires inv.pc == AfterReconcile(w, inv, OwnedFrom(b, inv.service, now), found, d)
    requires end == Reconciled(b, Ambiguous, None, None, None, None, Proof(w, kind, d.second, identity), d.second)
    ensures Ends(After(w, run + StoreTurn(i, e)), i, inv.request.KeyOf(), Unknown(b.attemptCount), end)
  {
    var owned := OwnedFrom(b, inv.service, now);
    assert inv.pc == ReleaseUnknown(w, inv.request.KeyOf(), owned, kind, identity, d.second);
    assert CreateEvidence(w, kind, d.second, identity) == Some(Proof(w, kind, d.second, identity));
    assert ToAmbiguous(w, owned, kind, identity, d.second) == Some(end);
    WritesAndEnds(w, run, i, inv, owned, end, Released(owned), e, Unknown(b.attemptCount));
  }

  // ---------------------------------------------------------------- from an idle record to the end

  /** The state after an idle record has been claimed, the upstream has answered, and the answer has been stored. */
  function Settled(w: World, run: seq<Label>, i: nat, c: Clock, found: ReconcileOutcome, d: Clock, e: Clock): State {
    After(w, run + StoreTurn(i, c) + ReconcileTurn(i, found, d) + StoreTurn(i, e))
  }

  /** What `reconcile` returns and stores for an answer, and under which conditions of the outside. */
  ghost predicate Settles(w: World, service: Service, b: Record, found: ReconcileOutcome, d: Clock, result: ServiceResult, end: Record) {
    || (&& IsFound(w, found)
        && var kind := if found.accepted then FoundAccepted else FoundRejected;
           && IsProof(w, kind, d.first, found.identity)
           && result == Terminal(found.accepted, false, found.result, found.orderIdentifier)
           && end == Reconciled(b, if found.accepted then Accepted else Rejected, None, None, Some(found.result),
                                found.orderIdentifier, Proof(w, kind, d.first, found.identity), d.first))
    || (&& found.ReconcileAbsent? && b.attemptCount == 1 && CanLease(service, d.first, service.dispatchMs)
        && IsProof(w, AbsenceProved, d.first, found.identity)
        && result == RetryAuthorized(d.first + service.dispatchMs)
        && end == Reconciled(b, Pending, Some(Claimed),
                             Some(Lease(ForDispatch, service.ownerId, d.first, d.first + service.dispatchMs)), None, None,
                             Proof(w, AbsenceProved, d.first, found.identity), d.first))
    || (exists kind: EvidenceKind, identity: Json ::
          && SettlesNothing(w, b.attemptCount, found, kind, identity) && IsProof(w, kind, d.second, identity)
          && result == Unknown(b.attemptCount)
          && end == Reconciled(b, Ambiguous, None, None, None, None, Proof(w, kind, d.second, identity), d.second))
  }

  lemma IdleIsSettled(w: World, run: seq<Label>, i: nat, inv: Invocation, b: Record, now: int, key: Key, c: Clock,
                      found: ReconcileOutcome, d: Clock, e: Clock, result: ServiceResult, end: Record)
    requires ValidKey(key) && key == inv.request.KeyOf() && IsIdle(w, b, inv.request.digest)
    requires CanLease(inv.service, now, inv.service.reconcileMs) && Settles(w, inv.service, b, found, d, result, end)
    requires Stands(After(w, run), i, inv.(pc := ClaimReconcile(w, inv, b, now)), Some(b))
    ensures Ends(Settled(w, run, i, c, found, d, e), i, key, result, end)
  {
    var inv' := Reconciles(w, run, i, inv, b, now, c, found, d, OwnedFrom(b, inv.service, now));
    AnswerIsSettled(w, run + StoreTurn(i, c) + ReconcileTurn(i, found, d), i, inv', b, now, found, d, e, result, end);
  }

  lemma AnswerIsSettled(w: World, run: seq<Label>, i: nat, inv: Invocation, b: Record, now: int, found: ReconcileOutcome,
                        d: Clock, e: Clock, result: ServiceResult, end: Record)
    requires ValidKey(inv.request.KeyOf()) && IsIdle(w, b, inv.request.digest)
    requires CanLease(inv.service, now, inv.service.reconcileMs) && Settles(w, inv.service, b, found, d, result, end)
    requires Stands(After(w, run), i, inv, Some(OwnedFrom(b, inv.service, now)))
    requires inv.pc == AfterReconcile(w, inv, OwnedFrom(b, inv.service, now), found, d)
    ensures Ends(After(w, run + StoreTurn(i, e)), i, inv.request.KeyOf(), result, end)
  {
    if IsFound(w, found) {
      FoundEnds(w, run, i, inv, b, now, found, if found.accepted then FoundAccepted else FoundRejected, d, e, end);
    } else if found.ReconcileAbsent? && b.attemptCount == 1 {
      AbsentEnds(w, run, i, inv, b, now, found.identity, d, e, end);
    } else {
      var kind, identity :|
        && SettlesNothing(w, b.attemptCount, found, kind, identity) && IsProof(w, kind, d.second, identity)
        && result == Unknown(b.attemptCount)
        && end == Reconciled(b, Ambiguous, None, None, None, None, Proof(w, kind, d.second, identity), d.second);
      UnsettledEnds(w, run, i, inv, b, now, found, kind, identity, d, e, end);
    }
  }

  /**
   An idle ambiguous record is reconciled: found orders become final with the upstream's payload, proved absence of the
   only attempt authorises one retry, and everything else leaves the record ambiguous. Each appends its evidence.
   */
  lemma ReconcileSettles(w: World, run: seq<Label>, service: Service, request: Request, b: Record, found: ReconcileOutcome,
                         c: Clock, d: Clock, e: Clock, f: Clock, g: Clock, result: ServiceResult, end: Record)
    requires IsGoodRequest(w, request) && CanLease(service, d.first, service.reconcileMs)
    requires Lookup(After(w, run), request.KeyOf()) == Some(b) && b.requestDigest == request.digest
    requires b.state.Ambiguous? && b.lease.None? && b.version + 2 <= MAX_SAFE_INTEGER
    requires Settles(w, service, b, found, f, result, end)
    ensures Ends(Settled(w, Asked(w, run, service, ReconcileCall, request, c, d), |After(w, run).calls|, e, found, f, g),
                 |After(w, run).calls|, request.KeyOf(), result, end)
  {
    StoredIsValid(w, run, request.KeyOf());
    RecordIsRead(w, run, service, request, Some(b), c, d);
    var inv := Caller(service, ReconcileCall, request, Begin);
    IdleIsClaimed(w, inv, Replied(Found(Some(b)), ReconcileRead), b, d);
    IdleIsSettled(w, Asked(w, run, service, ReconcileCall, request, c, d), |After(w, run).calls|, inv, b, d.first,
                  request.KeyOf(), e, found, f, g, result, end);
  }

  lemma IdleIsClaimed(w: World, inv: Invocation, pc: Pc, b: Record, d: Clock)
    requires b.requestDigest == inv.request.digest && b.state.Ambiguous? && b.lease.None?
    ensures AfterRead(w, inv.(pc := pc), Some(b), d) == ClaimReconcile(w, inv, b, d.first)
  {
  }

  // ---------------------------------------------------------------- leases that ran out

  /** The record's dispatch or reconciliation lease ran out before `now`. */
  predicate RanOut(b: Record, kind: EvidenceKind, now: int) {
    && !IsLive(b, now)
    && ((b.phase == Some(Started) && kind == DispatchLeaseExpired)
        || (b.state.Ambiguous? && b.lease.Some? && kind == ReconcileLeaseExpired))
  }

  lemma LapseIsWritten(w: World, inv: Invocation, b: Record, kind: EvidenceKind, d: Clock)
    requires ValidRecord(w, b) && b.requestDigest == inv.request.digest && RanOut(b, kind, d.first)
    requires ToAmbiguous(w, b, kind, VersionIdentity(b), d.first) == Some(Lapsed(w, b, kind, d.first))
    ensures AfterRead(w, inv, Some(b), d)
            == AtStore(CompareAndSet(inv.request.KeyOf(), CompareExpectation(b), Lapsed(w, b, kind, d.first)),
                       if b.phase == Some(Started) then ReconcileExpired(b, d.first) else ReconcileIdle(b, d.first))
  {
  }

  lemma LapseGoesOn(w: World, inv: Invocation, pc: Pc, n: Record, after: Resumption, now: int, e: Clock)
    requires n.state.Ambiguous? && n.lease.None?
    requires after.ReconcileExpired? || after.ReconcileIdle?
    requires after.now == now
    ensures AfterUpdated(w, inv.(pc := pc), n, after, e) == ClaimReconcile(w, inv, n, now)
  {
  }

  lemma LapseIsStored(w: World, run: seq<Label>, i: nat, inv: Invocation, b: Record, kind: EvidenceKind, pc: Pc, d: Clock, e: Clock)
    requires ValidKey(inv.request.KeyOf()) && ValidRecord(w, b) && b.requestDigest == inv.request.digest
    requires RanOut(b, kind, d.first) && b.version < MAX_SAFE_INTEGER && IsProof(w, kind, d.first, VersionOf(b))
    requires pc == AfterRead(w, inv, Some(b), d) && Stands(After(w, run), i, inv.(pc := pc), Some(b))
    ensures ValidRecord(w, Lapsed(w, b, kind, d.first))
    ensures Stands(After(w, run + StoreTurn(i, e)), i,
                   inv.(pc := ClaimReconcile(w, inv, Lapsed(w, b, kind, d.first), d.first)), Some(Lapsed(w, b, kind, d.first)))
  {
    var n := Lapsed(w, b, kind, d.first);
    var after := if b.phase == Some(Started) then ReconcileExpired(b, d.first) else ReconcileIdle(b, d.first);
    LapsedIs(w, b, kind, d.first);
    LapseIsWritten(w, inv, b, kind, d);
    Writes(w, run, i, inv.(pc := pc), b, n, after, e);
    LapseGoesOn(w, inv, Replied(Updated(n), after), n, after, d.first, e);
  }

  /** A dispatch or a reconciliation whose lease ran out is taken over: its lapse is recorded, and then it is settled. */
  lemma LapsedIsSettled(w: World, run: seq<Label>, service: Service, request: Request, b: Record, kind: EvidenceKind,
                        found: ReconcileOutcome, c: Clock, d: Clock, e: Clock, f: Clock, g: Clock, h: Clock,
                        result: ServiceResult, end: Record)
    requires IsGoodRequest(w, request) && CanLease(service, d.first, service.reconcileMs)
    requires Lookup(After(w, run), request.KeyOf()) == Some(b) && b.requestDigest == request.digest
    requires RanOut(b, kind, d.first) && b.version + 3 <= MAX_SAFE_INTEGER && IsProof(w, kind, d.first, VersionOf(b))
    requires Settles(w, service, Lapsed(w, b, kind, d.first), found, g, result, end)
    ensures Ends(Settled(w, Asked(w, run, service, ReconcileCall, request, c, d) + StoreTurn(|After(w, run).calls|, e),
                         |After(w, run).calls|, f, found, g, h),
                 |After(w, run).calls|, request.KeyOf(), result, end)
  {
    StoredIsValid(w, run, request.KeyOf());
    RecordIsRead(w, run, service, request, Some(b), c, d);
    var inv := Caller(service, ReconcileCall, request, Replied(Found(Some(b)), ReconcileRead));
    LapseIsStored(w, Asked(w, run, service, ReconcileCall, request, c, d), |After(w, run).calls|, inv, b, kind,
                  AfterRead(w, inv, Some(b), d), d, e);
    IdleIsSettled(w, Asked(w, run, service, ReconcileCall, request, c, d) + StoreTurn(|After(w, run).calls|, e),
                  |After(w, run).calls|, inv, Lapsed(w, b, kind, d.first), d.first, request.KeyOf(), f, found, g, h, result, end);
  }
}
