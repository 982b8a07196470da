/**
 What the submission service achieves when nothing interferes: from any reachable state, one invocation whose steps
 are not interleaved with others, and whose calls do not fail, stores and returns exactly what the upstream answered.
 The statements spell out records and results field by field.
 */
module SubmissionProgress {
  import opened Common
  import opened CanonicalJson
  import opened SubmissionStore
  import opened Submission
  import opened SubmissionSteps

  // ---------------------------------------------------------------- labels of an undisturbed invocation

  /** The invocation begins, its first repository call is served, and it resumes. */
  function FirstTurn(i: nat, c: Clock, d: Clock): seq<Label> {
    [Begins(i, c), Serve(i), Resumes(i, d)]
  }

  /** A repository call is served, and the invocation resumes. */
  function StoreTurn(i: nat, c: Clock): seq<Label> {
    [Serve(i), Resumes(i, c)]
  }

  function SubmitTurn(i: nat, outcome: SubmitOutcome, c: Clock): seq<Label> {
    [Issue(i), AnswerSubmit(i, outcome, c)]
  }

  function ReconcileTurn(i: nat, found: ReconcileOutcome, c: Clock): seq<Label> {
    [Issue(i), AnswerReconcile(i, found, c)]
  }

  // ---------------------------------------------------------------- one invocation and its record

  function Lookup(s: State, key: Key): Option<Record> {
    if key in s.records then Some(s.records[key]) else None
  }

  /** Invocation `i` is `inv`, and `r` is stored under its key. */
  predicate Stands(s: State, i: nat, inv: Invocation, r: Option<Record>) {
    i < |s.calls| && s.calls[i] == inv && Lookup(s, inv.request.KeyOf()) == r
  }

  lemma AfterLabel(w: World, run: seq<Label>, l: Label)
    ensures After(w, run + [l]) == Next(w, After(w, run), l)
  {
    assert (run + [l])[..|run|] == run;
  }

  lemma AfterTwo(w: World, run: seq<Label>, a: Label, b: Label)
    ensures After(w, run + [a, b]) == Next(w, Next(w, After(w, run), a), b)
  {
    AfterLabel(w, run, a);
    AfterLabel(w, run + [a], b);
    assert run + [a] + [b] == run + [a, b];
  }

  lemma AfterThree(w: World, run: seq<Label>, a: Label, b: Label, c: Label)
    ensures After(w, run + [a, b, c]) == Next(w, Next(w, Next(w, After(w, run), a), b), c)
  {
    AfterTwo(w, run, a, b);
    AfterLabel(w, run + [a, b], c);
    assert run + [a, b] + [c] == run + [a, b, c];
  }

  lemma Arrives(w: World, run: seq<Label>, service: Service, op: Operation, request: Request)
    ensures Stands(After(w, run + [Arrive(service, op, request)]), |After(w, run).calls|,
                   Invocation(service, op, request, Begin, 0), Lookup(After(w, run), request.KeyOf()))
  {
    AfterLabel(w, run, Arrive(service, op, request));
  }

  lemma BeginsStep(w: World, s: State, i: nat, inv: Invocation, r: Option<Record>, c: Clock)
    requires Stands(s, i, inv, r) && inv.pc.Begin?
    ensures Stands(Next(w, s, Begins(i, c)), i, inv.(pc := Start(w, inv, c)), r)
  {
  }

  lemma ResumesStep(w: World, s: State, i: nat, inv: Invocation, r: Option<Record>, c: Clock)
    requires Stands(s, i, inv, r) && inv.pc.Replied?
    ensures Stands(Next(w, s, Resumes(i, c)), i, inv.(pc := Resume(w, inv, inv.pc.reply, inv.pc.after, c)), r)
  {
  }

  lemma CreateStep(w: World, s: State, i: nat, inv: Invocation, n: Record, after: Resumption)
    requires Stands(s, i, inv, None) && inv.pc == AtStore(CreateIfAbsent(inv.request.KeyOf(), n), after)
    requires ValidKey(inv.request.KeyOf()) && ValidRecord(w, n) && n.version == 1
    ensures Stands(Next(w, s, Serve(i)), i, inv.(pc := Replied(Created(n), after)), Some(n))
  {
  }

  lemma ExistingStep(w: World, s: State, i: nat, inv: Invocation, n: Record, after: Resumption, r: Record)
    requires Stands(s, i, inv, Some(r)) && inv.pc == AtStore(CreateIfAbsent(inv.request.KeyOf(), n), after)
    requires ValidKey(inv.request.KeyOf())
    ensures Stands(Next(w, s, Serve(i)), i, inv.(pc := Replied(Existing(r), after)), Some(r))
  {
  }

  lemma ReadStep(w: World, s: State, i: nat, inv: Invocation, after: Resumption, r: Option<Record>)
    requires Stands(s, i, inv, r) && inv.pc == AtStore(Read(inv.request.KeyOf()), after) && ValidKey(inv.request.KeyOf())
    ensures Stands(Next(w, s, Serve(i)), i, inv.(pc := Replied(Found(r), after)), r)
  {
  }

  /** The attempt an invocation holds once its write `n` has been stored. */
  function Held(inv: Invocation, after: Resumption, n: Record): nat {
    if after.DispatchStarted? && n.attemptCount >= 0 then n.attemptCount else inv.attempt
  }

  predicate CanReplace(w: World, key: Key, b: Record, n: Record) {
    ValidKey(key) && ValidRecord(w, n) && n.version == b.version + 1 && n.requestDigest == b.requestDigest
  }

  lemma SwapStep(w: World, s: State, i: nat, inv: Invocation, b: Record, n: Record, after: Resumption)
    requires Stands(s, i, inv, Some(b))
    requires inv.pc == AtStore(CompareAndSet(inv.request.KeyOf(), CompareExpectation(b), n), after)
    requires CanReplace(w, inv.request.KeyOf(), b, n)
    ensures Stands(Next(w, s, Serve(i)), i, inv.(pc := Replied(Updated(n), after), attempt := Held(inv, after, n)), Some(n))
  {
    assert ExpectationMatches(b, CompareExpectation(b));
    assert Reply(w, s.records, inv.pc.request) == Updated(n);
  }

  /** An undisturbed write takes effect, and the code goes on with the record it stored. */
  lemma Writes(w: World, run: seq<Label>, i: nat, inv: Invocation, b: Record, n: Record, after: Resumption, c: Clock)
    requires Stands(After(w, run), i, inv, Some(b))
    requires inv.pc == AtStore(CompareAndSet(inv.request.KeyOf(), CompareExpectation(b), n), after)
    requires CanReplace(w, inv.request.KeyOf(), b, n)
    ensures Stands(After(w, run + StoreTurn(i, c)), i,
                   inv.(pc := AfterUpdated(w, inv.(pc := Replied(Updated(n), after), attempt := Held(inv, after, n)), n, after, c),
                        attempt := Held(inv, after, n)), Some(n))
  {
    var s := After(w, run);
    var served := inv.(pc := Replied(Updated(n), after), attempt := Held(inv, after, n));
    AfterTwo(w, run, Serve(i), Resumes(i, c));
    SwapStep(w, s, i, inv, b, n, after);
    ResumesStep(w, Next(w, s, Serve(i)), i, served, Some(n), c);
  }

  /** A write after which the invocation is done, whatever it held. */
  lemma WritesAndEnds(w: World, run: seq<Label>, i: nat, inv: Invocation, b: Record, n: Record, after: Resumption, c: Clock,
                      result: ServiceResult)
    requires Stands(After(w, run), i, inv, Some(b)) && !after.DispatchStarted?
    requires inv.pc == AtStore(CompareAndSet(inv.request.KeyOf(), CompareExpectation(b), n), after)
    requires CanReplace(w, inv.request.KeyOf(), b, n)
    requires AfterUpdated(w, inv.(pc := Replied(Updated(n), after)), n, after, c) == Done(result)
    ensures Stands(After(w, run + StoreTurn(i, c)), i, inv.(pc := Done(result)), Some(n))
  {
    Writes(w, run, i, inv, b, n, after, c);
    assert inv.(pc := Replied(Updated(n), after), attempt := inv.attempt) == inv.(pc := Replied(Updated(n), after));
  }

  lemma SubmitStep(w: World, s: State, i: nat, inv: Invocation, r: Option<Record>, started: Record, outcome: SubmitOutcome, c: Clock)
    requires Stands(s, i, inv, r) && inv.pc == SubmitReady(started)
    ensures Stands(Next(w, Next(w, s, Issue(i)), AnswerSubmit(i, outcome, c)), i,
                   inv.(pc := AfterSubmit(w, inv.request.KeyOf(), started, outcome, c)), r)
  {
    var s1 := Next(w, s, Issue(i));
    assert Stands(s1, i, inv.(pc := SubmitAwait(started)), r);
  }

  lemma ReconcileStep(w: World, s: State, i: nat, inv: Invocation, r: Option<Record>, owned: Record, found: ReconcileOutcome, c: Clock)
    requires Stands(s, i, inv, r) && inv.pc == ReconcileReady(owned)
    ensures Stands(Next(w, Next(w, s, Issue(i)), AnswerReconcile(i, found, c)), i,
                   inv.(pc := AfterReconcile(w, inv, owned, found, c)), r)
  {
    var s1 := Next(w, s, Issue(i));
    assert Stands(s1, i, inv.(pc := ReconcileAwait(owned)), r);
    assert AfterReconcile(w, inv.(pc := ReconcileAwait(owned)), owned, found, c) == AfterReconcile(w, inv, owned, found, c);
  }

  // ---------------------------------------------------------------- what is assumed of the caller and the outside

  predicate IsGoodRequest(w: World, request: Request) {
    && request.schemaVersion == T("cork.limit-order-submission/v1")
    && IsCanonicalDecimal(request.chainId) && request.signedOrder.Obj?
    && |request.principalId| > 0 && |request.upstreamProfileId| > 0 && 0 < |request.clientRequestId| <= 128
    && w.requestDigest(request.Projection()) == request.digest
  }

  /** A lease of `ms` from `now` on ends at a safe time. */
  predicate CanLease(service: Service, now: int, ms: int) {
    |service.ownerId| > 0 && 0 <= now && 1 <= ms && now + ms <= MAX_SAFE_INTEGER
  }

  /** The upstream accepted or rejected the order, with a payload that passes the checks. */
  predicate IsAnswer(w: World, outcome: SubmitOutcome) {
    && (outcome.SubmitAccepted? || outcome.SubmitRejected?)
    && w.acceptsResult(outcome.result) && (outcome.orderIdentifier.Some? ==> |outcome.orderIdentifier.value| > 0)
  }

  function Named(kind: string): Json {
    Obj([Entry(T("kind"), Str(T(kind)))])
  }

  /** The evidence that an answer without a usable result leaves behind. */
  predicate LeavesEvidence(w: World, outcome: SubmitOutcome, kind: EvidenceKind, identity: Json) {
    match outcome
    case SubmitThrew => kind == TransportUncertain && identity == Named("adapter-throw")
    case SubmitUncertain(shown) => kind == TransportUncertain && identity == shown
    case SubmitUndecodable(shown) => kind == ContentDecodingFailed && identity == shown
    case _ =>
      && !w.acceptsResult(outcome.result)
      && kind == ContentDecodingFailed && identity == Named("invalid-upstream-result")
  }

  predicate IsProof(w: World, kind: EvidenceKind, now: int, identity: Json) {
    IsSafeTime(now) && IsSha256Digest(w.evidenceDigest(kind, now, identity))
  }

  function Proof(w: World, kind: EvidenceKind, now: int, identity: Json): Evidence {
    Evidence(kind, now, w.evidenceDigest(kind, now, identity))
  }

  // ---------------------------------------------------------------- dispatching a claimed record

  /** A claim that its service can start: one attempt at most was made before. */
  predicate IsClaim(w: World, b: Record, service: Service, digest: Text) {
    && ValidRecord(w, b) && b.version + 2 <= MAX_SAFE_INTEGER && b.requestDigest == digest
    && b.state.Pending? && b.phase == Some(Claimed) && b.attemptCount <= 1
    && b.lease.Some? && b.lease.value.purpose.ForDispatch? && b.lease.value.owner == service.ownerId
  }

  /** The durable start that follows a claim. */
  function StartOf(b: Record, now: int): Record {
    Record(b.version + 1, b.requestDigest, Pending, Some(Started), b.attemptCount + 1, Some(now), b.lease, None, None,
           b.evidence, now)
  }

  /** The record once the upstream has answered. */
  function EndOf(b: Record, startedAt: int, state: RecordState, result: Option<UpstreamResult>, id: Option<Text>,
                 evidence: seq<Evidence>, now: int): Record {
    Record(b.version + 2, b.requestDigest, state, None, b.attemptCount + 1, Some(startedAt), None, result, id, evidence, now)
  }

  /** The durable start is stored, and the upstream is asked and answers. */
  lemma Dispatches(w: World, run: seq<Label>, i: nat, inv: Invocation, b: Record, now: int, c: Clock,
                   outcome: SubmitOutcome, d: Clock) returns (inv': Invocation)
    requires ValidKey(inv.request.KeyOf()) && IsClaim(w, b, inv.service, inv.request.digest) && IsSafeTime(now)
    requires Stands(After(w, run), i, inv, Some(b)) && inv.pc == Dispatch(w, inv, b, now)
    ensures Stands(After(w, run + StoreTurn(i, c) + SubmitTurn(i, outcome, d)), i, inv', Some(StartOf(b, now)))
    ensures inv'.request == inv.request && inv'.service == inv.service
    ensures inv'.pc == AfterSubmit(w, inv.request.KeyOf(), StartOf(b, now), outcome, d)
  {
    var started := StartOf(b, now);
    assert StartedFrom(w, b, now) == Some(started);
    var after := DispatchStarted(b, started);
    Writes(w, run, i, inv, b, started, after, c);
    var ready := inv.(pc := SubmitReady(started), attempt := Held(inv, after, started));
    var run1 := run + StoreTurn(i, c);
    AfterTwo(w, run1, Issue(i), AnswerSubmit(i, outcome, d));
    SubmitStep(w, After(w, run1), i, ready, Some(started), started, outcome, d);
    inv' := ready.(pc := AfterSubmit(w, inv.request.KeyOf(), started, outcome, d));
  }

  lemma EndsWithAnswer(w: World, run: seq<Label>, i: nat, inv: Invocation, b: Record, startedAt: int,
                       outcome: SubmitOutcome, d: Clock, e: Clock)
    requires ValidKey(inv.request.KeyOf()) && IsClaim(w, b, inv.service, inv.request.digest)
    requires IsSafeTime(startedAt) && IsSafeTime(d.first) && IsAnswer(w, outcome)
    requires Stands(After(w, run), i, inv, Some(StartOf(b, startedAt)))
    requires inv.pc == AfterSubmit(w, inv.request.KeyOf(), StartOf(b, startedAt), outcome, d)
    ensures Stands(After(w, run + StoreTurn(i, e)), i,
                   inv.(pc := Done(Terminal(outcome.SubmitAccepted?, false, outcome.result, outcome.orderIdentifier))),
                   Some(EndOf(b, startedAt, if outcome.SubmitAccepted? then Accepted else Rejected, Some(outcome.result),
                              outcome.orderIdentifier, b.evidence, d.first)))
  {
    var started := StartOf(b, startedAt);
    var state := if outcome.SubmitAccepted? then Accepted else Rejected;
    var end := EndOf(b, startedAt, state, Some(outcome.result), outcome.orderIdentifier, b.evidence, d.first);
    assert RecordWith(w, started, state, None, None, Some(outcome.result), outcome.orderIdentifier, None, d.first) == Some(end);
    WritesAndEnds(w, run, i, inv, started, end, DispatchTerminal(started), e,
                  Terminal(outcome.SubmitAccepted?, false, outcome.result, outcome.orderIdentifier));
  }

  lemma EndsUnknown(w: World, run: seq<Label>, i: nat, inv: Invocation, b: Record, startedAt: int,
                    outcome: SubmitOutcome, kind: EvidenceKind, identity: Json, d: Clock, e: Clock)
    requires ValidKey(inv.request.KeyOf()) && IsClaim(w, b, inv.service, inv.request.digest)
    requires IsSafeTime(startedAt) && LeavesEvidence(w, outcome, kind, identity) && IsProof(w, kind, d.first, identity)
    requires Stands(After(w, run), i, inv, Some(StartOf(b, startedAt)))
    requires inv.pc == AfterSubmit(w, inv.request.KeyOf(), StartOf(b, startedAt), outcome, d)
    ensures Stands(After(w, run + StoreTurn(i, e)), i, inv.(pc := Done(Unknown(b.attemptCount + 1))),
                   Some(EndOf(b, startedAt, Ambiguous, None, None, b.evidence + [Proof(w, kind, d.first, identity)], d.first)))
  {
    var started := StartOf(b, startedAt);
    var end := EndOf(b, startedAt, Ambiguous, None, None, b.evidence + [Proof(w, kind, d.first, identity)], d.first);
    assert inv.pc == MarkAmbiguous(w, inv.request.KeyOf(), started, kind, identity, d.first);
    assert CreateEvidence(w, kind, d.first, identity) == Some(Proof(w, kind, d.first, identity));
    assert ToAmbiguous(w, started, kind, identity, d.first) == Some(end);
    WritesAndEnds(w, run, i, inv, started, end, AmbiguousStored(started), e, Unknown(b.attemptCount + 1));
  }

  // ---------------------------------------------------------------- submitting

  /** Invocation `i` has returned `result`, and `r` is stored under its key. */
  predicate Ends(s: State, i: nat, key: Key, result: ServiceResult, r: Record) {
    i < |s.calls| && s.calls[i].pc == Done(result) && Lookup(s, key) == Some(r)
  }

  /** The state after the steps of one undisturbed dispatch. */
  function Dispatched(w: World, run: seq<Label>, i: nat, c: Clock, outcome: SubmitOutcome, d: Clock, e: Clock): State {
    After(w, run + StoreTurn(i, c) + SubmitTurn(i, outcome, d) + StoreTurn(i, e))
  }

  /** The dispatch of a claim does not depend on where the invocation stands. */
  lemma DispatchFrame(w: World, inv: Invocation, pc: Pc, b: Record, now: int)
    ensures Dispatch(w, inv.(pc := pc), b, now) == Dispatch(w, inv, b, now)
  {
  }

  lemma DispatchAnswered(w: World, run: seq<Label>, i: nat, inv: Invocation, b: Record, now: int, c: Clock,
                         outcome: SubmitOutcome, d: Clock, e: Clock, key: Key, end: Record)
    requires ValidKey(key) && key == inv.request.KeyOf() && IsClaim(w, b, inv.service, inv.request.digest)
    requires IsSafeTime(now) && IsSafeTime(d.first) && IsAnswer(w, outcome)
    requires Stands(After(w, run), i, inv.(pc := Dispatch(w, inv, b, now)), Some(b))
    requires end == EndOf(b, now, if outcome.SubmitAccepted? then Accepted else Rejected, Some(outcome.result),
                          outcome.orderIdentifier, b.evidence, d.first)
    ensures Ends(Dispatched(w, run, i, c, outcome, d, e), i, key,
                 Terminal(outcome.SubmitAccepted?, false, outcome.result, outcome.orderIdentifier), end)
  {
    var at := inv.(pc := Dispatch(w, inv, b, now));
    DispatchFrame(w, inv, at.pc, b, now);
    var inv' := Dispatches(w, run, i, at, b, now, c, outcome, d);
    EndsWithAnswer(w, run + StoreTurn(i, c) + SubmitTurn(i, outcome, d), i, inv', b, now, outcome, d, e);
  }

  lemma DispatchUncertain(w: World, run: seq<Label>, i: nat, inv: Invocation, b: Record, now: int, c: Clock,
                          outcome: SubmitOutcome, kind: EvidenceKind, identity: Json, d: Clock, e: Clock, key: Key, end: Record)
    requires ValidKey(key) && key == inv.request.KeyOf() && IsClaim(w, b, inv.service, inv.request.digest)
    requires IsSafeTime(now) && LeavesEvidence(w, outcome, kind, identity) && IsProof(w, kind, d.first, identity)
    requires Stands(After(w, run), i, inv.(pc := Dispatch(w, inv, b, now)), Some(b))
    requires end == EndOf(b, now, Ambiguous, None, None, b.evidence + [Proof(w, kind, d.first, identity)], d.first)
    ensures Ends(Dispatched(w, run, i, c, outcome, d, e), i, key, Unknown(b.attemptCount + 1), end)
  {
    var at := inv.(pc := Dispatch(w, inv, b, now));
    DispatchFrame(w, inv, at.pc, b, now);
    var inv' := Dispatches(w, run, i, at, b, now, c, outcome, d);
    EndsUnknown(w, run + StoreTurn(i, c) + SubmitTurn(i, outcome, d), i, inv', b, now, outcome, kind, identity, d, e);
  }

  /** The run that `submit` arrives on and makes its first repository call in. */
  function Asked(w: World, run: seq<Label>, service: Service, op: Operation, request: Request, c: Clock, d: Clock): seq<Label> {
    run + [Arrive(service, op, request)] + FirstTurn(|After(w, run).calls|, c, d)
  }

  function Caller(service: Service, op: Operation, request: Request, pc: Pc): Invocation {
    Invocation(service, op, request, pc, 0)
  }

  /** The claim that `submit` stores under a fresh key. */
  function FreshClaim(service: Service, digest: Text, now: int): Record {
    Record(1, digest, Pending, Some(Claimed), 0, None,
           Some(Lease(ForDispatch, service.ownerId, now, now + service.dispatchMs)), None, None, [], now)
  }

  /** The first repository call of `submit`. */
  lemma StartIs(w: World, inv: Invocation, c: Clock)
    requires inv.op.SubmitCall? && IsGoodRequest(w, inv.request) && IsSha256Digest(inv.request.digest)
    requires CanLease(inv.service, c.first, inv.service.dispatchMs)
    ensures ValidKey(inv.request.KeyOf()) && ValidRecord(w, FreshClaim(inv.service, inv.request.digest, c.first))
    ensures Start(w, inv, c)
            == AtStore(CreateIfAbsent(inv.request.KeyOf(), FreshClaim(inv.service, inv.request.digest, c.first)),
                       SubmitCreated(c.first))
  {
  }

  /** A first turn whose call is answered with `reply`. */
  lemma FirstTurnEnds(w: World, run: seq<Label>, i: nat, inv: Invocation, r: Option<Record>, asks: Pc, served: Invocation,
                      r': Option<Record>, c: Clock, d: Clock)
    requires Stands(After(w, run), i, inv, r) && inv.pc.Begin? && Start(w, inv, c) == asks
    requires forall s: State | Stands(s, i, inv.(pc := asks), r) :: Stands(Next(w, s, Serve(i)), i, served, r')
    requires served.pc.Replied?
    ensures Stands(After(w, run + FirstTurn(i, c, d)), i,
                   served.(pc := Resume(w, served, served.pc.reply, served.pc.after, d)), r')
  {
    var s := After(w, run);
    AfterThree(w, run, Begins(i, c), Serve(i), Resumes(i, d));
    BeginsStep(w, s, i, inv, r, c);
    var s1 := Next(w, s, Begins(i, c));
    ResumesStep(w, Next(w, s1, Serve(i)), i, served, r', d);
  }

  lemma FreshTurn(w: World, run: seq<Label>, i: nat, inv: Invocation, claim: Record, now: int, c: Clock, d: Clock)
    requires Stands(After(w, run), i, inv, None) && inv.pc.Begin? && ValidKey(inv.request.KeyOf())
    requires Start(w, inv, c) == AtStore(CreateIfAbsent(inv.request.KeyOf(), claim), SubmitCreated(now))
    requires ValidRecord(w, claim) && claim.version == 1
    ensures var served := inv.(pc := Replied(Created(claim), SubmitCreated(now)));
            Stands(After(w, run + FirstTurn(i, c, d)), i, inv.(pc := AfterCreated(w, served, claim, now, d)), Some(claim))
  {
    var asks := Start(w, inv, c);
    var served := inv.(pc := Replied(Created(claim), SubmitCreated(now)));
    forall s: State | Stands(s, i, inv.(pc := asks), None) ensures Stands(Next(w, s, Serve(i)), i, served, Some(claim)) {
      CreateStep(w, s, i, inv.(pc := asks), claim, SubmitCreated(now));
    }
    FirstTurnEnds(w, run, i, inv, None, asks, served, Some(claim), c, d);
  }

  lemma ExistingTurn(w: World, run: seq<Label>, i: nat, inv: Invocation, claim: Record, now: int, b: Record, c: Clock, d: Clock)
    requires Stands(After(w, run), i, inv, Some(b)) && inv.pc.Begin? && ValidKey(inv.request.KeyOf())
    requires Start(w, inv, c) == AtStore(CreateIfAbsent(inv.request.KeyOf(), claim), SubmitCreated(now))
    ensures var served := inv.(pc := Replied(Existing(b), SubmitCreated(now)));
            Stands(After(w, run + FirstTurn(i, c, d)), i, inv.(pc := AfterCreated(w, served, b, now, d)), Some(b))
  {
    var asks := Start(w, inv, c);
    var served := inv.(pc := Replied(Existing(b), SubmitCreated(now)));
    forall s: State | Stands(s, i, inv.(pc := asks), Some(b)) ensures Stands(Next(w, s, Serve(i)), i, served, Some(b)) {
      ExistingStep(w, s, i, inv.(pc := asks), claim, SubmitCreated(now), b);
    }
    FirstTurnEnds(w, run, i, inv, Some(b), asks, served, Some(b), c, d);
  }

  /** A claim just stored, or still held by this service, is dispatched. */
  lemma ClaimGoesOn(w: World, inv: Invocation, pc: Pc, claim: Record, now: int, d: Clock)
    requires claim.requestDigest == inv.request.digest && claim.state.Pending? && claim.phase == Some(Claimed)
    requires claim.lease.Some? && claim.lease.value.purpose.ForDispatch?
    requires claim.lease.value.owner == inv.service.ownerId && claim.lease.value.expiresAt > now
    ensures AfterCreated(w, inv.(pc := pc), claim, now, d) == Dispatch(w, inv, claim, d.first)
  {
  }

  lemma FreshIsClaimed(w: World, run: seq<Label>, service: Service, request: Request, c: Clock, d: Clock)
    requires IsGoodRequest(w, request) && IsSha256Digest(request.digest) && CanLease(service, c.first, service.dispatchMs)
    requires request.KeyOf() !in After(w, run).records
    ensures IsClaim(w, FreshClaim(service, request.digest, c.first), service, request.digest)
    ensures var inv := Caller(service, SubmitCall, request, Begin);
            Stands(After(w, Asked(w, run, service, SubmitCall, request, c, d)), |After(w, run).calls|,
                   inv.(pc := Dispatch(w, inv, FreshClaim(service, request.digest, c.first), d.first)),
                   Some(FreshClaim(service, request.digest, c.first)))
  {
    var i, claim := |After(w, run).calls|, FreshClaim(service, request.digest, c.first);
    var inv := Caller(service, SubmitCall, request, Begin);
    Arrives(w, run, service, SubmitCall, request);
    StartIs(w, inv, c);
    FreshTurn(w, run + [Arrive(service, SubmitCall, request)], i, inv, claim, c.first, c, d);
    ClaimGoesOn(w, inv, Replied(Created(claim), SubmitCreated(c.first)), claim, c.first, d);
  }

  lemma FreshAnswered(w: World, run: seq<Label>, i: nat, inv: Invocation, claim: Record, now: int, key: Key,
                      outcome: SubmitOutcome, d: Clock, e: Clock, f: Clock, g: Clock)
    requires ValidKey(key) && key == inv.request.KeyOf() && claim == FreshClaim(inv.service, inv.request.digest, now)
    requires IsClaim(w, claim, inv.service, inv.request.digest)
    requires IsSafeTime(d.first) && IsSafeTime(f.first) && IsAnswer(w, outcome)
    requires Stands(After(w, run), i, inv.(pc := Dispatch(w, inv, claim, d.first)), Some(claim))
    ensures Ends(Dispatched(w, run, i, e, outcome, f, g), i, key,
                 Terminal(outcome.SubmitAccepted?, false, outcome.result, outcome.orderIdentifier),
                 Record(3, inv.request.digest, if outcome.SubmitAccepted? then Accepted else Rejected, None, 1, Some(d.first),
                        None, Some(outcome.result), outcome.orderIdentifier, [], f.first))
  {
    var end := EndOf(claim, d.first, if outcome.SubmitAccepted? then Accepted else Rejected, Some(outcome.result),
                     outcome.orderIdentifier, claim.evidence, f.first);
    DispatchAnswered(w, run, i, inv, claim, d.first, e, outcome, f, g, key, end);
  }

  lemma FreshUncertain(w: World, run: seq<Label>, i: nat, inv: Invocation, claim: Record, now: int, key: Key,
                       outcome: SubmitOutcome, kind: EvidenceKind, identity: Json, d: Clock, e: Clock, f: Clock, g: Clock)
    requires ValidKey(key) && key == inv.request.KeyOf() && claim == FreshClaim(inv.service, inv.request.digest, now)
    requires IsClaim(w, claim, inv.service, inv.request.digest)
    requires IsSafeTime(d.first) && LeavesEvidence(w, outcome, kind, identity) && IsProof(w, kind, f.first, identity)
    requires Stands(After(w, run), i, inv.(pc := Dispatch(w, inv, claim, d.first)), Some(claim))
    ensures Ends(Dispatched(w, run, i, e, outcome, f, g), i, key, Unknown(1),
                 Record(3, inv.request.digest, Ambiguous, None, 1, Some(d.first), None, None, None,
                        [Proof(w, kind, f.first, identity)], f.first))
  {
    var shown := [Proof(w, kind, f.first, identity)];
    assert claim.evidence + shown == shown;
    DispatchUncertain(w, run, i, inv, claim, d.first, e, outcome, kind, identity, f, g, key,
                      EndOf(claim, d.first, Ambiguous, None, None, shown, f.first));
  }

  /**
   A request under a fresh key is submitted: the upstream's answer is stored as the final record, and returned, whole
   and unchanged.
   */
  lemma SubmitStoresTheAnswer(w: World, run: seq<Label>, service: Service, request: Request, outcome: SubmitOutcome,
                              c: Clock, d: Clock, e: Clock, f: Clock, g: Clock)
    requires IsGoodRequest(w, request) && IsSha256Digest(request.digest) && CanLease(service, c.first, service.dispatchMs)
    requires request.KeyOf() !in After(w, run).records
    requires IsSafeTime(d.first) && IsSafeTime(f.first) && IsAnswer(w, outcome)
    ensures Ends(Dispatched(w, Asked(w, run, service, SubmitCall, request, c, d), |After(w, run).calls|, e, outcome, f, g),
                 |After(w, run).calls|, request.KeyOf(),
                 Terminal(outcome.SubmitAccepted?, false, outcome.result, outcome.orderIdentifier),
                 Record(3, request.digest, if outcome.SubmitAccepted? then Accepted else Rejected, None, 1, Some(d.first),
                        None, Some(outcome.result), outcome.orderIdentifier, [], f.first))
  {
    FreshIsClaimed(w, run, service, request, c, d);
    FreshAnswered(w, Asked(w, run, service, SubmitCall, request, c, d), |After(w, run).calls|,
                  Caller(service, SubmitCall, request, Begin), FreshClaim(service, request.digest, c.first), c.first,
                  request.KeyOf(), outcome, d, e, f, g);
  }

  /** An answer without a usable result leaves an ambiguous record with the evidence that belongs to it. */
  lemma SubmitKeepsTheEvidence(w: World, run: seq<Label>, service: Service, request: Request, outcome: SubmitOutcome,
                               kind: EvidenceKind, identity: Json, c: Clock, d: Clock, e: Clock, f: Clock, g: Clock)
    requires IsGoodRequest(w, request) && IsSha256Digest(request.digest) && CanLease(service, c.first, service.dispatchMs)
    requires request.KeyOf() !in After(w, run).records
    requires IsSafeTime(d.first) && LeavesEvidence(w, outcome, kind, identity) && IsProof(w, kind, f.first, identity)
    ensures Ends(Dispatched(w, Asked(w, run, service, SubmitCall, request, c, d), |After(w, run).calls|, e, outcome, f, g),
                 |After(w, run).calls|, request.KeyOf(), Unknown(1),
                 Record(3, request.digest, Ambiguous, None, 1, Some(d.first), None, None, None,
                        [Proof(w, kind, f.first, identity)], f.first))
  {
    FreshIsClaimed(w, run, service, request, c, d);
    FreshUncertain(w, Asked(w, run, service, SubmitCall, request, c, d), |After(w, run).calls|,
                   Caller(service, SubmitCall, request, Begin), FreshClaim(service, request.digest, c.first), c.first,
                   request.KeyOf(), outcome, kind, identity, d, e, f, g);
  }

  /** The record stored under a key in a reachable state is valid. */
  lemma StoredIsValid(w: World, run: seq<Label>, key: Key)
    ensures key in After(w, run).records ==> ValidRecord(w, After(w, run).records[key])
  {
    RunInv(w, run);
    CurrentInHistory(w, After(w, run), key);
  }

  /** `submit` on a key that has a record: the first repository call returns it. */
  lemma ExistingIsFound(w: World, run: seq<Label>, service: Service, request: Request, b: Record, c: Clock, d: Clock)
    requires IsGoodRequest(w, request) && IsSha256Digest(request.digest) && CanLease(service, c.first, service.dispatchMs)
    requires Lookup(After(w, run), request.KeyOf()) == Some(b)
    ensures var inv := Caller(service, SubmitCall, request, Replied(Existing(b), SubmitCreated(c.first)));
            Stands(After(w, Asked(w, run, service, SubmitCall, request, c, d)), |After(w, run).calls|,
                   inv.(pc := AfterCreated(w, inv, b, c.first, d)), Some(b))
  {
    var inv := Caller(service, SubmitCall, request, Begin);
    Arrives(w, run, service, SubmitCall, request);
    StartIs(w, inv, c);
    ExistingTurn(w, run + [Arrive(service, SubmitCall, request)], |After(w, run).calls|, inv,
                 FreshClaim(service, request.digest, c.first), c.first, b, c, d);
  }

  /** A claim of this service that has not run out, such as the one an authorised retry leaves. */
  predicate IsHeldClaim(b: Record, service: Service, digest: Text, now: int) {
    && b.version + 2 <= MAX_SAFE_INTEGER && b.requestDigest == digest && b.phase == Some(Claimed)
    && b.lease.Some? && b.lease.value.owner == service.ownerId && b.lease.value.expiresAt > now
  }

  lemma HeldIsDispatched(w: World, run: seq<Label>, service: Service, request: Request, b: Record, c: Clock, d: Clock)
    requires IsGoodRequest(w, request) && IsSha256Digest(request.digest) && CanLease(service, c.first, service.dispatchMs)
    requires Lookup(After(w, run), request.KeyOf()) == Some(b) && IsHeldClaim(b, service, request.digest, c.first)
    ensures IsClaim(w, b, service, request.digest)
    ensures var inv := Caller(service, SubmitCall, request, Begin);
            Stands(After(w, Asked(w, run, service, SubmitCall, request, c, d)), |After(w, run).calls|,
                   inv.(pc := Dispatch(w, inv, b, d.first)), Some(b))
  {
    StoredIsValid(w, run, request.KeyOf());
    ExistingIsFound(w, run, service, request, b, c, d);
    ClaimGoesOn(w, Caller(service, SubmitCall, request, Begin), Replied(Existing(b), SubmitCreated(c.first)), b, c.first, d);
  }

  lemma HeldAnswered(w: World, run: seq<Label>, i: nat, inv: Invocation, b: Record, key: Key,
                     outcome: SubmitOutcome, d: Clock, e: Clock, f: Clock, g: Clock, end: Record)
    requires ValidKey(key) && key == inv.request.KeyOf() && IsClaim(w, b, inv.service, inv.request.digest)
    requires IsSafeTime(d.first) && IsSafeTime(f.first) && IsAnswer(w, outcome)
    requires Stands(After(w, run), i, inv.(pc := Dispatch(w, inv, b, d.first)), Some(b))
    requires end == Record(b.version + 2, inv.request.digest, if outcome.SubmitAccepted? then Accepted else Rejected, None,
                           b.attemptCount + 1, Some(d.first), None, Some(outcome.result), outcome.orderIdentifier,
                           b.evidence, f.first)
    ensures Ends(Dispatched(w, run, i, e, outcome, f, g), i, key,
                 Terminal(outcome.SubmitAccepted?, false, outcome.result, outcome.orderIdentifier), end)
  {
    DispatchAnswered(w, run, i, inv, b, d.first, e, outcome, f, g, key, end);
  }

  /** An authorised retry goes through in the same way: one attempt more, and the evidence so far is kept. */
  lemma RetryStoresTheAnswer(w: World, run: seq<Label>, service: Service, request: Request, b: Record, outcome: SubmitOutcome,
                             c: Clock, d: Clock, e: Clock, f: Clock, g: Clock)
    requires IsGoodRequest(w, request) && IsSha256Digest(request.digest) && CanLease(service, c.first, service.dispatchMs)
    requires Lookup(After(w, run), request.KeyOf()) == Some(b) && IsHeldClaim(b, service, request.digest, c.first)
    requires IsSafeTime(d.first) && IsSafeTime(f.first) && IsAnswer(w, outcome)
    ensures Ends(Dispatched(w, Asked(w, run, service, SubmitCall, request, c, d), |After(w, run).calls|, e, outcome, f, g),
                 |After(w, run).calls|, request.KeyOf(),
                 Terminal(outcome.SubmitAccepted?, false, outcome.result, outcome.orderIdentifier),
                 Record(b.version + 2, request.digest, if outcome.SubmitAccepted? then Accepted else Rejected, None,
                        b.attemptCount + 1, Some(d.first), None, Some(outcome.result), outcome.orderIdentifier,
                        b.evidence, f.first))
  {
    HeldIsDispatched(w, run, service, request, b, c, d);
    HeldAnswered(w, Asked(w, run, service, SubmitCall, request, c, d), |After(w, run).calls|,
                 Caller(service, SubmitCall, request, Begin), b, request.KeyOf(), outcome, d, e, f, g,
                 Record(b.version + 2, request.digest, if outcome.SubmitAccepted? then Accepted else Rejected, None,
                        b.attemptCount + 1, Some(d.first), None, Some(outcome.result), outcome.orderIdentifier,
                        b.evidence, f.first));
  }

  // ---------------------------------------------------------------- a key that has a record

  predicate IsLive(b: Record, now: int) {
    b.lease.Some? && b.lease.value.expiresAt > now
  }

  /** What `submit` reports on a record that it leaves alone. */
  predicate ReportsAs(b: Record, service: Service, digest: Text, now: int, result: ServiceResult) {
    if b.requestDigest != digest then result == KeyConflict
    else if b.state.Accepted? || b.state.Rejected? then
      b.upstreamResult.Some? && result == Terminal(b.state.Accepted?, true, b.upstreamResult.value, b.orderIdentifier)
    else if IsLive(b, now) && (b.phase == Some(Claimed) ==> b.lease.value.owner != service.ownerId) then
      result == InProgress(Some(b.lease.value.expiresAt))
    else b.state.Ambiguous? && result == Unknown(b.attemptCount)
  }

  lemma ReportIs(w: World, inv: Invocation, b: Record, now: int, d: Clock, result: ServiceResult)
    requires ValidRecord(w, b) && ReportsAs(b, inv.service, inv.request.digest, now, result)
    ensures AfterCreated(w, inv, b, now, d) == Done(result)
  {
    if b.requestDigest == inv.request.digest && !b.Terminal() {
      if b.state.Ambiguous? {
      } else if b.phase == Some(Started) {
      } else {
        assert b.phase.Some? && b.phase.value.Claimed?;
        assert AfterCreated(w, inv, b, now, d) == AfterClaimed(w, inv, b, now, d);
      }
    }
  }

  /** Busy, finished, ambiguous or conflicting keys are reported as what they are, and left alone. */
  lemma SubmitReports(w: World, run: seq<Label>, service: Service, request: Request, b: Record, c: Clock, d: Clock,
                      result: ServiceResult)
    requires IsGoodRequest(w, request) && IsSha256Digest(request.digest) && CanLease(service, c.first, service.dispatchMs)
    requires Lookup(After(w, run), request.KeyOf()) == Some(b) && ReportsAs(b, service, request.digest, c.first, result)
    ensures Ends(After(w, Asked(w, run, service, SubmitCall, request, c, d)), |After(w, run).calls|, request.KeyOf(), result, b)
  {
    StoredIsValid(w, run, request.KeyOf());
    ExistingIsFound(w, run, service, request, b, c, d);
    ReportIs(w, Caller(service, SubmitCall, request, Replied(Existing(b), SubmitCreated(c.first))), b, c.first, d, result);
  }

  function VersionOf(b: Record): Json {
    Obj([Entry(T("recordVersion"), Num(DecimalText(b.version)))])
  }

  /** The record after its lease ran out unanswered. */
  function Lapsed(w: World, b: Record, kind: EvidenceKind, now: int): Record {
    Record(b.version + 1, b.requestDigest, Ambiguous, None, b.attemptCount, b.lastDispatchStartedAt, None, None, None,
           b.evidence + [Proof(w, kind, now, VersionOf(b))], now)
  }

  lemma LapsedIs(w: World, b: Record, kind: EvidenceKind, now: int)
    requires ValidRecord(w, b) && b.attemptCount >= 1 && b.version < MAX_SAFE_INTEGER && IsProof(w, kind, now, VersionOf(b))
    ensures ToAmbiguous(w, b, kind, VersionIdentity(b), now) == Some(Lapsed(w, b, kind, now))
  {
  }

  /** A dispatch whose lease ran out is never repeated by `submit`: the record becomes ambiguous, with the evidence. */
  lemma SubmitExpires(w: World, run: seq<Label>, service: Service, request: Request, b: Record, c: Clock, d: Clock, e: Clock)
    requires IsGoodRequest(w, request) && IsSha256Digest(request.digest) && CanLease(service, c.first, service.dispatchMs)
    requires Lookup(After(w, run), request.KeyOf()) == Some(b) && b.requestDigest == request.digest
    requires b.phase == Some(Started) && !IsLive(b, c.first) && b.version < MAX_SAFE_INTEGER
    requires IsProof(w, DispatchLeaseExpired, c.first, VersionOf(b))
    ensures Ends(After(w, Asked(w, run, service, SubmitCall, request, c, d) + StoreTurn(|After(w, run).calls|, e)),
                 |After(w, run).calls|, request.KeyOf(), Unknown(b.attemptCount), Lapsed(w, b, DispatchLeaseExpired, c.first))
  {
    StoredIsValid(w, run, request.KeyOf());
    ExistingIsFound(w, run, service, request, b, c, d);
    LapsedIs(w, b, DispatchLeaseExpired, c.first);
    var at := Caller(service, SubmitCall, request, Replied(Existing(b), SubmitCreated(c.first)));
    ExpiryIsWritten(w, at, b, c.first, d);
    WritesAndEnds(w, Asked(w, run, service, SubmitCall, request, c, d), |After(w, run).calls|,
                  at.(pc := AfterCreated(w, at, b, c.first, d)), b, Lapsed(w, b, DispatchLeaseExpired, c.first),
                  SubmitExpired(b), e, Unknown(b.attemptCount));
  }

  lemma ExpiryIsWritten(w: World, inv: Invocation, b: Record, now: int, d: Clock)
    requires ValidRecord(w, b) && b.requestDigest == inv.request.digest && b.phase == Some(Started) && !IsLive(b, now)
    requires ToAmbiguous(w, b, DispatchLeaseExpired, VersionIdentity(b), now) == Some(Lapsed(w, b, DispatchLeaseExpired, now))
    ensures AfterCreated(w, inv, b, now, d)
            == AtStore(CompareAndSet(inv.request.KeyOf(), CompareExpectation(b), Lapsed(w, b, DispatchLeaseExpired, now)),
                       SubmitExpired(b))
  {
  }

  // ---------------------------------------------------------------- a claim that ran out

  /** The claim under a new lease of this service. */
  function Reclaimed(b: Record, service: Service, now: int): Record {
    Record(b.version + 1, b.requestDigest, Pending, Some(Claimed), b.attemptCount, b.lastDispatchStartedAt,
           Some(Lease(ForDispatch, service.ownerId, now, now + service.dispatchMs)), None, None, b.evidence, now)
  }

  lemma ReclaimIs(w: World, inv: Invocation, b: Record, now: int, d: Clock)
    requires ValidRecord(w, b) && b.requestDigest == inv.request.digest && b.phase == Some(Claimed) && !IsLive(b, now)
    requires CanLease(inv.service, now, inv.service.dispatchMs) && b.version + 3 <= MAX_SAFE_INTEGER
    ensures IsClaim(w, Reclaimed(b, inv.service, now), inv.service, inv.request.digest)
    ensures AfterCreated(w, inv, b, now, d)
            == AtStore(CompareAndSet(inv.request.KeyOf(), CompareExpectation(b), Reclaimed(b, inv.service, now)),
                       SubmitReclaimed(b))
  {
    var lease := Some(Lease(ForDispatch, inv.service.ownerId, now, now + inv.service.dispatchMs));
    assert RecordWith(w, b, Pending, Some(Claimed), lease, None, None, None, now) == Some(Reclaimed(b, inv.service, now));
  }

  lemma ClaimIsReclaimed(w: World, run: seq<Label>, service: Service, request: Request, b: Record, c: Clock, d: Clock, e: Clock)
    requires IsGoodRequest(w, request) && IsSha256Digest(request.digest) && CanLease(service, c.first, service.dispatchMs)
    requires Lookup(After(w, run), request.KeyOf()) == Some(b) && b.requestDigest == request.digest
    requires b.phase == Some(Claimed) && !IsLive(b, c.first) && b.version + 3 <= MAX_SAFE_INTEGER
    ensures IsClaim(w, Reclaimed(b, service, c.first), service, request.digest)
    ensures var inv := Caller(service, SubmitCall, request, Begin);
            Stands(After(w, Asked(w, run, service, SubmitCall, request, c, d) + StoreTurn(|After(w, run).calls|, e)),
                   |After(w, run).calls|, inv.(pc := Dispatch(w, inv, Reclaimed(b, service, c.first), e.first)),
                   Some(Reclaimed(b, service, c.first)))
  {
    var inv, n := Caller(service, SubmitCall, request, Begin), Reclaimed(b, service, c.first);
    var at := inv.(pc := Replied(Existing(b), SubmitCreated(c.first)));
    StoredIsValid(w, run, request.KeyOf());
    ExistingIsFound(w, run, service, request, b, c, d);
    ReclaimIs(w, at, b, c.first, d);
    Writes(w, Asked(w, run, service, SubmitCall, request, c, d), |After(w, run).calls|,
           at.(pc := AfterCreated(w, at, b, c.first, d)), b, n, SubmitReclaimed(b), e);
    DispatchFrame(w, inv, Replied(Updated(n), SubmitReclaimed(b)), n, e.first);
  }

  /** A claim that its owner never started is taken over after its lease, and goes through as if it were fresh. */
  lemma ReclaimStoresTheAnswer(w: World, run: seq<Label>, service: Service, request: Request, b: Record, outcome: SubmitOutcome,
                               c: Clock, d: Clock, e: Clock, f: Clock, g: Clock, h: Clock)
    requires IsGoodRequest(w, request) && IsSha256Digest(request.digest) && CanLease(service, c.first, service.dispatchMs)
    requires Lookup(After(w, run), request.KeyOf()) == Some(b) && b.requestDigest == request.digest
    requires b.phase == Some(Claimed) && !IsLive(b, c.first) && b.version + 3 <= MAX_SAFE_INTEGER
    requires IsSafeTime(e.first) && IsSafeTime(g.first) && IsAnswer(w, outcome)
    ensures Ends(Dispatched(w, Asked(w, run, service, SubmitCall, request, c, d) + StoreTurn(|After(w, run).calls|, e),
                            |After(w, run).calls|, f, outcome, g, h),
                 |After(w, run).calls|, request.KeyOf(),
                 Terminal(outcome.SubmitAccepted?, false, outcome.result, outcome.orderIdentifier),
                 Record(b.version + 3, request.digest, if outcome.SubmitAccepted? then Accepted else Rejected, None,
                        b.attemptCount + 1, Some(e.first), None, Some(outcome.result), outcome.orderIdentifier,
                        b.evidence, g.first))
  {
    ClaimIsReclaimed(w, run, service, request, b, c, d, e);
    HeldAnswered(w, Asked(w, run, service, SubmitCall, request, c, d) + StoreTurn(|After(w, run).calls|, e),
                 |After(w, run).calls|, Caller(service, SubmitCall, request, Begin), Reclaimed(b, service, c.first),
                 request.KeyOf(), outcome, e, f, g, h,
                 Record(b.version + 3, request.digest, if outcome.SubmitAccepted? then Accepted else Rejected, None,
                        b.attemptCount + 1, Some(e.first), None, Some(outcome.result), outcome.orderIdentifier,
                        b.evidence, g.first));
  }

  // ---------------------------------------------------------------- requests that are refused

  /** A malformed request, or one whose digest is not that of its content, is refused before anything is asked. */
  lemma OnlyGoodRequestsAreTaken(w: World, run: seq<Label>, service: Service, op: Operation, request: Request, c: Clock)
    ensures var s := After(w, run + [Arrive(service, op, request)] + [Begins(|After(w, run).calls|, c)]);
            && |After(w, run).calls| < |s.calls| && s.records == After(w, run).records && s.log == After(w, run).log
            && (s.calls[|After(w, run).calls|].pc == Done(InvalidRequest) <==> !IsGoodRequest(w, request))
  {
    var run1 := run + [Arrive(service, op, request)];
    Arrives(w, run, service, op, request);
    AfterLabel(w, run, Arrive(service, op, request));
    AfterLabel(w, run1, Begins(|After(w, run).calls|, c));
    OnlyGoodStart(w, Invocation(service, op, request, Begin, 0), c);
  }

  lemma OnlyGoodStart(w: World, inv: Invocation, c: Clock)
    ensures Start(w, inv, c) == Done(InvalidRequest) <==> !IsGoodRequest(w, inv.request)
  {
  }
}
