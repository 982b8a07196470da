/**
 The durable submission record and its compare-and-set repository
 (packages/gateway/src/submission-store.ts).
 */
module SubmissionStore {
  import opened Common
  import opened CanonicalJson

  datatype Key = Key(principalId: Text, upstreamProfileId: Text, clientRequestId: Text)

  datatype RecordState = Pending | Accepted | Rejected | Ambiguous

  datatype Phase = Claimed | Started

  datatype Purpose = ForDispatch | ForReconcile

  datatype Lease = Lease(purpose: Purpose, owner: Text, claimedAt: int, expiresAt: int)

  datatype UpstreamResult = UpstreamResult(
    schemaVersion: Text,
    statusCode: Text,
    mediaType: Option<Text>,
    decodedPayloadBase64: Text,
    decodedPayloadLength: Text,
    decodedPayloadDigest: Text)

  datatype EvidenceKind =
    | TransportUncertain
    | ContentDecodingFailed
    | CompareAndSetUncertain
    | FoundAccepted
    | FoundRejected
    | AbsenceProved
    | AbsenceUnproved
    | DispatchLeaseExpired
    | ReconcileLeaseExpired

  datatype Evidence = Evidence(kind: EvidenceKind, observedAt: int, digest: Text)

  datatype Record = Record(
    version: int,
    requestDigest: Text,
    state: RecordState,
    phase: Option<Phase>,
    attemptCount: int,
    lastDispatchStartedAt: Option<int>,
    lease: Option<Lease>,
    upstreamResult: Option<UpstreamResult>,
    orderIdentifier: Option<Text>,
    evidence: seq<Evidence>,
    updatedAt: int)
  {
    predicate Terminal() {
      state.Accepted? || state.Rejected?
    }
  }

  /**
   What the store and the service take from outside: the SHA-256 of a canonical request projection,
   the digest of an evidence identity, and the check of one decoded upstream payload. Every theorem
   holds for all of them.
   */
  datatype World = World(
    requestDigest: Json -> Text,
    evidenceDigest: (EvidenceKind, int, Json) -> Text,
    acceptsResult: UpstreamResult -> bool)

  predicate ValidKey(k: Key) {
    |k.principalId| > 0 && |k.upstreamProfileId| > 0 && 0 < |k.clientRequestId| <= 128
  }

  predicate ValidLease(l: Lease) {
    |l.owner| > 0 && IsSafeTime(l.claimedAt) && IsSafeTime(l.expiresAt) && l.claimedAt < l.expiresAt
  }

  predicate ValidEvidence(e: Evidence) {
    IsSafeTime(e.observedAt) && IsSha256Digest(e.digest)
  }

  /** `validateSubmissionRecord` accepts exactly these records. */
  predicate ValidRecord(w: World, r: Record) {
    && 1 <= r.version <= MAX_SAFE_INTEGER
    && IsSha256Digest(r.requestDigest)
    && 0 <= r.attemptCount <= 2
    && IsSafeTime(r.updatedAt)
    && (forall i | 0 <= i < |r.evidence| :: ValidEvidence(r.evidence[i]))
    && (r.lease.Some? ==> ValidLease(r.lease.value))
    && (r.upstreamResult.Some? ==> w.acceptsResult(r.upstreamResult.value))
    && (r.orderIdentifier.Some? ==> |r.orderIdentifier.value| > 0)
    && (if r.attemptCount == 0 then r.lastDispatchStartedAt.None?
        else r.lastDispatchStartedAt.Some? && IsSafeTime(r.lastDispatchStartedAt.value))
    && ValidShape(r)
  }

  /** The fields each state demands and forbids. */
  predicate ValidShape(r: Record) {
    match r.state
    case Pending =>
      && r.phase.Some?
      && r.lease.Some? && r.lease.value.purpose.ForDispatch?
      && r.upstreamResult.None?
      && (r.phase.value.Claimed? ==> r.attemptCount <= 1)
      && (r.phase.value.Started? ==> r.attemptCount >= 1)
    case Ambiguous =>
      && r.phase.None?
      && r.upstreamResult.None?
      && (r.lease.Some? ==> r.lease.value.purpose.ForReconcile?)
      && r.attemptCount >= 1
    case _ =>
      && r.phase.None?
      && r.lease.None?
      && r.upstreamResult.Some?
      && r.attemptCount >= 1
  }

  function CreateLease(purpose: Purpose, owner: Text, now: int, durationMs: int): Option<Lease> {
    if |owner| > 0 && IsSafeTime(now) && 1 <= durationMs <= MAX_SAFE_INTEGER
    then Some(Lease(purpose, owner, now, now + durationMs))
    else None
  }

  function CreateInitialRecord(w: World, digest: Text, owner: Text, now: int, durationMs: int): Option<Record> {
    var lease := CreateLease(ForDispatch, owner, now, durationMs);
    if lease.None? then None else
      var r := Record(1, digest, Pending, Some(Claimed), 0, None, lease, None, None, [], now);
      if ValidRecord(w, r) then Some(r) else None
  }

  function CreateEvidence(w: World, kind: EvidenceKind, observedAt: int, identity: Json): Option<Evidence> {
    var e := Evidence(kind, observedAt, w.evidenceDigest(kind, observedAt, identity));
    if ValidEvidence(e) then Some(e) else None
  }

  datatype Expectation = Expectation(
    version: int,
    state: RecordState,
    phase: Option<Phase>,
    lease: Option<(Purpose, Text)>)

  function CompareExpectation(r: Record): Expectation {
    Expectation(r.version, r.state, r.phase,
                if r.lease.None? then None else Some((r.lease.value.purpose, r.lease.value.owner)))
  }

  predicate ExpectationMatches(r: Record, e: Expectation) {
    && r.version == e.version
    && r.state == e.state
    && r.phase == e.phase
    && (|| (r.lease.None? && e.lease.None?)
        || (&& r.lease.Some? && e.lease.Some?
            && r.lease.value.purpose == e.lease.value.0
            && r.lease.value.owner == e.lease.value.1))
  }

  datatype StoreRequest =
    | CreateIfAbsent(key: Key, record: Record)
    | Read(key: Key)
    | CompareAndSet(key: Key, expected: Expectation, next: Record)

  datatype StoreReply =
    | Created(record: Record)
    | Existing(record: Record)
    | Found(found: Option<Record>)
    | Updated(record: Record)
    | NotUpdated(current: Option<Record>)
    | StoreThrew

  /** The reply to one repository call. */
  function Reply(w: World, records: map<Key, Record>, req: StoreRequest): StoreReply {
    if !ValidKey(req.key) then StoreThrew else
    match req
    case CreateIfAbsent(key, record) =>
      if key in records then Existing(records[key])
      else if ValidRecord(w, record) && record.version == 1 then Created(record)
      else StoreThrew
    case Read(key) =>
      Found(if key in records then Some(records[key]) else None)
    case CompareAndSet(key, expected, next) =>
      if key !in records then NotUpdated(None)
      else if !ExpectationMatches(records[key], expected) then NotUpdated(Some(records[key]))
      else if && ValidRecord(w, next)
              && next.version == records[key].version + 1
              && next.requestDigest == records[key].requestDigest
      then Updated(next)
      else StoreThrew
  }

  /** The stored map after one repository call: only `Created` and `Updated` write. */
  function Written(records: map<Key, Record>, key: Key, reply: StoreReply): map<Key, Record> {
    if reply.Created? || reply.Updated? then records[key := reply.record] else records
  }

  /** The in-memory repository. Its storage key is the canonical text of a validated key, which is injective. */
  class InMemorySubmissionRepository {
    const world: World
    var records: map<Key, Record>

    constructor (world: World)
      ensures this.world == world && records == map[]
    {
      this.world := world;
      records := map[];
    }

    method CreateIfAbsent(key: Key, record: Record) returns (reply: StoreReply)
      modifies this
      ensures reply == Reply(world, old(records), StoreRequest.CreateIfAbsent(key, record))
      ensures records == Written(old(records), key, reply)
    {
      if !ValidKey(key) {
        return StoreThrew;
      }
      if key in records {
        return Existing(records[key]);
      }
      if !ValidRecord(world, record) || record.version != 1 {
        return StoreThrew;
      }
      records := records[key := record];
      return Created(record);
    }

    method Read(key: Key) returns (reply: StoreReply)
      ensures reply == Reply(world, records, StoreRequest.Read(key))
    {
      if !ValidKey(key) {
        return StoreThrew;
      }
      if key in records {
        return Found(Some(records[key]));
      }
      return Found(None);
    }

    method CompareAndSet(key: Key, expected: Expectation, next: Record) returns (reply: StoreReply)
      modifies this
      ensures reply == Reply(world, old(records), StoreRequest.CompareAndSet(key, expected, next))
      ensures records == Written(old(records), key, reply)
    {
      if !ValidKey(key) {
        return StoreThrew;
      }
      if key !in records {
        return NotUpdated(None);
      }
      var current := records[key];
      if !ExpectationMatches(current, expected) {
        return NotUpdated(Some(current));
      }
      if !ValidRecord(world, next) || next.version != current.version + 1
         || next.requestDigest != current.requestDigest {
        return StoreThrew;
      }
      records := records[key := next];
      return Updated(next);
    }
  }
}
