/** What holds of durable submission after every run, for every world, clock, crash and interleaving. */
module SubmissionTheorems {
  import opened Common
  import opened CanonicalJson
  import opened SubmissionStore
  import opened Submission
  import opened SubmissionInvariant
  import opened SubmissionSteps

  // ---------------------------------------------------------------- at most two upstream submissions

  function IssuedCount(log: seq<Event>, key: Key): nat {
    if log == [] then 0
    else IssuedCount(log[..|log| - 1], key)
         + if log[|log| - 1].SubmitIssued? && log[|log| - 1].key == key then 1 else 0
  }

  function IssuedAttempts(log: seq<Event>, key: Key): (attempts: set<nat>) {
    set p | 0 <= p < |log| && log[p].SubmitIssued? && log[p].key == key :: log[p].attempt
  }

  ghost predicate DistinctAttempts(log: seq<Event>, key: Key) {
    forall p, q | 0 <= p < q < |log| && log[p].SubmitIssued? && log[q].SubmitIssued?
                  && log[p].key == key && log[q].key == key :: log[p].attempt != log[q].attempt
  }

  /** The last event adds a new attempt if it is a submission, and nothing otherwise. */
  lemma LastAttempt(log: seq<Event>, init: seq<Event>, e: Event, key: Key)
    requires log == init + [e] && DistinctAttempts(log, key)
    ensures e.SubmitIssued? && e.key == key ==>
              && IssuedAttempts(log, key) == IssuedAttempts(init, key) + {e.attempt}
              && e.attempt !in IssuedAttempts(init, key)
    ensures !(e.SubmitIssued? && e.key == key) ==> IssuedAttempts(log, key) == IssuedAttempts(init, key)
  {
    assert log[|init|] == e && forall p | 0 <= p < |init| :: log[p] == init[p];
  }

  lemma {:induction false} CountIsAttempts(log: seq<Event>, key: Key)
    requires DistinctAttempts(log, key)
    ensures IssuedCount(log, key) == |IssuedAttempts(log, key)|
  {
    if log != [] {
      var init, e := log[..|log| - 1], log[|log| - 1];
      CountIsAttempts(init, key);
      LastAttempt(log, init, e, key);
    }
  }

  lemma {:induction false} SmallSet(attempts: set<nat>, n: nat)
    requires forall a | a in attempts :: 1 <= a <= n
    ensures |attempts| <= n
  {
    if n == 0 {
      assert attempts == {};
    } else {
      SmallSet(attempts - {n}, n - 1);
    }
  }

  /** Two upstream submissions under one key always belong to different durable attempts. */
  lemma AttemptsAreDistinct(w: World, run: seq<Label>, key: Key)
    ensures DistinctAttempts(After(w, run).log, key)
  {
    RunInv(w, run);
    var s := After(w, run);
    forall p, q | 0 <= p < q < |s.log| && s.log[p].SubmitIssued? && s.log[q].SubmitIssued?
                  && s.log[p].key == key && s.log[q].key == key
      ensures s.log[p].attempt != s.log[q].attempt
    {
      assert IssuedOk(s.calls, s.log[p]) && IssuedOk(s.calls, s.log[q]);
      var i, j := s.log[p].caller, s.log[q].caller;
      assert i < j || j < i;
    }
  }

  /** The upstream is asked to submit at most `attemptCount` times under one key, and never more than twice. */
  lemma AtMostTwoSubmissions(w: World, run: seq<Label>, key: Key)
    ensures var s := After(w, run);
            var n := IssuedCount(s.log, key);
            && n <= 2
            && (key in s.records ==> n <= s.records[key].attemptCount)
            && (key !in s.records ==> n == 0)
  {
    var s := After(w, run);
    RunInv(w, run);
    CurrentInHistory(w, s, key);
    AttemptsAreDistinct(w, run, key);
    CountIsAttempts(s.log, key);
    var bound := if key in s.records then s.records[key].attemptCount else 0;
    forall p | 0 <= p < |s.log| && s.log[p].SubmitIssued? && s.log[p].key == key
      ensures 1 <= s.log[p].attempt <= bound
    {
      assert IssuedOk(s.calls, s.log[p]);
    }
    SmallSet(IssuedAttempts(s.log, key), bound);
  }

  /**
   A submission beyond the first attempt is preceded, in the log, by the durable write of a record that
   granted the retry: absence was proved while the attempt count was one.
   */
  lemma RetryNeedsProvedAbsence(w: World, run: seq<Label>, q: nat)
    requires q < |After(w, run).log| && After(w, run).log[q].SubmitIssued?
    ensures var log := After(w, run).log;
            && 1 <= log[q].attempt <= 2
            && (log[q].attempt == 2 ==> exists p | 0 <= p < q :: GrantsRetry(log[p], log[q].key))
  {
    RunInv(w, run);
    var s := After(w, run);
    assert IssuedOk(s.calls, s.log[q]);
    CurrentInHistory(w, s, s.log[q].key);
    if s.log[q].attempt == 2 {
      var p :| 0 <= p < q && GrantsRetry(s.log[..q][p], s.log[q].key);
      assert GrantsRetry(s.log[p], s.log[q].key);
    }
  }

  /**
   Whenever the upstream is called a second time for one key, a record that grants the retry had been stored before
   that call. The submission of the first attempt may be the later of the two: its caller may have stalled.
   */
  lemma TwoSubmissionsNeedOneGrant(w: World, run: seq<Label>, key: Key, p: nat, q: nat)
    requires p < q < |After(w, run).log|
    requires After(w, run).log[p].SubmitIssued? && After(w, run).log[p].key == key
    requires After(w, run).log[q].SubmitIssued? && After(w, run).log[q].key == key
    ensures exists g | 0 <= g < q :: GrantsRetry(After(w, run).log[g], key)
  {
    AttemptsAreDistinct(w, run, key);
    RetryNeedsProvedAbsence(w, run, p);
    RetryNeedsProvedAbsence(w, run, q);
  }

  // ---------------------------------------------------------------- one order per key

  /**
   Every upstream submission under one key carries the profile and request id of the key and a chain id and
   order whose projection has the stored request digest. Two submissions can differ only on a digest collision.
   */
  lemma SubmissionsAgree(w: World, run: seq<Label>, p: nat, q: nat)
    requires var log := After(w, run).log;
             && p < |log| && q < |log| && log[p].SubmitIssued? && log[q].SubmitIssued? && log[p].key == log[q].key
    ensures var log := After(w, run).log;
            var profile := log[p].key.upstreamProfileId;
            && log[p].key in After(w, run).records
            && w.requestDigest(RequestProjection(SCHEMA_VERSION, profile, log[p].chainId, log[p].signedOrder))
               == After(w, run).records[log[p].key].requestDigest
            && w.requestDigest(RequestProjection(SCHEMA_VERSION, profile, log[p].chainId, log[p].signedOrder))
               == w.requestDigest(RequestProjection(SCHEMA_VERSION, profile, log[q].chainId, log[q].signedOrder))
  {
    RunInv(w, run);
    var s := After(w, run);
    assert IssuedOk(s.calls, s.log[p]) && IssuedOk(s.calls, s.log[q]);
  }

  /** Equal projections are equal orders: the digest covers the whole chain id and signed order. */
  lemma ProjectionInjective(profile: Text, chainId: Text, order: Json, chainId': Text, order': Json)
    ensures RequestProjection(SCHEMA_VERSION, profile, chainId, order) == RequestProjection(SCHEMA_VERSION, profile, chainId', order')
            ==> chainId == chainId' && order == order'
  {
    var a, b := RequestProjection(SCHEMA_VERSION, profile, chainId, order), RequestProjection(SCHEMA_VERSION, profile, chainId', order');
    if a == b {
      assert a.entries[2] == b.entries[2] && a.entries[3] == b.entries[3];
    }
  }

  // ---------------------------------------------------------------- the record over time

  /** Between two points of a run, the histories only grow, and stop at a terminal record. */
  lemma {:induction false} RunExtends(w: World, run: seq<Label>, more: seq<Label>)
    ensures Extends(After(w, run).history, After(w, run + more).history)
    ensures After(w, run).log <= After(w, run + more).log
  {
    if more == [] {
      assert run + more == run;
    } else {
      var init, last := more[..|more| - 1], more[|more| - 1];
      RunExtends(w, run, init);
      assert run + more == (run + init) + [last];
      StepAfter(w, run + init, run + more, last);
      ExtendsTransitive(After(w, run).history, After(w, run + init).history, After(w, run + more).history);
    }
  }

  lemma StepAfter(w: World, run: seq<Label>, longer: seq<Label>, step: Label)
    requires longer == run + [step]
    ensures Extends(After(w, run).history, After(w, longer).history) && After(w, run).log <= After(w, longer).log
  {
    RunInv(w, run);
    assert longer[..|longer| - 1] == run;
    StepExtends(w, After(w, run), step);
  }

  lemma StepExtends(w: World, s: State, step: Label)
    requires Inv(w, s)
    ensures Extends(s.history, Next(w, s, step).history) && s.log <= Next(w, s, step).log
  {
    LogGrows(w, s, step);
    HistoryGrows(w, s, step);
  }

  lemma LogGrows(w: World, s: State, step: Label)
    ensures s.log <= Next(w, s, step).log
  {
  }

  lemma HistoryGrows(w: World, s: State, step: Label)
    requires StoreInv(w, s) && CallsInv(w, s)
    ensures Extends(s.history, Next(w, s, step).history)
  {
    if step.Serve? && step.i < |s.calls| && s.calls[step.i].pc.AtStore? {
      ServeGrows(w, s, step.i);
    } else {
      HistoryIsKept(w, s, step);
      SameExtends(s.history, Next(w, s, step).history);
    }
  }

  lemma SameExtends(H: Histories, H': Histories)
    requires H' == H
    ensures Extends(H, H')
  {
    ExtendsSelf(H);
  }

  lemma ServeGrows(w: World, s: State, i: nat)
    requires StoreInv(w, s) && CallsInv(w, s) && i < |s.calls| && s.calls[i].pc.AtStore?
    ensures Extends(s.history, Served(w, s, i).history)
  {
    var reply := Reply(w, s.records, s.calls[i].pc.request);
    if reply.Created? || reply.Updated? {
      WriteHistory(w, s, i, reply.record);
    } else {
      ExtendsSelf(s.history);
    }
  }

  lemma HistoryIsKept(w: World, s: State, step: Label)
    requires !(step.Serve? && step.i < |s.calls| && s.calls[step.i].pc.AtStore?)
    ensures Next(w, s, step).history == s.history
  {
  }

  lemma ExtendsTransitive(H: Histories, H': Histories, H'': Histories)
    requires Extends(H, H') && Extends(H', H'')
    ensures Extends(H, H'')
  {
    forall k | k in H
      ensures && k in H'' && |H[k]| <= |H''[k]| && H''[k][..|H[k]|] == H[k]
              && (|H[k]| > 0 && H[k][|H[k]| - 1].Terminal() ==> H''[k] == H[k])
    {
      assert H''[k][..|H[k]|] == H''[k][..|H'[k]|][..|H[k]|];
    }
  }

  predicate IsTip(h: seq<Record>, r: Record) {
    |h| > 0 && r == h[|h| - 1]
  }

  /** The current record is the last of its history. */
  lemma TipOfHistory(w: World, run: seq<Label>, key: Key)
    ensures key in After(w, run).records <==> key in After(w, run).history
    ensures key in After(w, run).history ==> IsTip(After(w, run).history[key], After(w, run).records[key])
  {
    RunInv(w, run);
    if key in After(w, run).history { assert HistoryOk(w, After(w, run).history[key]); }
  }

  /** Once a key is accepted or rejected its record never changes again. */
  lemma TerminalNeverChanges(w: World, run: seq<Label>, more: seq<Label>, key: Key)
    requires key in After(w, run).records && After(w, run).records[key].Terminal()
    ensures key in After(w, run + more).records
    ensures After(w, run + more).records[key] == After(w, run).records[key]
  {
    TipOfHistory(w, run, key);
    TipOfHistory(w, run + more, key);
    RunExtends(w, run, more);
    TerminalTipStays(After(w, run).history, After(w, run + more).history, key, After(w, run).records[key]);
  }

  lemma TerminalTipStays(H: Histories, H': Histories, key: Key, r: Record)
    requires Extends(H, H') && key in H && IsTip(H[key], r) && r.Terminal()
    ensures key in H' && H'[key] == H[key]
  {
  }

  /** Each record is well formed, versions count the writes, and each write is one of the permitted moves. */
  lemma HistoryIsWellFormed(w: World, run: seq<Label>, key: Key)
    requires key in After(w, run).records
    ensures key in After(w, run).history && HistoryOk(w, After(w, run).history[key])
    ensures After(w, run).records[key].version == |After(w, run).history[key]|
  {
    RunInv(w, run);
    assert HistoryOk(w, After(w, run).history[key]);
  }

  /** `sha256:` and 64 lower-case hexadecimal digits. */
  predicate IsDigestText(t: Text) {
    && |t| == 71 && t[..7] == [0x73, 0x68, 0x61, 0x32, 0x35, 0x36, 0x3a]
    && forall i | 7 <= i < 71 :: 0x30 <= t[i] <= 0x39 || 0x61 <= t[i] <= 0x66
  }

  predicate IsTime(n: int) {
    0 <= n <= 0x1F_FFFF_FFFF_FFFF
  }

  /** What the fields of a record hold, and which of them its state has. */
  predicate IsSound(w: World, r: Record) {
    && 1 <= r.version <= 0x1F_FFFF_FFFF_FFFF && IsDigestText(r.requestDigest) && IsTime(r.updatedAt)
    && (forall i | 0 <= i < |r.evidence| :: IsTime(r.evidence[i].observedAt) && IsDigestText(r.evidence[i].digest))
    && (r.lease.Some? ==> |r.lease.value.owner| > 0 && 0 <= r.lease.value.claimedAt < r.lease.value.expiresAt
                          && IsTime(r.lease.value.expiresAt))
    && (r.upstreamResult.Some? ==> w.acceptsResult(r.upstreamResult.value))
    && r.orderIdentifier != Some([])
    && (r.upstreamResult.Some? <==> r.state.Accepted? || r.state.Rejected?)
    && (r.phase.Some? <==> r.state.Pending?)
    && (r.state.Pending? ==> r.lease.Some? && r.lease.value.purpose.ForDispatch?)
    && (r.state.Ambiguous? && r.lease.Some? ==> r.lease.value.purpose.ForReconcile?)
    && (r.state.Accepted? || r.state.Rejected? ==> r.lease.None?)
    && (if r.phase == Some(Claimed) then 0 <= r.attemptCount <= 1 else 1 <= r.attemptCount <= 2)
    && (if r.attemptCount == 0 then r.lastDispatchStartedAt.None?
        else r.lastDispatchStartedAt.Some? && IsTime(r.lastDispatchStartedAt.value))
  }

  lemma DigestTextIs(t: Text)
    ensures IsSha256Digest(t) <==> IsDigestText(t)
  {
    var name := T("sha256:");
    assert |name| == 7 && name == [0x73, 0x68, 0x61, 0x32, 0x35, 0x36, 0x3a];
  }

  /** The validator accepts exactly the sound records. */
  lemma ValidRecordIs(w: World, r: Record)
    ensures ValidRecord(w, r) <==> IsSound(w, r)
  {
    DigestTextIs(r.requestDigest);
    forall i | 0 <= i < |r.evidence| ensures IsSha256Digest(r.evidence[i].digest) <==> IsDigestText(r.evidence[i].digest) {
      DigestTextIs(r.evidence[i].digest);
    }
    assert r.phase.Some? ==> r.phase.value.Claimed? || r.phase.value.Started?;
  }

  /** Every record that was ever stored is sound, and says in its version how many were stored before it. */
  lemma StoredRecordsAreSound(w: World, run: seq<Label>, key: Key, i: nat)
    requires key in After(w, run).history && i < |After(w, run).history[key]|
    ensures IsSound(w, After(w, run).history[key][i]) && After(w, run).history[key][i].version == i + 1
  {
    RunInv(w, run);
    assert HistoryOk(w, After(w, run).history[key]);
    ValidRecordIs(w, After(w, run).history[key][i]);
  }

  /** Along a history the digest is constant, the evidence is only appended to, and attempts never fall. */
  lemma {:induction false} HistoryIsMonotone(w: World, h: seq<Record>, i: nat, j: nat)
    requires HistoryOk(w, h) && i <= j < |h|
    ensures h[i].requestDigest == h[j].requestDigest
    ensures h[i].evidence <= h[j].evidence
    ensures h[i].attemptCount <= h[j].attemptCount
    decreases j - i
  {
    if i < j {
      HistoryIsMonotone(w, h, i, j - 1);
      EvolvesMonotone(w, h, j);
    }
  }

  lemma EvolvesMonotone(w: World, h: seq<Record>, j: nat)
    requires HistoryOk(w, h) && 0 < j < |h|
    ensures Evolves(h[j - 1], h[j]) && h[j - 1].evidence <= h[j].evidence
  {
    assert Evolves(h[j - 1], h[j]);
    assert h[j - 1].evidence == h[j].evidence[..|h[j - 1].evidence|];
  }

  /** The number of durable starts among the first records of a history. */
  function StartsIn(h: seq<Record>): nat {
    if h == [] then 0
    else StartsIn(h[..|h| - 1]) + if h[|h| - 1].phase == Some(Started) then 1 else 0
  }

  /** The attempt count is exactly the number of durable starts stored so far, so it rises nowhere else. */
  lemma {:induction false} AttemptsCountDurableStarts(w: World, h: seq<Record>, j: nat)
    requires HistoryOk(w, h) && j < |h|
    ensures h[j].attemptCount == StartsIn(h[..j + 1])
  {
    assert h[..j + 1][..j] == h[..j];
    if j > 0 {
      AttemptsCountDurableStarts(w, h, j - 1);
      EvolvesMonotone(w, h, j);
    } else {
      assert h[..0] == [];
    }
  }

  /**
   Every compare-and-set waiting at the store was built by the owner of the lease it replaces, or after that
   lease had run out on the writer's clock; and against the record it names it makes a permitted move.
   */
  lemma WritersRespectLeases(w: World, run: seq<Label>, i: nat)
    requires var calls := After(w, run).calls;
             i < |calls| && calls[i].pc.AtStore? && calls[i].pc.request.CompareAndSet?
    ensures var c := After(w, run).calls[i];
            && HasBase(c.pc.after)
            && InHistory(After(w, run).history, c.request.KeyOf(), c.pc.after.base)
            && c.pc.request.expected == CompareExpectation(c.pc.after.base)
            && LeaseAllows(c.pc.after.base, c.pc.request.next, c.service.ownerId)
            && Evolves(c.pc.after.base, c.pc.request.next)
  {
    RunInv(w, run);
    var s := After(w, run);
    assert CallOk(w, s.history, s.log, i, s.calls[i]);
  }

  /** A compare-and-set built on `b` meets `r` exactly when the two agree on version, state, phase, and the lease's owner. */
  lemma ExpectationMeans(b: Record, r: Record)
    ensures ExpectationMatches(r, CompareExpectation(b))
            <==> && b.version == r.version && b.state == r.state && b.phase == r.phase
                 && (b.lease.Some? <==> r.lease.Some?)
                 && (b.lease.Some? ==> b.lease.value.owner == r.lease.value.owner
                                       && b.lease.value.purpose == r.lease.value.purpose)
  {
  }

  /** A writer that holds a superseded version can never change the record, now or later in the run. */
  lemma SupersededWriterIsFenced(w: World, run: seq<Label>, more: seq<Label>, key: Key, expected: Expectation, next: Record)
    requires key in After(w, run).records && expected.version < After(w, run).records[key].version
    ensures var records := After(w, run + more).records;
            && key in records && expected.version < records[key].version
            && Reply(w, records, CompareAndSet(key, expected, next)) in {StoreThrew, NotUpdated(Some(records[key]))}
  {
    HistoryIsWellFormed(w, run, key);
    RunExtends(w, run, more);
    RunInv(w, run + more);
    HistoryIsWellFormed(w, run + more, key);
  }

  // ---------------------------------------------------------------- terminal results

  /**
   The stored terminal content was returned by an upstream submit or reconcile call that the service had
   issued under this key before the answer.
   */
  lemma TerminalContentIsUpstream(w: World, run: seq<Label>, key: Key)
    requires key in After(w, run).records && After(w, run).records[key].Terminal()
    ensures var log := After(w, run).log;
            exists p | 0 <= p < |log| ::
              && Answers(log[p], key, After(w, run).records[key])
              && (SubmitIssuedBy(log[..p], log[p].caller, key) || ReconcileIssuedBy(log[..p], log[p].caller, key))
  {
    RunInv(w, run);
    var s := After(w, run);
    var p :| 0 <= p < |s.log| && Answers(s.log[p], key, s.records[key]);
    assert s.log[p].SubmitAnswered? || s.log[p].ReconcileAnswered?;
  }

  /** What a caller was told is what is stored, for the rest of the run. */
  lemma TerminalResultIsStored(w: World, run: seq<Label>, i: nat)
    requires var calls := After(w, run).calls;
             i < |calls| && calls[i].pc.Done? && calls[i].pc.result.Terminal?
    ensures var s := After(w, run);
            var key, result := s.calls[i].request.KeyOf(), s.calls[i].pc.result;
            && key in s.records && s.records[key].Terminal()
            && s.records[key].state.Accepted? == result.accepted
            && s.records[key].upstreamResult == Some(result.result)
            && s.records[key].orderIdentifier == result.orderIdentifier
  {
    RunInv(w, run);
    var s := After(w, run);
    assert CallOk(w, s.history, s.log, i, s.calls[i]);
    assert HistoryOk(w, s.history[s.calls[i].request.KeyOf()]);
  }

  /** Two terminal results returned for one key agree, even if the first was returned long before, to a caller since gone. */
  lemma TerminalResultsAgree(w: World, run: seq<Label>, more: seq<Label>, i: nat, j: nat)
    requires i < |After(w, run).calls| && j < |After(w, run + more).calls|
    requires After(w, run).calls[i].request.KeyOf() == After(w, run + more).calls[j].request.KeyOf()
    requires After(w, run).calls[i].pc.Done? && After(w, run).calls[i].pc.result.Terminal?
    requires After(w, run + more).calls[j].pc.Done? && After(w, run + more).calls[j].pc.result.Terminal?
    ensures After(w, run).calls[i].pc.result.(replayed := true) == After(w, run + more).calls[j].pc.result.(replayed := true)
  {
    TerminalResultIsStored(w, run, i);
    TerminalNeverChanges(w, run, more, After(w, run).calls[i].request.KeyOf());
    TerminalResultIsStored(w, run + more, j);
  }

  /** Invocation `i` starts, has its repository call served, and resumes. */
  function ThreeSteps(w: World, s: State, i: nat, clock: Clock, later: Clock): State {
    Next(w, Next(w, Next(w, s, Begins(i, clock)), Serve(i)), Resumes(i, later))
  }

  /**
   A caller that resubmits the same request to a finished key gets the stored bytes back: nothing is written,
   and the upstream is not called.
   */
  lemma FinishedKeyReplays(w: World, run: seq<Label>, i: nat, r: Record, clock: Clock, later: Clock)
    requires var s := After(w, run);
             && i < |s.calls| && s.calls[i].pc.Begin? && s.calls[i].op.SubmitCall? && ValidRequest(w, s.calls[i].request)
             && s.calls[i].request.KeyOf() in s.records && s.records[s.calls[i].request.KeyOf()] == r
             && r.Terminal() && r.requestDigest == s.calls[i].request.digest
    requires Start(w, After(w, run).calls[i], clock).AtStore?
    ensures r.upstreamResult.Some?
    ensures ThreeSteps(w, After(w, run), i, clock, later)
            == At(After(w, run), i, Done(Terminal(r.state.Accepted?, true, r.upstreamResult.value, r.orderIdentifier)))
  {
    RunInv(w, run);
    var s := After(w, run);
    CurrentInHistory(w, s, s.calls[i].request.KeyOf());
    ReplaysStored(w, s, i, r, clock, later);
  }

  lemma ReplaysStored(w: World, s: State, i: nat, r: Record, clock: Clock, later: Clock)
    requires i < |s.calls| && s.calls[i].pc.Begin? && s.calls[i].op.SubmitCall? && ValidRequest(w, s.calls[i].request)
    requires s.calls[i].request.KeyOf() in s.records && s.records[s.calls[i].request.KeyOf()] == r && ValidRecord(w, r)
    requires r.Terminal() && r.requestDigest == s.calls[i].request.digest && Start(w, s.calls[i], clock).AtStore?
    ensures r.upstreamResult.Some?
    ensures ThreeSteps(w, s, i, clock, later)
            == At(s, i, Done(Terminal(r.state.Accepted?, true, r.upstreamResult.value, r.orderIdentifier)))
  {
    var pc := Start(w, s.calls[i], clock);
    var s1 := At(s, i, pc);
    assert Next(w, s, Begins(i, clock)) == s1;
    assert Reply(w, s1.records, pc.request) == Existing(r);
    var s2 := At(s, i, Replied(Existing(r), pc.after));
    assert Next(w, s1, Serve(i)) == s2 by { assert s2.calls == s1.calls[i := s2.calls[i]]; }
    var done := Replay(r, true);
    assert Resume(w, s2.calls[i], Existing(r), pc.after, later) == done;
    assert Next(w, s2, Resumes(i, later)) == At(s2, i, done);
    assert At(s2, i, done).calls == At(s, i, done).calls;
  }
}
