/**
 What an invocation reports when another one overtook it: the record it names in its compare-and-set is no longer the
 stored one. Results and records are spelled out field by field.
 */
module SubmissionRaces {
  import opened Common
  import opened SubmissionStore
  import opened Submission
  import opened SubmissionInvariant
  import opened SubmissionSteps
  import opened SubmissionProgress

  /** Invocation `i` waits for a compare-and-set that names a record other than the stored one, `r`. */
  predicate IsOvertaken(s: State, i: nat, r: Record) {
    && i < |s.calls| && s.calls[i].pc.AtStore? && s.calls[i].pc.request.CompareAndSet?
    && Lookup(s, s.calls[i].request.KeyOf()) == Some(r)
    && s.calls[i].pc.request.expected.version != r.version
  }

  /** The record that `after` goes with. */
  lemma OvertakenNames(w: World, run: seq<Label>, i: nat, r: Record, inv: Invocation)
    requires IsOvertaken(After(w, run), i, r) && inv == After(w, run).calls[i]
    ensures HasBase(inv.pc.after) && ValidKey(inv.request.KeyOf()) && inv.pc.request.key == inv.request.KeyOf()
    ensures inv.pc.request.expected == CompareExpectation(inv.pc.after.base)
    ensures ValidRecord(w, r) && ValidRecord(w, inv.pc.after.base) && inv.pc.after.base.version < r.version
    ensures inv.pc.after.DispatchTerminal? ==> inv.pc.after.base.phase == Some(Started)
  {
    RunInv(w, run);
    var s := After(w, run);
    assert CallOk(w, s.history, s.log, i, s.calls[i]);
    assert HistoryOk(w, s.history[inv.request.KeyOf()]);
  }

  lemma LosesStep(w: World, s: State, i: nat, inv: Invocation, b: Record, n: Record, after: Resumption, r: Record)
    requires Stands(s, i, inv, Some(r)) && ValidKey(inv.request.KeyOf()) && r.version != b.version
    requires inv.pc == AtStore(CompareAndSet(inv.request.KeyOf(), CompareExpectation(b), n), after)
    ensures Stands(Next(w, s, Serve(i)), i, inv.(pc := Replied(NotUpdated(Some(r)), after)), Some(r))
  {
    assert Reply(w, s.records, inv.pc.request) == NotUpdated(Some(r));
  }

  /** A write that loses changes nothing, and the code goes on with the record that it lost to. */
  lemma Loses(w: World, run: seq<Label>, i: nat, inv: Invocation, b: Record, n: Record, after: Resumption, r: Record, c: Clock)
    requires Stands(After(w, run), i, inv, Some(r)) && ValidKey(inv.request.KeyOf()) && r.version != b.version
    requires inv.pc == AtStore(CompareAndSet(inv.request.KeyOf(), CompareExpectation(b), n), after)
    ensures Stands(After(w, run + StoreTurn(i, c)), i,
                   inv.(pc := AfterNotUpdated(w, inv.request.KeyOf(), Some(r), after, c.first)), Some(r))
  {
    var s := After(w, run);
    var told := inv.(pc := Replied(NotUpdated(Some(r)), after));
    AfterTwo(w, run, Serve(i), Resumes(i, c));
    LosesStep(w, s, i, inv, b, n, after, r);
    ResumesStep(w, Next(w, s, Serve(i)), i, told, Some(r), c);
  }

  /** What is reported after the write that goes with `after` lost to `r`. */
  predicate ReportsLoss(after: Resumption, r: Record, result: ServiceResult)
    requires HasBase(after)
  {
    if after.SubmitReclaimed? || after.DispatchStarted? || after.ReconcileExpired? || after.ReconcileIdle?
       || after.ReconcileClaimed?
    then result == InProgress(if r.lease.Some? then Some(r.lease.value.expiresAt) else None)
    else result == Unknown(after.base.attemptCount)
  }

  lemma LossIs(w: World, key: Key, after: Resumption, r: Record, now: int, result: ServiceResult)
    requires HasBase(after) && !after.DispatchTerminal? && ReportsLoss(after, r, result)
    ensures AfterNotUpdated(w, key, Some(r), after, now) == Done(result)
  {
  }

  /**
   An overtaken write changes nothing. One that was to take the record over reports it as in progress; one that was to
   settle it reports that the outcome is unknown, with the attempts its own record counts.
   */
  lemma OvertakenReports(w: World, run: seq<Label>, i: nat, r: Record, c: Clock, result: ServiceResult, inv: Invocation)
    requires IsOvertaken(After(w, run), i, r) && inv == After(w, run).calls[i] && !inv.pc.after.DispatchTerminal?
    requires HasBase(inv.pc.after) && ReportsLoss(inv.pc.after, r, result)
    ensures Ends(After(w, run + StoreTurn(i, c)), i, inv.request.KeyOf(), result, r)
  {
    OvertakenNames(w, run, i, r, inv);
    Loses(w, run, i, inv, inv.pc.after.base, inv.pc.request.next, inv.pc.after, r, c);
    LossIs(w, inv.request.KeyOf(), inv.pc.after, r, c.first, result);
  }

  /** What a dispatcher that could not store the upstream's answer tries to store instead. */
  function Doubted(w: World, b: Record, now: int): Record {
    Record(b.version + 1, b.requestDigest, Ambiguous, None, b.attemptCount, b.lastDispatchStartedAt, None, None, None,
           b.evidence + [Proof(w, CompareAndSetUncertain, now, Named("terminal-compare-and-set-failed"))], now)
  }

  lemma DoubtIs(w: World, key: Key, b: Record, r: Record, now: int)
    requires ValidRecord(w, b) && b.phase == Some(Started) && b.version < MAX_SAFE_INTEGER
    requires IsProof(w, CompareAndSetUncertain, now, Named("terminal-compare-and-set-failed"))
    ensures AfterNotUpdated(w, key, Some(r), DispatchTerminal(b), now)
            == AtStore(CompareAndSet(key, CompareExpectation(b), Doubted(w, b, now)), AmbiguousStored(b))
  {
    var identity := Named("terminal-compare-and-set-failed");
    assert CreateEvidence(w, CompareAndSetUncertain, now, identity) == Some(Proof(w, CompareAndSetUncertain, now, identity));
    assert ToAmbiguous(w, b, CompareAndSetUncertain, identity, now) == Some(Doubted(w, b, now));
  }

  /**
   A dispatcher that was overtaken while the upstream answered does not store the answer. It asks to record its doubt
   instead, under the same superseded version, so that is not stored either; and it reports that the outcome is unknown.
   */
  lemma LateAnswerIsLost(w: World, run: seq<Label>, i: nat, r: Record, c: Clock, d: Clock, inv: Invocation, b: Record)
    requires IsOvertaken(After(w, run), i, r) && inv == After(w, run).calls[i] && inv.pc.after == DispatchTerminal(b)
    requires IsProof(w, CompareAndSetUncertain, c.first, Named("terminal-compare-and-set-failed"))
    ensures Stands(After(w, run + StoreTurn(i, c)), i,
                   inv.(pc := AtStore(CompareAndSet(inv.request.KeyOf(), CompareExpectation(b), Doubted(w, b, c.first)),
                                      AmbiguousStored(b))), Some(r))
    ensures Ends(After(w, run + StoreTurn(i, c) + StoreTurn(i, d)), i, inv.request.KeyOf(), Unknown(b.attemptCount), r)
  {
    OvertakenNames(w, run, i, r, inv);
    Loses(w, run, i, inv, b, inv.pc.request.next, inv.pc.after, r, c);
    DoubtIs(w, inv.request.KeyOf(), b, r, c.first);
    var doubts := inv.(pc := AtStore(CompareAndSet(inv.request.KeyOf(), CompareExpectation(b), Doubted(w, b, c.first)),
                                     AmbiguousStored(b)));
    Loses(w, run + StoreTurn(i, c), i, doubts, b, Doubted(w, b, c.first), AmbiguousStored(b), r, d);
    LossIs(w, inv.request.KeyOf(), AmbiguousStored(b), r, d.first, Unknown(b.attemptCount));
  }
}
