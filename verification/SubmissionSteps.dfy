/** Every step of the submission machine keeps the invariant. */
module SubmissionSteps {
  import opened Common
  import opened SubmissionStore
  import opened Submission
  import opened SubmissionInvariant

  lemma ExtendsSelf(H: Histories)
    ensures Extends(H, H)
  {
  }

  lemma CallsFrame(w: World, s: State, H': Histories, log': seq<Event>, i: nat)
    requires CallsInv(w, s) && i < |s.calls| && Extends(s.history, H') && s.log <= log'
    ensures CallOk(w, H', log', i, s.calls[i])
  {
    CallFrame(w, s.history, s.log, H', log', i, s.calls[i]);
  }

  /** Evidence found in the log stays found. */
  lemma AbsenceFrame(log: seq<Event>, log': seq<Event>, key: Key)
    requires AbsenceProvedIn(log, key) && log <= log'
    ensures AbsenceProvedIn(log', key)
  {
    var p :| 0 <= p < |log| && GrantsRetry(log[p], key);
    assert GrantsRetry(log'[p], key);
  }

  // ---------------------------------------------------------------- steps that do not touch the store

  /** An event the invocation `i` may add while it moves from `was` to its new position. */
  ghost predicate MayAdd(log: seq<Event>, i: nat, was: Invocation, e: Event) {
    match e
    case Stored(_, _) => false
    case SubmitIssued(caller, key, attempt, chainId, signedOrder) =>
      && caller == i && was.pc.SubmitReady?
      && key == was.request.KeyOf() && attempt == was.attempt
      && chainId == was.request.chainId && signedOrder == was.request.signedOrder
    case SubmitAnswered(caller, key, _) => SubmitIssuedBy(log, caller, key)
    case ReconcileIssued(_, _, _, _, _) => true
    case ReconcileAnswered(caller, key, _) => ReconcileIssuedBy(log, caller, key)
  }

  /** Invocation `i` moves to `pc`, adding at most one event. */
  ghost predicate LocalMove(s: State, i: nat, pc: Pc, added: seq<Event>) {
    && i < |s.calls| && |added| <= 1
    && var was, moved := s.calls[i], s.calls[i].(pc := pc);
       && (BeforeIssue(moved) ==> was.attempt == 0 || BeforeIssue(was))
       && (|added| == 1 ==> MayAdd(s.log, i, was, added[0]))
       && (|added| == 1 && added[0].SubmitIssued? ==> !BeforeIssue(moved) && was.attempt > 0)
  }

  lemma LocalCalls(w: World, s: State, i: nat, pc: Pc, added: seq<Event>)
    requires CallsInv(w, s) && i < |s.calls|
    requires CallOk(w, s.history, s.log + added, i, s.calls[i].(pc := pc))
    ensures CallsInv(w, At(s, i, pc).(log := s.log + added))
  {
    ExtendsSelf(s.history);
    forall j | 0 <= j < |s.calls| && j != i ensures CallOk(w, s.history, s.log + added, j, s.calls[j]) {
      CallsFrame(w, s, s.history, s.log + added, j);
    }
  }

  /** Invocations that keep their requests and attempts keep the attempt invariant. */
  lemma AttemptsFrame(w: World, s: State, s': State)
    requires AttemptsInv(w, s) && s'.records == s.records && s.log <= s'.log && |s'.calls| == |s.calls|
    requires forall j | 0 <= j < |s.calls| ::
               s'.calls[j].attempt == s.calls[j].attempt && s'.calls[j].request == s.calls[j].request
    ensures AttemptsInv(w, s')
  {
    forall key | AbsenceProvedIn(s.log, key) ensures AbsenceProvedIn(s'.log, key) {
      AbsenceFrame(s.log, s'.log, key);
    }
  }

  lemma ContentFrame(s: State, s': State)
    requires ContentInv(s) && s'.records == s.records && s.log <= s'.log
    ensures ContentInv(s')
  {
    forall key | AbsenceProvedIn(s.log, key) ensures AbsenceProvedIn(s'.log, key) {
      AbsenceFrame(s.log, s'.log, key);
    }
    forall key, r | Witnessed(s.log, key, r) ensures Witnessed(s'.log, key, r) {
      WitnessFrame(s.log, s'.log, key, r);
    }
  }

  lemma LocalIssued(s: State, i: nat, pc: Pc, added: seq<Event>, p: nat)
    requires LogInv(s) && LocalMove(s, i, pc, added)
    requires p < |s.log + added| && (s.log + added)[p].SubmitIssued?
    ensures IssuedOk(s.calls[i := s.calls[i].(pc := pc)], (s.log + added)[p])
  {
    if p < |s.log| { assert IssuedOk(s.calls, s.log[p]); }
  }

  /** An invocation that is about to issue has not issued before. */
  lemma IssuesOnce(s: State, i: nat, p: nat)
    requires LogInv(s) && i < |s.calls| && BeforeIssue(s.calls[i])
    requires p < |s.log| && s.log[p].SubmitIssued?
    ensures s.log[p].caller != i
  {
    assert IssuedOk(s.calls, s.log[p]);
  }

  /** One more event keeps the log in order, if it is in order itself. */
  lemma LogAppend(s: State, s': State, e: Event)
    requires LogInv(s) && s'.log == s.log + [e]
    requires forall p | 0 <= p < |s'.log| && s'.log[p].SubmitIssued? :: IssuedOk(s'.calls, s'.log[p])
    requires e.SubmitIssued? ==> e.attempt == 2 ==> AbsenceProvedIn(s.log, e.key)
    requires e.SubmitIssued? ==> forall p | 0 <= p < |s.log| && s.log[p].SubmitIssued? :: s.log[p].caller != e.caller
    requires e.SubmitAnswered? ==> SubmitIssuedBy(s.log, e.caller, e.key)
    requires e.ReconcileAnswered? ==> ReconcileIssuedBy(s.log, e.caller, e.key)
    ensures LogInv(s')
  {
    assert forall p | 0 <= p < |s.log| :: s'.log[p] == s.log[p] && s'.log[..p] == s.log[..p];
    assert s'.log[..|s.log|] == s.log && s'.log[|s.log|] == e;
  }

  lemma LocalLog(s: State, i: nat, pc: Pc, added: seq<Event>)
    requires LogInv(s) && LocalMove(s, i, pc, added)
    requires |added| == 1 && added[0].SubmitIssued? && added[0].attempt == 2 ==> AbsenceProvedIn(s.log, added[0].key)
    ensures LogInv(At(s, i, pc).(log := s.log + added))
  {
    var s' := At(s, i, pc).(log := s.log + added);
    forall p | 0 <= p < |s'.log| && s'.log[p].SubmitIssued? ensures IssuedOk(s'.calls, s'.log[p]) {
      LocalIssued(s, i, pc, added, p);
    }
    if added == [] {
      assert s'.log == s.log;
    } else {
      if added[0].SubmitIssued? {
        forall p | 0 <= p < |s.log| && s.log[p].SubmitIssued? ensures s.log[p].caller != i { IssuesOnce(s, i, p); }
      }
      assert added == [added[0]];
      LogAppend(s, s', added[0]);
    }
  }

  /** Only an attempt beyond the first needs the proof of absence, and holding one means having it. */
  lemma IssuesAfterProof(w: World, s: State, i: nat, pc: Pc, added: seq<Event>)
    requires AttemptsInv(w, s) && LocalMove(s, i, pc, added)
    ensures |added| == 1 && added[0].SubmitIssued? && added[0].attempt == 2 ==> AbsenceProvedIn(s.log, added[0].key)
  {
  }

  lemma LocalAttempts(w: World, s: State, i: nat, pc: Pc, log': seq<Event>)
    requires AttemptsInv(w, s) && ContentInv(s) && i < |s.calls| && s.log <= log'
    ensures AttemptsInv(w, At(s, i, pc).(log := log')) && ContentInv(At(s, i, pc).(log := log'))
  {
    AttemptsFrame(w, s, At(s, i, pc).(log := log'));
    ContentFrame(s, At(s, i, pc).(log := log'));
  }

  lemma LocalInv(w: World, s: State, i: nat, pc: Pc, added: seq<Event>)
    requires Inv(w, s) && LocalMove(s, i, pc, added)
    requires CallOk(w, s.history, s.log + added, i, s.calls[i].(pc := pc))
    ensures Inv(w, At(s, i, pc).(log := s.log + added))
  {
    LocalCalls(w, s, i, pc, added);
    LocalAttempts(w, s, i, pc, s.log + added);
    IssuesAfterProof(w, s, i, pc, added);
    LocalLog(s, i, pc, added);
  }

  // ---------------------------------------------------------------- steps of the store

  lemma ArriveLog(s: State, inv: Invocation)
    requires LogInv(s)
    ensures LogInv(s.(calls := s.calls + [inv]))
  {
    var calls' := s.calls + [inv];
    forall p | 0 <= p < |s.log| && s.log[p].SubmitIssued? ensures IssuedOk(calls', s.log[p]) {
      assert IssuedOk(s.calls, s.log[p]);
    }
  }

  lemma ArriveCalls(w: World, s: State, inv: Invocation)
    requires CallsInv(w, s) && inv.pc.Begin? && inv.attempt == 0
    ensures CallsInv(w, s.(calls := s.calls + [inv]))
  {
    var s' := s.(calls := s.calls + [inv]);
    forall j | 0 <= j < |s'.calls| ensures CallOk(w, s'.history, s'.log, j, s'.calls[j]) {
      if j < |s.calls| { assert s'.calls[j] == s.calls[j]; }
    }
  }

  lemma ArriveAttempts(w: World, s: State, inv: Invocation)
    requires AttemptsInv(w, s) && inv.attempt == 0
    ensures AttemptsInv(w, s.(calls := s.calls + [inv]))
  {
    assert forall j | 0 <= j < |s.calls| :: (s.calls + [inv])[j] == s.calls[j];
  }

  lemma ArriveInv(w: World, s: State, inv: Invocation)
    requires Inv(w, s) && inv.pc.Begin? && inv.attempt == 0
    ensures Inv(w, s.(calls := s.calls + [inv]))
  {
    ArriveLog(s, inv);
    ArriveCalls(w, s, inv);
    ArriveAttempts(w, s, inv);
  }

  /** The current record is the last of its history. */
  ghost predicate InHistoryLast(s: State, key: Key) {
    key in s.records ==> InHistory(s.history, key, s.records[key])
  }

  lemma CurrentInHistory(w: World, s: State, key: Key)
    requires StoreInv(w, s)
    ensures InHistoryLast(s, key)
    ensures key in s.records ==> ValidRecord(w, s.records[key])
  {
    if key in s.records {
      assert HistoryOk(w, s.history[key]);
    }
  }

  /** What a call that reads, loses or throws is told. */
  lemma ServedReply(w: World, s: State, i: nat)
    requires StoreInv(w, s) && i < |s.calls| && s.calls[i].pc.AtStore?
    requires CallOk(w, s.history, s.log, i, s.calls[i])
    requires var reply := Reply(w, s.records, s.calls[i].pc.request); !reply.Created? && !reply.Updated?
    ensures CallOk(w, s.history, s.log, i,
                   s.calls[i].(pc := Replied(Reply(w, s.records, s.calls[i].pc.request), s.calls[i].pc.after)))
  {
    CurrentInHistory(w, s, s.calls[i].pc.request.key);
  }

  /** A call that reads, loses or throws writes nothing. */
  lemma ServeWithoutWrite(w: World, s: State, i: nat)
    requires Inv(w, s) && i < |s.calls| && s.calls[i].pc.AtStore?
    requires var reply := Reply(w, s.records, s.calls[i].pc.request); !reply.Created? && !reply.Updated?
    ensures Inv(w, Served(w, s, i))
  {
    var inv := s.calls[i];
    var pc := Replied(Reply(w, s.records, inv.pc.request), inv.pc.after);
    ServedReply(w, s, i);
    assert s.log + [] == s.log;
    LocalInv(w, s, i, pc, []);
    assert Served(w, s, i) == At(s, i, pc).(log := s.log + []);
  }

  /** The call of invocation `i` is about to write `r` under its key. */
  ghost predicate Writing(w: World, s: State, i: nat, r: Record) {
    && i < |s.calls| && s.calls[i].pc.AtStore?
    && Reply(w, s.records, s.calls[i].pc.request) in {Created(r), Updated(r)}
  }

  /** A successful compare-and-set replaces exactly the record its caller held. */
  lemma SwapHitsBase(w: World, s: State, i: nat, r: Record)
    requires StoreInv(w, s) && i < |s.calls| && s.calls[i].pc.AtStore? && s.calls[i].pc.request.CompareAndSet?
    requires RequestOk(w, s.history, s.log, s.calls[i])
    requires Reply(w, s.records, s.calls[i].pc.request) == Updated(r)
    ensures var key := s.calls[i].pc.request.key;
            key in s.records && s.calls[i].pc.after.base == s.records[key] && r.version == |s.history[key]| + 1
  {
    var key := s.calls[i].pc.request.key;
    assert HistoryOk(w, s.history[key]);
    assert s.history[key][|s.history[key]| - 1].version == |s.history[key]|;
  }

  /** A write that creates a record stores a fresh one, where there was none. */
  lemma CreateIsFresh(w: World, s: State, i: nat, r: Record)
    requires Writing(w, s, i, r) && s.calls[i].pc.request.CreateIfAbsent? && RequestOk(w, s.history, s.log, s.calls[i])
    ensures ValidRecord(w, r) && Fresh(r) && s.calls[i].pc.request.key !in s.records && s.calls[i].pc.after.SubmitCreated?
  {
  }

  /** A write that replaces a record evolves the current one. */
  lemma SwapEvolves(w: World, s: State, i: nat, r: Record)
    requires StoreInv(w, s) && Writing(w, s, i, r)
    requires s.calls[i].pc.request.CompareAndSet? && RequestOk(w, s.history, s.log, s.calls[i])
    ensures var key := s.calls[i].pc.request.key;
            && ValidRecord(w, r) && key in s.records && s.calls[i].pc.after.base == s.records[key]
            && Evolves(s.records[key], r) && r.version == |s.history[key]| + 1
  {
    SwapHitsBase(w, s, i, r);
  }

  /** A write continues the history of its key: it creates it, or it evolves the current record. */
  lemma WriteEvolves(w: World, s: State, i: nat, r: Record)
    requires StoreInv(w, s) && CallsInv(w, s) && Writing(w, s, i, r)
    ensures var key := s.calls[i].pc.request.key;
            && ValidRecord(w, r)
            && key == s.calls[i].request.KeyOf()
            && (if key in s.records then Evolves(s.records[key], r) && r.version == |s.history[key]| + 1
                  && s.calls[i].pc.request.CompareAndSet? && s.calls[i].pc.after.base == s.records[key]
                else Fresh(r) && s.calls[i].pc.after.SubmitCreated?)
  {
    assert CallOk(w, s.history, s.log, i, s.calls[i]);
    if s.calls[i].pc.request.CompareAndSet? {
      SwapEvolves(w, s, i, r);
    } else {
      CreateIsFresh(w, s, i, r);
    }
  }

  /** What a write does to the state. */
  lemma WriteEffect(w: World, s: State, i: nat, r: Record)
    requires Writing(w, s, i, r)
    ensures var s', key, c := Served(w, s, i), s.calls[i].pc.request.key, s.calls[i];
            && s'.records == s.records[key := r]
            && s'.history == s.history[key := HistoryOf(s, key) + [r]]
            && s'.log == s.log + [Stored(key, r)]
            && |s'.calls| == |s.calls|
            && (forall j | 0 <= j < |s.calls| && j != i :: s'.calls[j] == s.calls[j])
            && s'.calls[i] == c.(pc := Replied(Reply(w, s.records, c.pc.request), c.pc.after),
                                 attempt := s'.calls[i].attempt)
            && (c.pc.request.CompareAndSet? && c.pc.after.DispatchStarted? && r.attemptCount >= 0
                ==> s'.calls[i].attempt == r.attemptCount)
            && (!c.pc.request.CompareAndSet? || !c.pc.after.DispatchStarted? ==> s'.calls[i].attempt == c.attempt)
  {
  }

  lemma HistoryAppend(w: World, h: seq<Record>, r: Record)
    requires ValidRecord(w, r) && r.version == |h| + 1
    requires if h == [] then Fresh(r) else HistoryOk(w, h) && Evolves(h[|h| - 1], r)
    ensures HistoryOk(w, h + [r])
  {
    var h' := h + [r];
    forall j | 0 < j < |h'| ensures Evolves(h'[j - 1], h'[j]) {
      if j < |h| { assert Evolves(h[j - 1], h[j]); }
    }
  }

  lemma AppendExtends(w: World, s: State, key: Key, r: Record)
    requires key in s.history ==> |s.history[key]| > 0 && !s.history[key][|s.history[key]| - 1].Terminal()
    ensures var H' := s.history[key := HistoryOf(s, key) + [r]];
            Extends(s.history, H') && (r.version == |HistoryOf(s, key)| + 1 ==> InHistory(H', key, r))
  {
  }

  lemma StoreAppend(w: World, s: State, s': State, key: Key, r: Record)
    requires StoreInv(w, s) && HistoryOk(w, HistoryOf(s, key) + [r])
    requires s'.records == s.records[key := r] && s'.history == s.history[key := HistoryOf(s, key) + [r]]
    ensures StoreInv(w, s')
  {
    forall k | k in s'.history
      ensures HistoryOk(w, s'.history[k]) && s'.records[k] == s'.history[k][|s'.history[k]| - 1]
    {
      if k != key { assert s'.history[k] == s.history[k]; }
    }
  }

  lemma WriteHistory(w: World, s: State, i: nat, r: Record)
    requires StoreInv(w, s) && CallsInv(w, s) && Writing(w, s, i, r)
    ensures StoreInv(w, Served(w, s, i)) && Extends(s.history, Served(w, s, i).history)
    ensures InHistory(Served(w, s, i).history, s.calls[i].request.KeyOf(), r)
  {
    WriteEvolves(w, s, i, r);
    WriteEffect(w, s, i, r);
    var key := s.calls[i].pc.request.key;
    ContinuesHistory(w, s, key, r);
    StoreAppend(w, s, Served(w, s, i), key, r);
    if key in s.history { assert HistoryOk(w, s.history[key]); }
    AppendExtends(w, s, key, r);
  }

  lemma ContinuesHistory(w: World, s: State, key: Key, r: Record)
    requires StoreInv(w, s) && ValidRecord(w, r)
    requires if key in s.records then Evolves(s.records[key], r) && r.version == |s.history[key]| + 1 else Fresh(r)
    ensures HistoryOk(w, HistoryOf(s, key) + [r])
  {
    if key in s.records { assert HistoryOk(w, s.history[key]); }
    HistoryAppend(w, HistoryOf(s, key), r);
  }

  lemma WriteCalls(w: World, s: State, i: nat, r: Record)
    requires Inv(w, s) && Writing(w, s, i, r)
    ensures CallsInv(w, Served(w, s, i))
  {
    WriteHistory(w, s, i, r);
    WriteEffect(w, s, i, r);
    var s' := Served(w, s, i);
    forall j | 0 <= j < |s'.calls| ensures CallOk(w, s'.history, s'.log, j, s'.calls[j]) {
      if j == i {
        WriterOk(w, s, i, r);
      } else {
        CallsFrame(w, s, s'.history, s'.log, j);
      }
    }
  }

  lemma WriterOk(w: World, s: State, i: nat, r: Record)
    requires CallsInv(w, s) && Writing(w, s, i, r)
    requires InHistory(Served(w, s, i).history, s.calls[i].request.KeyOf(), r)
    requires r.attemptCount >= 0
    ensures CallOk(w, Served(w, s, i).history, Served(w, s, i).log, i, Served(w, s, i).calls[i])
  {
    WriteEffect(w, s, i, r);
    assert CallOk(w, s.history, s.log, i, s.calls[i]);
  }

  lemma WriteLog(w: World, s: State, i: nat, r: Record)
    requires LogInv(s) && Writing(w, s, i, r)
    ensures LogInv(Served(w, s, i))
  {
    WriteEffect(w, s, i, r);
    var s' := Served(w, s, i);
    forall p | 0 <= p < |s'.log| && s'.log[p].SubmitIssued? ensures IssuedOk(s'.calls, s'.log[p]) {
      assert s'.log[p] == s.log[p];
      WriteIssued(w, s, i, r, p);
    }
    LogAppend(s, s', Stored(s.calls[i].pc.request.key, r));
  }

  lemma WriteIssued(w: World, s: State, i: nat, r: Record, p: nat)
    requires LogInv(s) && Writing(w, s, i, r) && p < |s.log| && s.log[p].SubmitIssued?
    ensures IssuedOk(Served(w, s, i).calls, s.log[p])
  {
    WriteEffect(w, s, i, r);
    assert IssuedOk(s.calls, s.log[p]);
  }

  /** A record past its first attempt was reached through a stored grant. */
  lemma WriteGrant(w: World, s: State, i: nat, r: Record)
    requires Inv(w, s) && Writing(w, s, i, r) && BeyondFirstAttempt(r)
    ensures AbsenceProvedIn(Served(w, s, i).log, s.calls[i].pc.request.key)
  {
    WriteEvolves(w, s, i, r);
    WriteEffect(w, s, i, r);
    var key, log' := s.calls[i].pc.request.key, Served(w, s, i).log;
    assert log'[|s.log|] == Stored(key, r);
    if r.phase == Some(Claimed) && s.records[key].phase != Some(Claimed) {
      assert GrantsRetry(log'[|s.log|], key);
    } else {
      assert BeyondFirstAttempt(s.records[key]);
      AbsenceFrame(s.log, log', key);
    }
  }

  lemma WriteContent(w: World, s: State, i: nat, r: Record)
    requires Inv(w, s) && Writing(w, s, i, r)
    ensures ContentInv(Served(w, s, i))
  {
    WriteEffect(w, s, i, r);
    if BeyondFirstAttempt(r) { WriteGrant(w, s, i, r); }
    if r.Terminal() { WriteWitness(w, s, i, r); }
    ContentAppend(s, Served(w, s, i), s.calls[i].pc.request.key, r);
  }

  lemma ContentAppend(s: State, s': State, key: Key, r: Record)
    requires ContentInv(s) && s'.records == s.records[key := r] && s.log <= s'.log
    requires r.Terminal() ==> Witnessed(s'.log, key, r)
    requires BeyondFirstAttempt(r) ==> AbsenceProvedIn(s'.log, key)
    ensures ContentInv(s')
  {
    forall k | k in s'.records && k != key
      ensures && (s'.records[k].Terminal() ==> Witnessed(s'.log, k, s'.records[k]))
              && (BeyondFirstAttempt(s'.records[k]) ==> AbsenceProvedIn(s'.log, k))
    {
      assert s'.records[k] == s.records[k];
      if s.records[k].Terminal() { WitnessFrame(s.log, s'.log, k, s.records[k]); }
      if BeyondFirstAttempt(s.records[k]) { AbsenceFrame(s.log, s'.log, k); }
    }
  }

  /** A terminal write was already witnessed when its compare-and-set was issued. */
  lemma WriteWitness(w: World, s: State, i: nat, r: Record)
    requires StoreInv(w, s) && CallsInv(w, s) && Writing(w, s, i, r) && r.Terminal()
    ensures Witnessed(Served(w, s, i).log, s.calls[i].pc.request.key, r)
  {
    WriteEvolves(w, s, i, r);
    WriteEffect(w, s, i, r);
    assert CallOk(w, s.history, s.log, i, s.calls[i]);
    WitnessFrame(s.log, Served(w, s, i).log, s.calls[i].pc.request.key, r);
  }

  lemma WriteAttempts(w: World, s: State, i: nat, r: Record)
    requires Inv(w, s) && Writing(w, s, i, r)
    ensures AttemptsInv(w, Served(w, s, i))
  {
    WriteEvolves(w, s, i, r);
    WriteEffect(w, s, i, r);
    if BeyondFirstAttempt(r) { WriteGrant(w, s, i, r); }
    WriterAttempt(w, s, i, r);
    AttemptsAppend(w, s, Served(w, s, i), i, s.calls[i].pc.request.key, r);
  }

  lemma AttemptsAppend(w: World, s: State, s': State, i: nat, key: Key, r: Record)
    requires AttemptsInv(w, s) && i < |s.calls| && key == s.calls[i].request.KeyOf()
    requires s'.records == s.records[key := r] && s.log <= s'.log && |s'.calls| == |s.calls|
    requires key in s.records ==> r.attemptCount >= s.records[key].attemptCount && r.requestDigest == s.records[key].requestDigest
    requires BeyondFirstAttempt(r) ==> AbsenceProvedIn(s'.log, key)
    requires forall j | 0 <= j < |s.calls| && j != i :: s'.calls[j] == s.calls[j]
    requires s'.calls[i].request == s.calls[i].request
    requires r.attemptCount <= 2 && TakesAttempt(w, s, s'.calls[i], r, s.calls[i].attempt)
    ensures AttemptsInv(w, s')
  {
    forall k | AbsenceProvedIn(s.log, k) ensures AbsenceProvedIn(s'.log, k) { AbsenceFrame(s.log, s'.log, k); }
  }

  /** An attempt number the writer keeps, or one above every number taken so far. */
  predicate TakesAttempt(w: World, s: State, c: Invocation, r: Record, before: nat) {
    c.attempt > 0 ==>
      && ValidRequest(w, c.request) && c.request.digest == r.requestDigest && c.attempt <= r.attemptCount
      && (c.attempt == before
          || (c.request.KeyOf() in s.records && c.attempt > s.records[c.request.KeyOf()].attemptCount
              && c.attempt == r.attemptCount))
  }

  /** The invocation that durably starts a dispatch takes an attempt number nobody holds. */
  lemma WriterAttempt(w: World, s: State, i: nat, r: Record)
    requires Inv(w, s) && Writing(w, s, i, r)
    ensures TakesAttempt(w, s, Served(w, s, i).calls[i], r, s.calls[i].attempt)
  {
    WriteEvolves(w, s, i, r);
    WriteEffect(w, s, i, r);
    var c := s.calls[i];
    assert CallOk(w, s.history, s.log, i, c);
    if c.pc.request.CompareAndSet? && c.pc.after.DispatchStarted? {
      StartTakesNext(w, s, i, r);
    } else {
      assert Served(w, s, i).calls[i].attempt == c.attempt;
    }
  }

  lemma StartTakesNext(w: World, s: State, i: nat, r: Record)
    requires Writing(w, s, i, r) && s.calls[i].pc.request.CompareAndSet? && s.calls[i].pc.after.DispatchStarted?
    requires ValidRequest(w, s.calls[i].request) && RequestOk(w, s.history, s.log, s.calls[i])
    requires s.calls[i].pc.request.key in s.records && Evolves(s.records[s.calls[i].pc.request.key], r)
    requires s.calls[i].pc.after.base == s.records[s.calls[i].pc.request.key] && ValidRecord(w, r)
    ensures TakesAttempt(w, s, Served(w, s, i).calls[i], r, s.calls[i].attempt)
  {
    WriteEffect(w, s, i, r);
  }

  lemma ServeInv(w: World, s: State, i: nat)
    requires Inv(w, s) && i < |s.calls| && s.calls[i].pc.AtStore?
    ensures Inv(w, Served(w, s, i))
  {
    var reply := Reply(w, s.records, s.calls[i].pc.request);
    if reply.Created? || reply.Updated? {
      WriteHistory(w, s, i, reply.record);
      WriteCalls(w, s, i, reply.record);
      WriteLog(w, s, i, reply.record);
      WriteContent(w, s, i, reply.record);
      WriteAttempts(w, s, i, reply.record);
    } else {
      ServeWithoutWrite(w, s, i);
    }
  }

  // ---------------------------------------------------------------- every step

  lemma StepInv(w: World, s: State, step: Label)
    requires Inv(w, s)
    ensures Inv(w, Next(w, s, step))
  {
    match step
    case Arrive(service, op, request) => ArriveInv(w, s, Invocation(service, op, request, Begin, 0));
    case Begins(i, clock) => BeginsInv(w, s, i, clock);
    case Serve(i) => if i < |s.calls| && s.calls[i].pc.AtStore? { ServeInv(w, s, i); }
    case Resumes(i, clock) => ResumesInv(w, s, i, clock);
    case Issue(i) => IssueInv(w, s, i);
    case AnswerSubmit(i, outcome, clock) => AnswerSubmitInv(w, s, i, outcome, clock);
    case AnswerReconcile(i, found, clock) => AnswerReconcileInv(w, s, i, found, clock);
    case Crash(i) => if i < |s.calls| { QuietStep(w, s, i, Crashed); }
  }

  lemma BeginsInv(w: World, s: State, i: nat, clock: Clock)
    requires Inv(w, s)
    ensures Inv(w, Next(w, s, Begins(i, clock)))
  {
    if i < |s.calls| && s.calls[i].pc.Begin? {
      StartOk(w, s.history, s.log, i, s.calls[i], clock);
      QuietStep(w, s, i, Start(w, s.calls[i], clock));
    }
  }

  lemma ResumesInv(w: World, s: State, i: nat, clock: Clock)
    requires Inv(w, s)
    ensures Inv(w, Next(w, s, Resumes(i, clock)))
  {
    if i < |s.calls| && s.calls[i].pc.Replied? {
      assert CallOk(w, s.history, s.log, i, s.calls[i]);
      ResumeOk(w, s.history, s.log, i, s.calls[i], clock);
      ResumeStays(w, s.history, s.calls[i], clock);
      QuietStep(w, s, i, Resume(w, s.calls[i], s.calls[i].pc.reply, s.calls[i].pc.after, clock));
    }
  }

  lemma AnswerSubmitInv(w: World, s: State, i: nat, outcome: SubmitOutcome, clock: Clock)
    requires Inv(w, s)
    ensures Inv(w, Next(w, s, AnswerSubmit(i, outcome, clock)))
  {
    if i < |s.calls| && s.calls[i].pc.SubmitAwait? {
      var c := s.calls[i];
      SubmitAnswerInv(w, s, i, c, outcome, clock, AfterSubmit(w, c.request.KeyOf(), c.pc.started, outcome, clock));
    }
  }

  /** An answer to a call that was issued may be added, by an invocation that does not submit again. */
  lemma AnswerMoves(s: State, i: nat, pc: Pc, e: Event)
    requires i < |s.calls| && !BeforeIssue(s.calls[i].(pc := pc))
    requires (e.SubmitAnswered? || e.ReconcileAnswered?) && MayAdd(s.log, i, s.calls[i], e)
    ensures LocalMove(s, i, pc, [e])
  {
  }

  lemma SubmitAnswerInv(w: World, s: State, i: nat, c: Invocation, outcome: SubmitOutcome, clock: Clock, pc: Pc)
    requires Inv(w, s) && i < |s.calls| && c == s.calls[i] && c.pc.SubmitAwait?
    requires pc == AfterSubmit(w, c.request.KeyOf(), c.pc.started, outcome, clock)
    ensures Inv(w, At(s, i, pc).(log := s.log + [SubmitAnswered(i, c.request.KeyOf(), outcome)]))
  {
    assert CallOk(w, s.history, s.log, i, c);
    AfterSubmitOk(w, s.history, s.log, i, c, outcome, clock);
    AnswerEndsSubmission(w, c, c.pc.started, outcome, clock);
    AnswerMoves(s, i, pc, SubmitAnswered(i, c.request.KeyOf(), outcome));
    LocalInv(w, s, i, pc, [SubmitAnswered(i, c.request.KeyOf(), outcome)]);
  }

  lemma AnswerReconcileInv(w: World, s: State, i: nat, found: ReconcileOutcome, clock: Clock)
    requires Inv(w, s)
    ensures Inv(w, Next(w, s, AnswerReconcile(i, found, clock)))
  {
    if i < |s.calls| && s.calls[i].pc.ReconcileAwait? {
      var c := s.calls[i];
      ReconcileAnswerInv(w, s, i, c, found, clock, AfterReconcile(w, c, c.pc.owned, found, clock));
    }
  }

  lemma ReconcileAnswerInv(w: World, s: State, i: nat, c: Invocation, found: ReconcileOutcome, clock: Clock, pc: Pc)
    requires Inv(w, s) && i < |s.calls| && c == s.calls[i] && c.pc.ReconcileAwait?
    requires pc == AfterReconcile(w, c, c.pc.owned, found, clock)
    ensures Inv(w, At(s, i, pc).(log := s.log + [ReconcileAnswered(i, c.request.KeyOf(), found)]))
  {
    assert CallOk(w, s.history, s.log, i, c);
    AfterReconcileOk(w, s.history, s.log, i, c, found, clock);
    ReconcileNeverSubmits(w, c, c.pc.owned, found, clock);
    AnswerMoves(s, i, pc, ReconcileAnswered(i, c.request.KeyOf(), found));
    LocalInv(w, s, i, pc, [ReconcileAnswered(i, c.request.KeyOf(), found)]);
  }

  lemma QuietStep(w: World, s: State, i: nat, pc: Pc)
    requires Inv(w, s) && i < |s.calls| && CallOk(w, s.history, s.log, i, s.calls[i].(pc := pc))
    requires BeforeIssue(s.calls[i].(pc := pc)) ==> s.calls[i].attempt == 0 || BeforeIssue(s.calls[i])
    ensures Inv(w, At(s, i, pc))
  {
    assert s.log + [] == s.log;
    LocalInv(w, s, i, pc, []);
    assert At(s, i, pc) == At(s, i, pc).(log := s.log + []);
  }

  lemma SubmitAwaits(w: World, H: Histories, log: seq<Event>, log': seq<Event>, i: nat, c: Invocation, e: Event)
    requires c.pc.SubmitReady? && CallOk(w, H, log, i, c)
    requires e.SubmitIssued? && e.caller == i && e.key == c.request.KeyOf() && log' == log + [e]
    ensures CallOk(w, H, log', i, c.(pc := SubmitAwait(c.pc.started)))
  {
    assert log'[|log|] == e;
  }

  lemma ReconcileAwaits(w: World, H: Histories, log: seq<Event>, log': seq<Event>, i: nat, c: Invocation, e: Event)
    requires c.pc.ReconcileReady? && CallOk(w, H, log, i, c)
    requires e.ReconcileIssued? && e.caller == i && e.key == c.request.KeyOf() && log' == log + [e]
    ensures CallOk(w, H, log', i, c.(pc := ReconcileAwait(c.pc.owned)))
  {
    assert log'[|log|] == e;
  }

  /** A durable start has a positive attempt number, and the invocation that made it holds that number. */
  lemma ReadyHoldsAttempt(w: World, H: Histories, log: seq<Event>, i: nat, c: Invocation)
    requires c.pc.SubmitReady? && CallOk(w, H, log, i, c) && HistoriesOk(w, H)
    ensures c.attempt > 0
  {
    InHistoryValid(w, H, c.request.KeyOf(), c.pc.started);
  }

  lemma IssueInv(w: World, s: State, i: nat)
    requires Inv(w, s)
    ensures Inv(w, Next(w, s, Issue(i)))
  {
    if i < |s.calls| && s.calls[i].pc.SubmitReady? {
      var c := s.calls[i];
      IssueSubmitInv(w, s, i, c, SubmitIssued(i, c.request.KeyOf(), c.attempt, c.request.chainId, c.request.signedOrder));
    } else if i < |s.calls| && s.calls[i].pc.ReconcileReady? {
      var c := s.calls[i];
      IssueReconcileInv(w, s, i, c,
        ReconcileIssued(i, c.request.KeyOf(), c.pc.owned.attemptCount, c.request.chainId, c.request.signedOrder));
    }
  }

  lemma IssueSubmitInv(w: World, s: State, i: nat, c: Invocation, e: Event)
    requires Inv(w, s) && i < |s.calls| && c == s.calls[i] && c.pc.SubmitReady?
    requires e == SubmitIssued(i, c.request.KeyOf(), c.attempt, c.request.chainId, c.request.signedOrder)
    ensures Inv(w, At(s, i, SubmitAwait(c.pc.started)).(log := s.log + [e]))
  {
    assert CallOk(w, s.history, s.log, i, c);
    ReadyHoldsAttempt(w, s.history, s.log, i, c);
    SubmitAwaits(w, s.history, s.log, s.log + [e], i, c, e);
    LocalInv(w, s, i, SubmitAwait(c.pc.started), [e]);
  }

  lemma IssueReconcileInv(w: World, s: State, i: nat, c: Invocation, e: Event)
    requires Inv(w, s) && i < |s.calls| && c == s.calls[i] && c.pc.ReconcileReady?
    requires e.ReconcileIssued? && e.caller == i && e.key == c.request.KeyOf()
    ensures Inv(w, At(s, i, ReconcileAwait(c.pc.owned)).(log := s.log + [e]))
  {
    assert CallOk(w, s.history, s.log, i, c);
    ReconcileAwaits(w, s.history, s.log, s.log + [e], i, c, e);
    LocalInv(w, s, i, ReconcileAwait(c.pc.owned), [e]);
  }

  /** The invariant holds after every run. */
  lemma {:induction false} RunInv(w: World, run: seq<Label>)
    ensures Inv(w, After(w, run))
  {
    if run != [] {
      RunInv(w, run[..|run| - 1]);
      StepInv(w, After(w, run[..|run| - 1]), run[|run| - 1]);
    }
  }
}
