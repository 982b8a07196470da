/** The hosted tool router as a client of admission leases (packages/gateway/src/router.ts). */
module Router {
  import opened Common
  import opened Controls

  datatype RouterError =
    | UnknownTool
    | ScopeDenied
    | CapabilityNotCallable
    | InvalidInput
    | RequestCancelled
    | DeadlineExceeded
    | BoundedWorkRejected
    | HandlerFailed

  datatype CallResult = Success | Failure(error: RouterError) | InventoryThrew

  /** Whether the request's signal has aborted and whether its deadline has passed, when the code looks. */
  datatype Moment = Moment(aborted: bool, late: bool)

  /** What the router learns before it asks for admission. */
  datatype CallInput = CallInput(
    toolKnown: bool, scopeAllowed: bool, inventoryValid: bool, callable: bool, inputValid: bool, grant: Grant)

  datatype HandlerEnd = Returned | ThrewCancellation | ThrewDeadline | ThrewOther

  /** Everything outside the router decides between admission and exit. */
  datatype Ending = Ending(before: Moment, handler: HandlerEnd, after: Moment)

  function Interrupted(m: Moment): Option<CallResult> {
    if m.aborted then Some(Failure(RequestCancelled))
    else if m.late then Some(Failure(DeadlineExceeded))
    else None
  }

  /** The exits before admission. */
  function Precheck(input: CallInput, m: Moment): Option<CallResult> {
    if !input.toolKnown then Some(Failure(UnknownTool))
    else if !input.scopeAllowed then Some(Failure(ScopeDenied))
    else if !input.inventoryValid then Some(InventoryThrew)
    else if !input.callable then Some(Failure(CapabilityNotCallable))
    else if !input.inputValid then Some(Failure(InvalidInput))
    else Interrupted(m)
  }

  /** The result of an admitted call. */
  function Outcome(e: Ending): CallResult {
    if Interrupted(e.before).Some? then Interrupted(e.before).value
    else
      match e.handler
      case ThrewCancellation => Failure(RequestCancelled)
      case ThrewDeadline => Failure(DeadlineExceeded)
      case ThrewOther => Failure(HandlerFailed)
      case Returned => if Interrupted(e.after).Some? then Interrupted(e.after).value else Success
  }

  /** The first check that fails decides the exit before admission. */
  lemma PrecheckIs(input: CallInput, m: Moment)
    ensures !input.toolKnown ==> Precheck(input, m) == Some(Failure(UnknownTool))
    ensures input.toolKnown && !input.scopeAllowed ==> Precheck(input, m) == Some(Failure(ScopeDenied))
    ensures input.toolKnown && input.scopeAllowed && !input.inventoryValid ==> Precheck(input, m) == Some(InventoryThrew)
    ensures input.toolKnown && input.scopeAllowed && input.inventoryValid && !input.callable
            ==> Precheck(input, m) == Some(Failure(CapabilityNotCallable))
    ensures input.toolKnown && input.scopeAllowed && input.inventoryValid && input.callable && !input.inputValid
            ==> Precheck(input, m) == Some(Failure(InvalidInput))
    ensures input.toolKnown && input.scopeAllowed && input.inventoryValid && input.callable && input.inputValid
            ==> Precheck(input, m) == if m.aborted then Some(Failure(RequestCancelled))
                                      else if m.late then Some(Failure(DeadlineExceeded)) else None
  {
  }

  /** An admitted call succeeds when the handler returned in time; otherwise the first thing that went wrong is reported. */
  lemma OutcomeIs(e: Ending)
    ensures Outcome(e).Success?
            <==> !e.before.aborted && !e.before.late && e.handler.Returned? && !e.after.aborted && !e.after.late
    ensures e.before.aborted ==> Outcome(e) == Failure(RequestCancelled)
    ensures !e.before.aborted && e.before.late ==> Outcome(e) == Failure(DeadlineExceeded)
    ensures !e.before.aborted && !e.before.late ==>
              && (e.handler.ThrewCancellation? ==> Outcome(e) == Failure(RequestCancelled))
              && (e.handler.ThrewDeadline? ==> Outcome(e) == Failure(DeadlineExceeded))
              && (e.handler.ThrewOther? ==> Outcome(e) == Failure(HandlerFailed))
              && (e.handler.Returned? && e.after.aborted ==> Outcome(e) == Failure(RequestCancelled))
              && (e.handler.Returned? && !e.after.aborted && e.after.late ==> Outcome(e) == Failure(DeadlineExceeded))
  {
  }

  /** One call that no other call interleaves with: whatever path it leaves by, its lease is released. */
  method Call(admission: WorkAdmissionController, input: CallInput, m: Moment, e: Ending) returns (result: CallResult)
    modifies admission
    ensures result ==
            if Precheck(input, m).Some? then Precheck(input, m).value
            else if AdmitWork(admission.config, old(admission.Snapshot()), input.grant).Refused? then Failure(BoundedWorkRejected)
            else Outcome(e)
    ensures result.Success? <==>
            && input.toolKnown && input.scopeAllowed && input.inventoryValid && input.callable && input.inputValid
            && !m.aborted && !m.late && AdmitWork(admission.config, old(admission.Snapshot()), input.grant).Admitted?
            && !e.before.aborted && !e.before.late && e.handler.Returned? && !e.after.aborted && !e.after.late
    ensures admission.Snapshot().global == old(admission.Snapshot()).global
    ensures admission.Snapshot().open == old(admission.Snapshot()).open
    ensures forall p: Text :: UsageOf(admission.Snapshot(), p) == UsageOf(old(admission.Snapshot()), p)
  {
    var early := Precheck(input, m);
    if early.Some? {
      return early.value;
    }
    ghost var was := admission.Snapshot();
    var lease, _ := admission.Admit(input.grant);
    if lease == null {
      return Failure(BoundedWorkRejected);
    }
    var interrupted := Interrupted(e.before);
    if interrupted.Some? {
      result := interrupted.value;
    } else {
      match e.handler {
        case ThrewCancellation => result := Failure(RequestCancelled);
        case ThrewDeadline => result := Failure(DeadlineExceeded);
        case ThrewOther => result := Failure(HandlerFailed);
        case Returned =>
          interrupted := Interrupted(e.after);
          result := if interrupted.Some? then interrupted.value else Success;
      }
    }
    ReleaseUndoesAdmit(admission.config, was, input.grant);
    lease.Release();
  }

  // ---------------------------------------------------------------- interleaved calls

  datatype Phase = Entered | Running(lease: nat) | Exited(result: CallResult)

  datatype RouterCall = RouterCall(input: CallInput, phase: Phase)

  datatype State = State(ledger: Ledger, calls: seq<RouterCall>)

  datatype Step =
    | Enter(input: CallInput)
    | Begin(i: nat, m: Moment)
    | End(i: nat, e: Ending)
    | ReleaseAgain(lease: nat)

  function ToPhase(s: State, i: nat, phase: Phase): seq<RouterCall>
    requires i < |s.calls|
  {
    s.calls[i := s.calls[i].(phase := phase)]
  }

  /**
   One atomic piece of one call: its arrival, the synchronous part up to the handler, or its exit through
   `finally`. A lease already released may be released again. A step that does not apply changes nothing.
   */
  function Next(config: Config, s: State, step: Step): State {
    match step
    case Enter(input) => s.(calls := s.calls + [RouterCall(input, Entered)])
    case Begin(i, m) =>
      if i < |s.calls| && s.calls[i].phase.Entered? then
        var input := s.calls[i].input;
        if Precheck(input, m).Some? then s.(calls := ToPhase(s, i, Exited(Precheck(input, m).value)))
        else if AdmitWork(config, s.ledger.usage, input.grant).Refused? then
          s.(calls := ToPhase(s, i, Exited(Failure(BoundedWorkRejected))))
        else State(AdmitStep(config, s.ledger, input.grant), ToPhase(s, i, Running(|s.ledger.leases|)))
      else s
    case End(i, e) =>
      if i < |s.calls| && s.calls[i].phase.Running? && s.calls[i].phase.lease < |s.ledger.leases| then
        State(ReleaseStep(s.ledger, s.calls[i].phase.lease), ToPhase(s, i, Exited(Outcome(e))))
      else s
    case ReleaseAgain(lease) =>
      if lease < |s.ledger.leases| && s.ledger.leases[lease].released then s.(ledger := ReleaseStep(s.ledger, lease)) else s
  }

  function After(config: Config, run: seq<Step>): State {
    if run == [] then State(Ledger(IDLE, []), [])
    else Next(config, After(config, run[..|run| - 1]), run[|run| - 1])
  }

  /** Live leases and running calls are the same things: each running call holds one, and no other lease is live. */
  ghost predicate LeasesAreCalls(s: State) {
    && (forall i | 0 <= i < |s.calls| && s.calls[i].phase.Running? ::
          && s.calls[i].phase.lease < |s.ledger.leases|
          && s.ledger.leases[s.calls[i].phase.lease] == Held(s.calls[i].input.grant, false))
    && (forall i, j | 0 <= i < j < |s.calls| && s.calls[i].phase.Running? && s.calls[j].phase.Running? ::
          s.calls[i].phase.lease != s.calls[j].phase.lease)
    && (forall k | 0 <= k < |s.ledger.leases| && !s.ledger.leases[k].released :: IsHeld(s, k))
  }

  predicate IsHeld(s: State, k: nat) {
    exists i | 0 <= i < |s.calls| :: s.calls[i].phase == Running(k)
  }

  ghost predicate Inv(config: Config, s: State) {
    Balanced(config, s.ledger) && LeasesAreCalls(s)
  }

  lemma HeldFrame(s: State, s': State, k: nat)
    requires IsHeld(s, k) && |s'.calls| >= |s.calls|
    requires forall i | 0 <= i < |s.calls| && s.calls[i].phase == Running(k) :: s'.calls[i].phase == Running(k)
    ensures IsHeld(s', k)
  {
    var i :| 0 <= i < |s.calls| && s.calls[i].phase == Running(k);
    assert s'.calls[i].phase == Running(k);
  }

  lemma BeginLeases(config: Config, s: State, s': State, i: nat, m: Moment)
    requires LeasesAreCalls(s) && i < |s.calls| && s.calls[i].phase.Entered? && s' == Next(config, s, Begin(i, m))
    ensures LeasesAreCalls(s')
  {
    forall k: nat | IsHeld(s, k) ensures IsHeld(s', k) { HeldFrame(s, s', k); }
    if s'.calls[i].phase.Running? {
      assert s'.calls[i].phase == Running(|s.ledger.leases|);
      assert IsHeld(s', |s.ledger.leases|);
    }
  }

  lemma BeginInv(config: Config, s: State, i: nat, m: Moment)
    requires Inv(config, s) && i < |s.calls| && s.calls[i].phase.Entered?
    ensures Inv(config, Next(config, s, Begin(i, m)))
  {
    AdmitKeepsBalance(config, s.ledger, s.calls[i].input.grant);
    BeginLeases(config, s, Next(config, s, Begin(i, m)), i, m);
  }

  lemma EndLeases(config: Config, s: State, s': State, i: nat, e: Ending)
    requires LeasesAreCalls(s) && i < |s.calls| && s.calls[i].phase.Running? && s' == Next(config, s, End(i, e))
    ensures LeasesAreCalls(s')
  {
    var lease := s.calls[i].phase.lease;
    forall k: nat | k != lease && IsHeld(s, k) ensures IsHeld(s', k) { HeldFrame(s, s', k); }
  }

  lemma EndInv(config: Config, s: State, i: nat, e: Ending)
    requires Inv(config, s) && i < |s.calls| && s.calls[i].phase.Running?
    ensures Inv(config, Next(config, s, End(i, e)))
  {
    ReleaseKeepsBalance(config, s.ledger, s.calls[i].phase.lease);
    EndLeases(config, s, Next(config, s, End(i, e)), i, e);
  }

  lemma StepInv(config: Config, s: State, step: Step)
    requires Inv(config, s)
    ensures Inv(config, Next(config, s, step))
  {
    match step
    case Enter(input) =>
      var s' := Next(config, s, step);
      forall k: nat | IsHeld(s, k) ensures IsHeld(s', k) { HeldFrame(s, s', k); }
    case Begin(i, m) =>
      if i < |s.calls| && s.calls[i].phase.Entered? { BeginInv(config, s, i, m); }
    case End(i, e) =>
      if i < |s.calls| && s.calls[i].phase.Running? { EndInv(config, s, i, e); }
    case ReleaseAgain(_) =>
  }

  lemma {:induction false} RunInv(config: Config, run: seq<Step>)
    requires ValidConfig(config)
    ensures Inv(config, After(config, run))
  {
    if run == [] {
      IdleBalanced(config);
    } else {
      RunInv(config, run[..|run| - 1]);
      StepInv(config, After(config, run[..|run| - 1]), run[|run| - 1]);
    }
  }

  // ---------------------------------------------------------------- what a run tells its callers

  predicate PassesChecks(input: CallInput) {
    input.toolKnown && input.scopeAllowed && input.inventoryValid && input.callable && input.inputValid
  }

  predicate IsChecked(c: RouterCall) {
    c.phase.Running? || c.phase == Exited(Success) ==> PassesChecks(c.input)
  }

  lemma StepIsChecked(config: Config, s: State, step: Step)
    requires forall i | 0 <= i < |s.calls| :: IsChecked(s.calls[i])
    ensures forall i | 0 <= i < |Next(config, s, step).calls| :: IsChecked(Next(config, s, step).calls[i])
  {
    var s' := Next(config, s, step);
    if step.Begin? && step.i < |s.calls| { PrecheckIs(s.calls[step.i].input, step.m); }
    forall i | 0 <= i < |s'.calls| ensures IsChecked(s'.calls[i]) {
      assert i < |s.calls| ==> IsChecked(s.calls[i]);
    }
  }

  /** In every interleaving, work is only done, and success only reported, for calls that pass every check. */
  lemma {:induction false} OnlyCheckedCallsRun(config: Config, run: seq<Step>)
    ensures forall i | 0 <= i < |After(config, run).calls| :: IsChecked(After(config, run).calls[i])
  {
    if run != [] {
      OnlyCheckedCallsRun(config, run[..|run| - 1]);
      StepIsChecked(config, After(config, run[..|run| - 1]), run[|run| - 1]);
    }
  }

  lemma AfterStep(config: Config, run: seq<Step>, step: Step)
    ensures After(config, run + [step]) == Next(config, After(config, run), step)
  {
    assert (run + [step])[..|run|] == run;
  }

  /** A call that arrives after any run, and is not interleaved, succeeds exactly under the conditions of `Call`. */
  lemma CallSucceedsExactly(config: Config, run: seq<Step>, input: CallInput, m: Moment, e: Ending, n: nat)
    requires n == |After(config, run).calls|
    ensures n < |After(config, run + [Enter(input)] + [Begin(n, m)] + [End(n, e)]).calls|
    ensures After(config, run + [Enter(input)] + [Begin(n, m)] + [End(n, e)]).calls[n].phase.Exited?
    ensures After(config, run + [Enter(input)] + [Begin(n, m)] + [End(n, e)]).calls[n].phase == Exited(Success)
            <==> && PassesChecks(input) && !m.aborted && !m.late
                 && AdmitWork(config, After(config, run).ledger.usage, input.grant).Admitted?
                 && !e.before.aborted && !e.before.late && e.handler.Returned? && !e.after.aborted && !e.after.late
  {
    var s := After(config, run);
    AfterStep(config, run, Enter(input));
    AfterStep(config, run + [Enter(input)], Begin(n, m));
    AfterStep(config, run + [Enter(input)] + [Begin(n, m)], End(n, e));
    CallFrom(config, s, input, m, e, n);
  }

  lemma CallFrom(config: Config, s: State, input: CallInput, m: Moment, e: Ending, n: nat)
    requires n == |s.calls|
    ensures var r := Next(config, Next(config, Next(config, s, Enter(input)), Begin(n, m)), End(n, e));
            && n < |r.calls| && r.calls[n].phase.Exited?
            && (r.calls[n].phase == Exited(Success)
                <==> && PassesChecks(input) && !m.aborted && !m.late
                     && AdmitWork(config, s.ledger.usage, input.grant).Admitted?
                     && !e.before.aborted && !e.before.late && e.handler.Returned? && !e.after.aborted && !e.after.late)
  {
    PrecheckIs(input, m);
    OutcomeIs(e);
    var s1 := Next(config, s, Enter(input));
    assert s1.calls[n] == RouterCall(input, Entered) && s1.ledger == s.ledger;
  }

  // ---------------------------------------------------------------- what every run keeps

  /** The cost, in one dimension, of the calls of one class that are between admission and `finally`. */
  function InFlight(calls: seq<RouterCall>, class': Class, d: Dimension): int {
    if calls == [] then 0
    else
      var c := calls[|calls| - 1];
      InFlight(calls[..|calls| - 1], class', d)
      + if c.phase.Running? then Share(Held(c.input.grant, false), class', d) else 0
  }

  /** After every run, usage is exactly the cost of the calls in flight, and every limit holds. */
  lemma UsageIsInFlight(config: Config, run: seq<Step>, p: Text, d: Dimension)
    requires ValidConfig(config)
    ensures var s := After(config, run);
            && At(s.ledger.usage.global, d) == InFlight(s.calls, AllWork, d)
            && At(s.ledger.usage.open, d) == InFlight(s.calls, PublicWork, d)
            && At(UsageOf(s.ledger.usage, p), d) == InFlight(s.calls, WorkOf(p), d)
            && Within(config, s.ledger.usage)
  {
    RunInv(config, run);
    LiveIsInFlight(config, run, AllWork, d);
    LiveIsInFlight(config, run, PublicWork, d);
    LiveIsInFlight(config, run, WorkOf(p), d);
    var s := After(config, run);
    assert Sums(s.ledger.usage.global, s.ledger.leases, AllWork);
    assert Sums(s.ledger.usage.open, s.ledger.leases, PublicWork);
    assert Sums(UsageOf(s.ledger.usage, p), s.ledger.leases, WorkOf(p));
  }

  lemma {:induction false} InFlightMove(calls: seq<RouterCall>, i: nat, phase: Phase, class': Class, d: Dimension)
    requires i < |calls|
    ensures var share := Share(Held(calls[i].input.grant, false), class', d);
            InFlight(calls[i := calls[i].(phase := phase)], class', d)
            == InFlight(calls, class', d) - (if calls[i].phase.Running? then share else 0) + (if phase.Running? then share else 0)
  {
    var moved, n := calls[i := calls[i].(phase := phase)], |calls| - 1;
    if i == n {
      assert moved[..n] == calls[..n];
    } else {
      InFlightMove(calls[..n], i, phase, class', d);
      assert moved[..n] == calls[..n][i := calls[i].(phase := phase)];
    }
  }

  ghost predicate Agrees(s: State, class': Class, d: Dimension) {
    Live(s.ledger.leases, class', d) == InFlight(s.calls, class', d)
  }

  lemma BeginAgrees(config: Config, s: State, i: nat, m: Moment, class': Class, d: Dimension)
    requires Agrees(s, class', d) && i < |s.calls| && s.calls[i].phase.Entered?
    ensures Agrees(Next(config, s, Begin(i, m)), class', d)
  {
    var s' := Next(config, s, Begin(i, m));
    InFlightMove(s.calls, i, s'.calls[i].phase, class', d);
    assert s'.calls == ToPhase(s, i, s'.calls[i].phase);
    AppendLive(s.ledger.leases, Held(s.calls[i].input.grant, false), class', d);
  }

  lemma EndAgrees(config: Config, s: State, i: nat, e: Ending, class': Class, d: Dimension)
    requires Agrees(s, class', d) && LeasesAreCalls(s) && i < |s.calls| && s.calls[i].phase.Running?
    ensures Agrees(Next(config, s, End(i, e)), class', d)
  {
    InFlightMove(s.calls, i, Exited(Outcome(e)), class', d);
    ReleaseLive(s.ledger.leases, s.calls[i].phase.lease, class', d);
  }

  lemma EnterAgrees(s: State, input: CallInput, class': Class, d: Dimension)
    requires Agrees(s, class', d)
    ensures Agrees(s.(calls := s.calls + [RouterCall(input, Entered)]), class', d)
  {
    assert (s.calls + [RouterCall(input, Entered)])[..|s.calls|] == s.calls;
  }

  lemma StepAgrees(config: Config, s: State, step: Step, class': Class, d: Dimension)
    requires Agrees(s, class', d) && LeasesAreCalls(s)
    ensures Agrees(Next(config, s, step), class', d)
  {
    match step
    case Enter(input) => EnterAgrees(s, input, class', d);
    case Begin(i, m) =>
      if i < |s.calls| && s.calls[i].phase.Entered? { BeginAgrees(config, s, i, m, class', d); }
    case End(i, e) =>
      if i < |s.calls| && s.calls[i].phase.Running? { EndAgrees(config, s, i, e, class', d); }
    case ReleaseAgain(_) =>
  }

  lemma {:induction false} LiveIsInFlight(config: Config, run: seq<Step>, class': Class, d: Dimension)
    requires ValidConfig(config)
    ensures Agrees(After(config, run), class', d)
  {
    if run != [] {
      LiveIsInFlight(config, run[..|run| - 1], class', d);
      RunInv(config, run[..|run| - 1]);
      StepAgrees(config, After(config, run[..|run| - 1]), run[|run| - 1], class', d);
    }
  }

  lemma ReleasedOrRunning(s: State, k: nat)
    requires LeasesAreCalls(s) && k < |s.ledger.leases|
    ensures s.ledger.leases[k].released || exists i | 0 <= i < |s.calls| :: s.calls[i].phase.Running?
  {
    if !s.ledger.leases[k].released {
      assert IsHeld(s, k);
      var i :| 0 <= i < |s.calls| && s.calls[i].phase == Running(k);
      assert s.calls[i].phase.Running?;
    }
  }

  /** Once every call has exited, by whatever path, the admission state is back to its first value. */
  lemma AllExitedIsIdle(config: Config, run: seq<Step>)
    requires ValidConfig(config)
    requires forall i | 0 <= i < |After(config, run).calls| :: !After(config, run).calls[i].phase.Running?
    ensures After(config, run).ledger.usage == IDLE
  {
    RunInv(config, run);
    var s := After(config, run);
    forall k | 0 <= k < |s.ledger.leases| ensures s.ledger.leases[k].released {
      ReleasedOrRunning(s, k);
    }
    AllReleasedIsIdle(config, s.ledger);
  }
}
