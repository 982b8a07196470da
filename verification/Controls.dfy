/** Weighted work admission (packages/gateway/src/controls.ts). */
module Controls {
  import opened Common

  datatype WorkCost = WorkCost(
    concurrency: int, upstream: int, simulation: int, queue: int, responseBytes: int, total: int)

  /** The four dimensions in which capacity is held back for first-party traffic. */
  datatype Reserve = Reserve(concurrency: int, upstream: int, simulation: int, queue: int)

  datatype Config = Config(perPrincipal: WorkCost, global: WorkCost, reserve: Reserve)

  const ZERO := WorkCost(0, 0, 0, 0, 0, 0)

  predicate IsSafeCount(n: int) {
    0 <= n <= MAX_SAFE_INTEGER
  }

  predicate ValidCost(c: WorkCost) {
    && IsSafeCount(c.concurrency) && IsSafeCount(c.upstream) && IsSafeCount(c.simulation)
    && IsSafeCount(c.queue) && IsSafeCount(c.responseBytes) && IsSafeCount(c.total)
  }

  predicate ValidConfig(config: Config) {
    && ValidCost(config.perPrincipal) && ValidCost(config.global)
    && 0 <= config.reserve.concurrency <= config.global.concurrency
    && 0 <= config.reserve.upstream <= config.global.upstream
    && 0 <= config.reserve.simulation <= config.global.simulation
    && 0 <= config.reserve.queue <= config.global.queue
  }

  function AddCost(a: WorkCost, b: WorkCost): WorkCost {
    WorkCost(a.concurrency + b.concurrency, a.upstream + b.upstream, a.simulation + b.simulation,
             a.queue + b.queue, a.responseBytes + b.responseBytes, a.total + b.total)
  }

  function SubtractCost(a: WorkCost, b: WorkCost): WorkCost {
    WorkCost(a.concurrency - b.concurrency, a.upstream - b.upstream, a.simulation - b.simulation,
             a.queue - b.queue, a.responseBytes - b.responseBytes, a.total - b.total)
  }

  predicate Exceeds(usage: WorkCost, limit: WorkCost) {
    || usage.concurrency > limit.concurrency || usage.upstream > limit.upstream
    || usage.simulation > limit.simulation || usage.queue > limit.queue
    || usage.responseBytes > limit.responseBytes || usage.total > limit.total
  }

  function PublicLimit(config: Config): WorkCost {
    WorkCost(config.global.concurrency - config.reserve.concurrency,
             config.global.upstream - config.reserve.upstream,
             config.global.simulation - config.reserve.simulation,
             config.global.queue - config.reserve.queue,
             config.global.responseBytes, config.global.total)
  }

  // ---------------------------------------------------------------- usage and its two transitions

  datatype Usage = Usage(principals: map<Text, WorkCost>, global: WorkCost, open: WorkCost)

  /** The work of one admitted request. `isPublic` is the traffic class. */
  datatype Grant = Grant(principalId: Text, isPublic: bool, cost: WorkCost)

  datatype Refusal = NoPrincipal | InvalidCost | PrincipalLimit | GlobalLimit | ReservedCapacity

  datatype Verdict = Admitted(usage: Usage) | Refused(reason: Refusal)

  const IDLE := Usage(map[], ZERO, ZERO)

  function UsageOf(u: Usage, p: Text): WorkCost {
    if p in u.principals then u.principals[p] else ZERO
  }

  function AdmitWork(config: Config, u: Usage, g: Grant): Verdict {
    var principal := AddCost(UsageOf(u, g.principalId), g.cost);
    var global := AddCost(u.global, g.cost);
    var open := if g.isPublic then AddCost(u.open, g.cost) else u.open;
    if |g.principalId| == 0 then Refused(NoPrincipal)
    else if !ValidCost(g.cost) then Refused(InvalidCost)
    else if Exceeds(principal, config.perPrincipal) then Refused(PrincipalLimit)
    else if Exceeds(global, config.global) then Refused(GlobalLimit)
    else if g.isPublic && Exceeds(open, PublicLimit(config)) then Refused(ReservedCapacity)
    else Admitted(Usage(u.principals[g.principalId := principal], global, open))
  }

  /** The first release of a lease. A principal whose usage falls to zero leaves the map. */
  function ReleaseWork(u: Usage, g: Grant): Usage {
    var remaining := SubtractCost(UsageOf(u, g.principalId), g.cost);
    Usage(
      if remaining == ZERO then u.principals - {g.principalId} else u.principals[g.principalId := remaining],
      SubtractCost(u.global, g.cost),
      if g.isPublic then SubtractCost(u.open, g.cost) else u.open)
  }

  // ---------------------------------------------------------------- the controller and its leases

  class WorkAdmissionController {
    const config: Config
    var principalUsage: map<Text, WorkCost>
    var globalUsage: WorkCost
    var publicUsage: WorkCost

    function Snapshot(): Usage
      reads this
    {
      Usage(principalUsage, globalUsage, publicUsage)
    }

    /** The constructor after its checks. */
    constructor (config: Config)
      requires ValidConfig(config)
      ensures this.config == config && Snapshot() == IDLE
    {
      this.config := config;
      principalUsage, globalUsage, publicUsage := map[], ZERO, ZERO;
    }

    /** Construction throws, here returns null, exactly on an invalid configuration. */
    static method Create(config: Config) returns (controller: WorkAdmissionController?)
      ensures controller != null <==> ValidConfig(config)
      ensures controller != null ==> fresh(controller) && controller.config == config && controller.Snapshot() == IDLE
    {
      controller := null;
      if ValidConfig(config) {
        controller := new WorkAdmissionController(config);
      }
    }

    method Admit(g: Grant) returns (lease: WorkLease?, reason: Option<Refusal>)
      modifies this
      ensures var verdict := AdmitWork(config, old(Snapshot()), g);
              match verdict
              case Admitted(usage) =>
                && Snapshot() == usage && reason == None
                && lease != null && fresh(lease) && lease.controller == this && lease.grant == g && !lease.released
              case Refused(why) => Snapshot() == old(Snapshot()) && reason == Some(why) && lease == null
    {
      lease := null;
      if |g.principalId| == 0 {
        return null, Some(NoPrincipal);
      }
      if !ValidCost(g.cost) {
        return null, Some(InvalidCost);
      }
      var currentPrincipal := if g.principalId in principalUsage then principalUsage[g.principalId] else ZERO;
      var nextPrincipal := AddCost(currentPrincipal, g.cost);
      var nextGlobal := AddCost(globalUsage, g.cost);
      if Exceeds(nextPrincipal, config.perPrincipal) {
        return null, Some(PrincipalLimit);
      }
      if Exceeds(nextGlobal, config.global) {
        return null, Some(GlobalLimit);
      }
      var nextPublic := publicUsage;
      if g.isPublic {
        nextPublic := AddCost(publicUsage, g.cost);
        if Exceeds(nextPublic, PublicLimit(config)) {
          return null, Some(ReservedCapacity);
        }
      }
      principalUsage := principalUsage[g.principalId := nextPrincipal];
      globalUsage := nextGlobal;
      publicUsage := nextPublic;
      lease := new WorkLease(this, g);
      reason := None;
    }
  }

  class WorkLease {
    const controller: WorkAdmissionController
    const grant: Grant
    var released: bool

    constructor (controller: WorkAdmissionController, grant: Grant)
      ensures this.controller == controller && this.grant == grant && !released
    {
      this.controller := controller;
      this.grant := grant;
      released := false;
    }

    method Release()
      modifies this, controller
      ensures released
      ensures controller.Snapshot()
              == if old(released) then old(controller.Snapshot()) else ReleaseWork(old(controller.Snapshot()), grant)
    {
      if released {
        return;
      }
      released := true;
      var p := grant.principalId;
      var principal := if p in controller.principalUsage then controller.principalUsage[p] else ZERO;
      var remaining := SubtractCost(principal, grant.cost);
      if remaining == ZERO {
        controller.principalUsage := controller.principalUsage - {p};
      } else {
        controller.principalUsage := controller.principalUsage[p := remaining];
      }
      controller.globalUsage := SubtractCost(controller.globalUsage, grant.cost);
      if grant.isPublic {
        controller.publicUsage := SubtractCost(controller.publicUsage, grant.cost);
      }
    }
  }

  // ---------------------------------------------------------------- every sequence of admissions and releases

  datatype Held = Held(grant: Grant, released: bool)

  /** The usage together with every lease ever handed out. */
  datatype Ledger = Ledger(usage: Usage, leases: seq<Held>)

  function AdmitStep(config: Config, l: Ledger, g: Grant): Ledger {
    var verdict := AdmitWork(config, l.usage, g);
    if verdict.Admitted? then Ledger(verdict.usage, l.leases + [Held(g, false)]) else l
  }

  /** `lease.release()`, which may be called any number of times. */
  function ReleaseStep(l: Ledger, i: nat): Ledger
    requires i < |l.leases|
  {
    var lease := l.leases[i];
    if lease.released then l else Ledger(ReleaseWork(l.usage, lease.grant), l.leases[i := lease.(released := true)])
  }

  datatype Class = AllWork | PublicWork | FirstPartyWork | WorkOf(principalId: Text)

  predicate Counts(class': Class, lease: Held) {
    && !lease.released
    && match class'
       case AllWork => true
       case PublicWork => lease.grant.isPublic
       case FirstPartyWork => !lease.grant.isPublic
       case WorkOf(p) => lease.grant.principalId == p
  }

  datatype Dimension = Concurrency | Upstream | Simulation | Queue | ResponseBytes | Total

  function At(c: WorkCost, d: Dimension): int {
    match d
    case Concurrency => c.concurrency
    case Upstream => c.upstream
    case Simulation => c.simulation
    case Queue => c.queue
    case ResponseBytes => c.responseBytes
    case Total => c.total
  }

  lemma CostAlgebra(a: WorkCost, b: WorkCost, d: Dimension)
    ensures At(AddCost(a, b), d) == At(a, d) + At(b, d)
    ensures At(SubtractCost(a, b), d) == At(a, d) - At(b, d)
    ensures At(ZERO, d) == 0
  {
  }

  /** The exact cost, in one dimension, of the live leases of one class. */
  function Live(leases: seq<Held>, class': Class, d: Dimension): int {
    if leases == [] then 0
    else Live(leases[..|leases| - 1], class', d) + Share(leases[|leases| - 1], class', d)
  }

  function Share(lease: Held, class': Class, d: Dimension): int {
    if Counts(class', lease) then At(lease.grant.cost, d) else 0
  }

  /** In every dimension the recorded usage is the exact sum over the live leases of the class. */
  ghost predicate Sums(usage: WorkCost, leases: seq<Held>, class': Class) {
    forall d :: At(usage, d) == Live(leases, class', d)
  }

  /** Every class is summed exactly. */
  ghost predicate Accounted(l: Ledger) {
    && Sums(l.usage.global, l.leases, AllWork)
    && Sums(l.usage.open, l.leases, PublicWork)
    && (forall p: Text :: Sums(UsageOf(l.usage, p), l.leases, WorkOf(p)))
  }

  predicate Within(config: Config, usage: Usage) {
    && !Exceeds(usage.global, config.global)
    && !Exceeds(usage.open, PublicLimit(config))
    && (forall p | p in usage.principals :: !Exceeds(usage.principals[p], config.perPrincipal))
  }

  /** No principal is kept in the map without a live lease. */
  ghost predicate NoIdlePrincipal(l: Ledger) {
    forall p | p in l.usage.principals :: Holds(l.leases, p)
  }

  predicate Holds(leases: seq<Held>, p: Text) {
    exists i | 0 <= i < |leases| :: Counts(WorkOf(p), leases[i])
  }

  predicate ValidCosts(leases: seq<Held>) {
    forall i | 0 <= i < |leases| :: ValidCost(leases[i].grant.cost)
  }

  /** The books balance: usage is the sum over live leases, every limit holds, and no idle principal is kept. */
  ghost predicate Balanced(config: Config, l: Ledger) {
    ValidConfig(config) && ValidCosts(l.leases) && Accounted(l) && Within(config, l.usage) && NoIdlePrincipal(l)
  }

  lemma IdleBalanced(config: Config)
    requires ValidConfig(config)
    ensures Balanced(config, Ledger(IDLE, []))
  {
  }

  lemma AppendLive(leases: seq<Held>, lease: Held, class': Class, d: Dimension)
    ensures Live(leases + [lease], class', d) == Live(leases, class', d) + Share(lease, class', d)
  {
    assert (leases + [lease])[..|leases|] == leases;
  }

  lemma {:induction false} ReleaseLive(leases: seq<Held>, i: nat, class': Class, d: Dimension)
    requires i < |leases| && !leases[i].released
    ensures Live(leases[i := leases[i].(released := true)], class', d)
            == Live(leases, class', d) - Share(leases[i], class', d)
  {
    var after, n := leases[i := leases[i].(released := true)], |leases| - 1;
    if i == n {
      assert after[..n] == leases[..n];
    } else {
      ReleaseLive(leases[..n], i, class', d);
      assert after[..n] == leases[..n][i := leases[i].(released := true)];
    }
  }

  lemma AddSums(usage: WorkCost, leases: seq<Held>, lease: Held, class': Class)
    requires Sums(usage, leases, class')
    ensures Sums(if Counts(class', lease) then AddCost(usage, lease.grant.cost) else usage, leases + [lease], class')
  {
    var usage' := if Counts(class', lease) then AddCost(usage, lease.grant.cost) else usage;
    forall d ensures At(usage', d) == Live(leases + [lease], class', d) {
      AppendLive(leases, lease, class', d);
      CostAlgebra(usage, lease.grant.cost, d);
    }
  }

  lemma SubtractSums(usage: WorkCost, leases: seq<Held>, i: nat, class': Class)
    requires Sums(usage, leases, class') && i < |leases| && !leases[i].released
    ensures Sums(if Counts(class', leases[i]) then SubtractCost(usage, leases[i].grant.cost) else usage,
                 leases[i := leases[i].(released := true)], class')
  {
    var usage' := if Counts(class', leases[i]) then SubtractCost(usage, leases[i].grant.cost) else usage;
    forall d ensures At(usage', d) == Live(leases[i := leases[i].(released := true)], class', d) {
      ReleaseLive(leases, i, class', d);
      CostAlgebra(usage, leases[i].grant.cost, d);
    }
  }

  lemma {:induction false} LiveNonNegative(leases: seq<Held>, class': Class, d: Dimension)
    requires ValidCosts(leases)
    ensures Live(leases, class', d) >= 0
  {
    if leases != [] { LiveNonNegative(leases[..|leases| - 1], class', d); }
  }

  /** Usage that is not zero belongs to a live lease. */
  lemma {:induction false} LiveIsHeld(leases: seq<Held>, p: Text, d: Dimension)
    requires Live(leases, WorkOf(p), d) != 0
    ensures Holds(leases, p)
  {
    var n := |leases| - 1;
    if Counts(WorkOf(p), leases[n]) {
    } else {
      LiveIsHeld(leases[..n], p, d);
      var i :| 0 <= i < |leases[..n]| && Counts(WorkOf(p), leases[..n][i]);
      assert Counts(WorkOf(p), leases[i]);
    }
  }

  lemma {:induction false} LiveSplits(leases: seq<Held>, d: Dimension)
    ensures Live(leases, AllWork, d) == Live(leases, PublicWork, d) + Live(leases, FirstPartyWork, d)
  {
    if leases != [] { LiveSplits(leases[..|leases| - 1], d); }
  }

  // ---------------------------------------------------------------- both transitions keep the books balanced

  lemma AdmitGlobal(config: Config, l: Ledger, g: Grant)
    requires Accounted(l) && AdmitWork(config, l.usage, g).Admitted?
    ensures Sums(AdmitStep(config, l, g).usage.global, AdmitStep(config, l, g).leases, AllWork)
  {
    AddSums(l.usage.global, l.leases, Held(g, false), AllWork);
  }

  lemma AdmitPublic(config: Config, l: Ledger, g: Grant)
    requires Accounted(l) && AdmitWork(config, l.usage, g).Admitted?
    ensures Sums(AdmitStep(config, l, g).usage.open, AdmitStep(config, l, g).leases, PublicWork)
  {
    AddSums(l.usage.open, l.leases, Held(g, false), PublicWork);
  }

  lemma AdmitPrincipal(config: Config, l: Ledger, g: Grant, p: Text)
    requires Accounted(l) && AdmitWork(config, l.usage, g).Admitted?
    ensures Sums(UsageOf(AdmitStep(config, l, g).usage, p), AdmitStep(config, l, g).leases, WorkOf(p))
  {
    AddSums(UsageOf(l.usage, p), l.leases, Held(g, false), WorkOf(p));
  }

  lemma AdmitAccounts(config: Config, l: Ledger, g: Grant)
    requires Accounted(l) && AdmitWork(config, l.usage, g).Admitted?
    ensures Accounted(AdmitStep(config, l, g))
  {
    AdmitGlobal(config, l, g);
    AdmitPublic(config, l, g);
    forall p: Text { AdmitPrincipal(config, l, g, p); }
  }

  lemma HoldsAppend(leases: seq<Held>, lease: Held, p: Text)
    ensures Holds(leases, p) || Counts(WorkOf(p), lease) ==> Holds(leases + [lease], p)
  {
    var leases' := leases + [lease];
    assert leases'[|leases|] == lease;
    if Holds(leases, p) {
      var i :| 0 <= i < |leases| && Counts(WorkOf(p), leases[i]);
      assert Counts(WorkOf(p), leases'[i]);
    }
  }

  /** Admission keeps the books balanced, and a refusal changes nothing. */
  lemma AdmitKeepsBalance(config: Config, l: Ledger, g: Grant)
    requires Balanced(config, l)
    ensures Balanced(config, AdmitStep(config, l, g))
    ensures AdmitWork(config, l.usage, g).Refused? ==> AdmitStep(config, l, g) == l
  {
    if AdmitWork(config, l.usage, g).Admitted? {
      AdmitAccounts(config, l, g);
      forall p { HoldsAppend(l.leases, Held(g, false), p); }
    }
  }

  lemma ReleaseAccounts(l: Ledger, i: nat)
    requires Accounted(l) && i < |l.leases| && !l.leases[i].released
    ensures Accounted(ReleaseStep(l, i))
  {
    var l', g := ReleaseStep(l, i), l.leases[i].grant;
    SubtractSums(l.usage.global, l.leases, i, AllWork);
    SubtractSums(l.usage.open, l.leases, i, PublicWork);
    forall p: Text ensures Sums(UsageOf(l'.usage, p), l'.leases, WorkOf(p)) {
      SubtractSums(UsageOf(l.usage, p), l.leases, i, WorkOf(p));
    }
  }

  lemma NonZeroDimension(c: WorkCost)
    requires c != ZERO
    ensures exists d :: At(c, d) != 0
  {
    assert At(c, Concurrency) != 0 || At(c, Upstream) != 0 || At(c, Simulation) != 0
           || At(c, Queue) != 0 || At(c, ResponseBytes) != 0 || At(c, Total) != 0;
  }

  lemma ReleaseKeepsHolders(l: Ledger, i: nat, p: Text)
    requires Accounted(l) && NoIdlePrincipal(l) && i < |l.leases| && !l.leases[i].released
    requires p in ReleaseStep(l, i).usage.principals
    ensures Holds(ReleaseStep(l, i).leases, p)
  {
    var l' := ReleaseStep(l, i);
    if p == l.leases[i].grant.principalId {
      ReleaseAccounts(l, i);
      NonZeroDimension(UsageOf(l'.usage, p));
      var d :| At(UsageOf(l'.usage, p), d) != 0;
      assert Sums(UsageOf(l'.usage, p), l'.leases, WorkOf(p));
      LiveIsHeld(l'.leases, p, d);
    } else {
      var j :| 0 <= j < |l.leases| && Counts(WorkOf(p), l.leases[j]);
      assert Counts(WorkOf(p), l'.leases[j]);
    }
  }

  /** Giving back what a live lease took cannot push any usage over its limit. */
  lemma ReleaseWithin(config: Config, l: Ledger, i: nat)
    requires Within(config, l.usage) && ValidConfig(config) && i < |l.leases| && ValidCost(l.leases[i].grant.cost)
    ensures Within(config, ReleaseStep(l, i).usage)
  {
  }

  /** Release keeps the books balanced; releasing again changes nothing. */
  lemma ReleaseKeepsBalance(config: Config, l: Ledger, i: nat)
    requires Balanced(config, l) && i < |l.leases|
    ensures Balanced(config, ReleaseStep(l, i))
    ensures ReleaseStep(ReleaseStep(l, i), i) == ReleaseStep(l, i)
  {
    if !l.leases[i].released {
      ReleaseAccounts(l, i);
      ReleaseWithin(config, l, i);
      forall p | p in ReleaseStep(l, i).usage.principals { ReleaseKeepsHolders(l, i, p); }
    }
  }

  // ---------------------------------------------------------------- consequences

  lemma {:induction false} NoneLive(leases: seq<Held>, class': Class, d: Dimension)
    requires forall i | 0 <= i < |leases| :: leases[i].released
    ensures Live(leases, class', d) == 0
  {
    if leases != [] { NoneLive(leases[..|leases| - 1], class', d); }
  }

  lemma NoneLiveIsZero(usage: WorkCost, leases: seq<Held>, class': Class)
    requires Sums(usage, leases, class') && forall i | 0 <= i < |leases| :: leases[i].released
    ensures usage == ZERO
  {
    forall d ensures At(usage, d) == 0 { NoneLive(leases, class', d); }
    if usage != ZERO { NonZeroDimension(usage); }
  }

  /** When every lease has been released the controller is exactly as it was when it was made. */
  lemma AllReleasedIsIdle(config: Config, l: Ledger)
    requires Balanced(config, l)
    requires forall i | 0 <= i < |l.leases| :: l.leases[i].released
    ensures l.usage == IDLE
  {
    NoneLiveIsZero(l.usage.global, l.leases, AllWork);
    NoneLiveIsZero(l.usage.open, l.leases, PublicWork);
    assert forall p | p in l.usage.principals :: Holds(l.leases, p);
    assert l.usage.principals == map[];
  }

  /** `extra`, on top of the first-party work already live, fits the reserve. */
  predicate FitsReserve(leases: seq<Held>, extra: WorkCost, reserve: Reserve) {
    && Live(leases, FirstPartyWork, Concurrency) + extra.concurrency <= reserve.concurrency
    && Live(leases, FirstPartyWork, Upstream) + extra.upstream <= reserve.upstream
    && Live(leases, FirstPartyWork, Simulation) + extra.simulation <= reserve.simulation
    && Live(leases, FirstPartyWork, Queue) + extra.queue <= reserve.queue
  }

  /**
   The reserve is honoured: first-party work that, with the first-party work already live, fits the reserve,
   and that fits the principal's limit and the two dimensions without a reserve, is admitted whatever public
   work has been admitted.
   */
  lemma ReserveIsHonoured(config: Config, l: Ledger, g: Grant)
    requires Balanced(config, l) && !g.isPublic && |g.principalId| > 0 && ValidCost(g.cost)
    requires FitsReserve(l.leases, g.cost, config.reserve)
    requires !Exceeds(AddCost(UsageOf(l.usage, g.principalId), g.cost), config.perPrincipal)
    requires Live(l.leases, AllWork, ResponseBytes) + g.cost.responseBytes <= config.global.responseBytes
    requires Live(l.leases, AllWork, Total) + g.cost.total <= config.global.total
    ensures AdmitWork(config, l.usage, g).Admitted?
  {
    forall d ensures At(l.usage.global, d) == At(l.usage.open, d) + Live(l.leases, FirstPartyWork, d)
                     && At(l.usage.global, d) == Live(l.leases, AllWork, d)
    {
      LiveSplits(l.leases, d);
    }
    assert At(l.usage.global, Concurrency) <= At(PublicLimit(config), Concurrency) + Live(l.leases, FirstPartyWork, Concurrency);
    assert At(l.usage.global, Upstream) <= At(PublicLimit(config), Upstream) + Live(l.leases, FirstPartyWork, Upstream);
    assert At(l.usage.global, Simulation) <= At(PublicLimit(config), Simulation) + Live(l.leases, FirstPartyWork, Simulation);
    assert At(l.usage.global, Queue) <= At(PublicLimit(config), Queue) + Live(l.leases, FirstPartyWork, Queue);
    assert At(l.usage.global, ResponseBytes) == l.usage.global.responseBytes;
    assert At(l.usage.global, Total) == l.usage.global.total;
  }

  /** The live work of the class, with `extra` on top, breaks the limit in some dimension. */
  ghost predicate Overflows(leases: seq<Held>, class': Class, extra: WorkCost, limit: WorkCost) {
    exists d :: Live(leases, class', d) + At(extra, d) > At(limit, d)
  }

  lemma ExceedsMeans(usage: WorkCost, leases: seq<Held>, class': Class, extra: WorkCost, limit: WorkCost)
    requires Sums(usage, leases, class')
    ensures Exceeds(AddCost(usage, extra), limit) <==> Overflows(leases, class', extra, limit)
  {
    if Exceeds(AddCost(usage, extra), limit) {
      var d := if usage.concurrency + extra.concurrency > limit.concurrency then Concurrency
               else if usage.upstream + extra.upstream > limit.upstream then Upstream
               else if usage.simulation + extra.simulation > limit.simulation then Simulation
               else if usage.queue + extra.queue > limit.queue then Queue
               else if usage.responseBytes + extra.responseBytes > limit.responseBytes then ResponseBytes
               else Total;
      assert Live(leases, class', d) + At(extra, d) > At(limit, d);
    }
    if Overflows(leases, class', extra, limit) {
      var d :| Live(leases, class', d) + At(extra, d) > At(limit, d);
      assert At(usage, d) + At(extra, d) > At(limit, d);
    }
  }

  /**
   Admission is decided by the live work alone: a well-formed request is admitted exactly when, on top of what
   is live, it breaks no limit of its principal, of the whole gateway, or of public traffic.
   */
  lemma AdmittedIffItFits(config: Config, l: Ledger, g: Grant)
    requires Balanced(config, l) && |g.principalId| > 0 && ValidCost(g.cost)
    ensures AdmitWork(config, l.usage, g).Admitted? <==>
            && !Overflows(l.leases, WorkOf(g.principalId), g.cost, config.perPrincipal)
            && !Overflows(l.leases, AllWork, g.cost, config.global)
            && (g.isPublic ==> !Overflows(l.leases, PublicWork, g.cost, PublicLimit(config)))
  {
    ExceedsMeans(UsageOf(l.usage, g.principalId), l.leases, WorkOf(g.principalId), g.cost, config.perPrincipal);
    ExceedsMeans(l.usage.global, l.leases, AllWork, g.cost, config.global);
    ExceedsMeans(l.usage.open, l.leases, PublicWork, g.cost, PublicLimit(config));
  }

  /** What is held back in a dimension. */
  function HeldBack(reserve: Reserve, d: Dimension): int {
    match d
    case Concurrency => reserve.concurrency
    case Upstream => reserve.upstream
    case Simulation => reserve.simulation
    case Queue => reserve.queue
    case _ => 0
  }

  /** A configuration is valid when all limits are safe counts and no more is held back than there is. */
  lemma ValidConfigMeans(config: Config)
    ensures ValidConfig(config) <==>
            forall d ::
              && 0 <= At(config.perPrincipal, d) <= MAX_SAFE_INTEGER && 0 <= At(config.global, d) <= MAX_SAFE_INTEGER
              && 0 <= HeldBack(config.reserve, d) <= At(config.global, d)
  {
    if forall d ::
         && 0 <= At(config.perPrincipal, d) <= MAX_SAFE_INTEGER && 0 <= At(config.global, d) <= MAX_SAFE_INTEGER
         && 0 <= HeldBack(config.reserve, d) <= At(config.global, d)
    {
      EveryDimension(config.perPrincipal, MAX_SAFE_INTEGER);
      EveryDimension(config.global, MAX_SAFE_INTEGER);
      assert HeldBack(config.reserve, Concurrency) <= At(config.global, Concurrency);
      assert HeldBack(config.reserve, Upstream) <= At(config.global, Upstream);
      assert HeldBack(config.reserve, Simulation) <= At(config.global, Simulation);
      assert HeldBack(config.reserve, Queue) <= At(config.global, Queue);
    }
  }

  lemma EveryDimension(c: WorkCost, bound: int)
    requires forall d :: 0 <= At(c, d) <= bound
    ensures 0 <= c.concurrency <= bound && 0 <= c.upstream <= bound && 0 <= c.simulation <= bound
    ensures 0 <= c.queue <= bound && 0 <= c.responseBytes <= bound && 0 <= c.total <= bound
  {
    assert 0 <= At(c, Concurrency) <= bound && 0 <= At(c, Upstream) <= bound && 0 <= At(c, Simulation) <= bound;
    assert 0 <= At(c, Queue) <= bound && 0 <= At(c, ResponseBytes) <= bound && 0 <= At(c, Total) <= bound;
  }

  /** In every dimension, what is live of the class and the cost together stay below the limit. */
  ghost predicate Fits(leases: seq<Held>, class': Class, cost: WorkCost, limit: Dimension -> int) {
    forall d :: Live(leases, class', d) + At(cost, d) <= limit(d)
  }

  lemma FitsUnlessOver(leases: seq<Held>, class': Class, cost: WorkCost, limit: WorkCost, bound: Dimension -> int)
    requires forall d :: bound(d) == At(limit, d)
    ensures Overflows(leases, class', cost, limit) <==> !Fits(leases, class', cost, bound)
  {
  }

  /**
   Admission over the fields of the configuration: a request is admitted exactly when it names a principal, its cost
   counts safely, and in every dimension it fits the limit of its principal and of the gateway and, for public work,
   what the gateway's limit leaves when the reserve is held back.
   */
  lemma AdmittedExactly(config: Config, l: Ledger, g: Grant)
    requires Balanced(config, l)
    ensures AdmitWork(config, l.usage, g).Admitted? <==>
            && |g.principalId| > 0 && (forall d :: 0 <= At(g.cost, d) <= MAX_SAFE_INTEGER)
            && Fits(l.leases, WorkOf(g.principalId), g.cost, d => At(config.perPrincipal, d))
            && Fits(l.leases, AllWork, g.cost, d => At(config.global, d))
            && (g.isPublic ==> Fits(l.leases, PublicWork, g.cost, d => At(config.global, d) - HeldBack(config.reserve, d)))
  {
    if forall d :: 0 <= At(g.cost, d) <= MAX_SAFE_INTEGER { EveryDimension(g.cost, MAX_SAFE_INTEGER); }
    FitsUnlessOver(l.leases, WorkOf(g.principalId), g.cost, config.perPrincipal, d => At(config.perPrincipal, d));
    FitsUnlessOver(l.leases, AllWork, g.cost, config.global, d => At(config.global, d));
    FitsUnlessOver(l.leases, PublicWork, g.cost, PublicLimit(config), d => At(config.global, d) - HeldBack(config.reserve, d));
    if |g.principalId| > 0 && ValidCost(g.cost) { AdmittedIffItFits(config, l, g); }
  }

  predicate CountsSafely(cost: WorkCost) {
    forall d :: 0 <= At(cost, d) <= MAX_SAFE_INTEGER
  }

  /** A refusal names the first of the conditions, in this order, that fails. */
  lemma RefusedExactly(config: Config, l: Ledger, g: Grant, why: Refusal)
    requires Balanced(config, l) && AdmitWork(config, l.usage, g) == Refused(why)
    ensures why.NoPrincipal? <==> |g.principalId| == 0
    ensures why.InvalidCost? <==> |g.principalId| > 0 && !CountsSafely(g.cost)
    ensures why.PrincipalLimit?
            <==> |g.principalId| > 0 && CountsSafely(g.cost)
                 && !Fits(l.leases, WorkOf(g.principalId), g.cost, d => At(config.perPrincipal, d))
    ensures why.GlobalLimit?
            <==> |g.principalId| > 0 && CountsSafely(g.cost)
                 && Fits(l.leases, WorkOf(g.principalId), g.cost, d => At(config.perPrincipal, d))
                 && !Fits(l.leases, AllWork, g.cost, d => At(config.global, d))
  {
    if CountsSafely(g.cost) { EveryDimension(g.cost, MAX_SAFE_INTEGER); }
    FitsUnlessOver(l.leases, WorkOf(g.principalId), g.cost, config.perPrincipal, d => At(config.perPrincipal, d));
    FitsUnlessOver(l.leases, AllWork, g.cost, config.global, d => At(config.global, d));
    ExceedsMeans(UsageOf(l.usage, g.principalId), l.leases, WorkOf(g.principalId), g.cost, config.perPrincipal);
    ExceedsMeans(l.usage.global, l.leases, AllWork, g.cost, config.global);
  }

  /**
   Admitting and then releasing restores the usage exactly, unless the principal held an entry of zero cost,
   which the release then drops; its usage is zero either way.
   */
  lemma ReleaseUndoesAdmit(config: Config, u: Usage, g: Grant)
    requires AdmitWork(config, u, g).Admitted?
    ensures var u' := ReleaseWork(AdmitWork(config, u, g).usage, g);
            && (forall p: Text :: UsageOf(u', p) == UsageOf(u, p))
            && u'.global == u.global && u'.open == u.open
            && (u' == u <==> !(g.principalId in u.principals && u.principals[g.principalId] == ZERO))
  {
    var u' := ReleaseWork(AdmitWork(config, u, g).usage, g);
    assert SubtractCost(AddCost(UsageOf(u, g.principalId), g.cost), g.cost) == UsageOf(u, g.principalId);
    if UsageOf(u, g.principalId) == ZERO {
      assert u'.principals == u.principals - {g.principalId};
      assert g.principalId !in u.principals ==> u'.principals == u.principals;
    } else {
      assert u'.principals == u.principals;
    }
  }
}
