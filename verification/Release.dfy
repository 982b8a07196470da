/**
 `ReleaseController` and `AtomicReleaseRuntime` (packages/gateway/src/release-controller.ts). Verification of roots,
 candidate, conformance and health is a flag of the input: an input that fails it makes the call throw.
 */
module Release {
  import opened Common

  datatype Status = Staged | Active | Retired | EmergencyDisabled

  /** What an intent is compared on: deployment, policy, candidate and conformance. */
  datatype Binding = Binding(
    deploymentId: Text, deploymentGeneration: Text, deploymentPayloadDigest: Text, policyId: Text,
    policyGeneration: Text, policyPayloadDigest: Text, candidateDigest: Text, conformanceDigest: Text)

  datatype Input = Input(
    verified: bool, capabilityId: Text, binding: Binding, deploymentStatus: Status, policyStatus: Status,
    policyRequired: bool, healthy: bool, sourceCommit: Text, schemaDigest: Text, profileDigest: Text,
    vectorSetDigest: Text)

  datatype Intent = Intent(binding: Binding, decidedAt: Text)

  datatype Reason = Callable | NotActivated | GenerationChanged | Unhealthy | TerminalGeneration

  datatype State = State(
    capabilityId: Text, activated: bool, healthy: bool, callable: bool, reason: Reason, operatorIntent: Option<Intent>)

  type Store = map<Text, Intent>

  predicate IsTerminalStatus(s: Status) {
    s == Retired || s == EmergencyDisabled
  }

  predicate IsTerminal(i: Input) {
    IsTerminalStatus(i.deploymentStatus) || (i.policyRequired && IsTerminalStatus(i.policyStatus))
  }

  predicate IsActive(i: Input) {
    i.deploymentStatus == Active && (i.policyRequired ==> i.policyStatus == Active)
  }

  predicate IsBound(store: Store, i: Input) {
    i.capabilityId in store && store[i.capabilityId].binding == i.binding
  }

  function Clear(store: Store, capabilityId: Text): Store {
    store - {capabilityId}
  }

  /** The store after an input has been evaluated: a terminal or a different generation forgets the intent. */
  function Evaluated(store: Store, i: Input): Store {
    if IsTerminal(i) || !IsBound(store, i) then Clear(store, i.capabilityId) else store
  }

  // ---------------------------------------------------------------- runs

  /** The calls that got past verification. */
  datatype Event = Activated(input: Input, decidedAt: Text) | EvaluatedOnly(input: Input) | Deactivated(capabilityId: Text)

  function After(store: Store, e: Event): Store {
    match e
    case Activated(i, decidedAt) => Evaluated(store[i.capabilityId := Intent(i.binding, decidedAt)], i)
    case EvaluatedOnly(i) => Evaluated(store, i)
    case Deactivated(id) => Clear(store, id)
  }

  function StoreAfter(h: seq<Event>): Store {
    if h == [] then map[] else After(StoreAfter(h[..|h| - 1]), h[|h| - 1])
  }

  /** The run activated this capability with exactly this binding. */
  predicate Binds(e: Event, id: Text, b: Binding) {
    e.Activated? && IsActive(e.input) && e.input.capabilityId == id && e.input.binding == b
  }

  /** A deactivation, or an evaluation that sees the capability terminal or bound to something else. */
  predicate Breaks(e: Event, id: Text, b: Binding) {
    match e
    case Activated(i, _) => i.capabilityId == id && i.binding != b
    case EvaluatedOnly(i) => i.capabilityId == id && (IsTerminal(i) || i.binding != b)
    case Deactivated(d) => d == id
  }

  /** Since the last activation with this binding, nothing has broken it. */
  ghost predicate BoundSince(h: seq<Event>, id: Text, b: Binding) {
    exists k | 0 <= k < |h| :: Binds(h[k], id, b) && forall j | k < j < |h| :: !Breaks(h[j], id, b)
  }

  /** Activations happen on active generations only. */
  predicate WellFormed(h: seq<Event>) {
    forall k | 0 <= k < |h| && h[k].Activated? :: IsActive(h[k].input)
  }

  lemma {:induction false} BoundSinceStep(h: seq<Event>, e: Event, id: Text, b: Binding)
    ensures BoundSince(h + [e], id, b) <==> Binds(e, id, b) || (BoundSince(h, id, b) && !Breaks(e, id, b))
  {
    var all, n := h + [e], |h|;
    assert all[n] == e && forall k | 0 <= k < n :: all[k] == h[k];
    if BoundSince(all, id, b) && !Binds(e, id, b) {
      var k :| 0 <= k < n + 1 && Binds(all[k], id, b) && forall j | k < j < n + 1 :: !Breaks(all[j], id, b);
      assert k < n && Binds(h[k], id, b) && !Breaks(all[n], id, b);
      assert forall j | k < j < n :: !Breaks(h[j], id, b) by { assert forall j | k < j < n :: h[j] == all[j]; }
    }
    if Binds(e, id, b) { assert Binds(all[n], id, b); }
    if BoundSince(h, id, b) && !Breaks(e, id, b) {
      var k :| 0 <= k < n && Binds(h[k], id, b) && forall j | k < j < n :: !Breaks(h[j], id, b);
      assert Binds(all[k], id, b);
      forall j | k < j < n + 1 ensures !Breaks(all[j], id, b) {
        if j < n { assert all[j] == h[j]; }
      }
    }
  }

  lemma StoreAfterSnoc(h: seq<Event>, e: Event)
    ensures StoreAfter(h + [e]) == After(StoreAfter(h), e)
  {
    assert (h + [e])[..|h|] == h;
  }

  lemma AfterBinds(store: Store, e: Event, id: Text, b: Binding)
    requires e.Activated? ==> IsActive(e.input)
    ensures (id in After(store, e) && After(store, e)[id].binding == b)
            <==> (Binds(e, id, b) || (id in store && store[id].binding == b && !Breaks(e, id, b)))
  {
  }

  /** The store holds an intent with a binding exactly when the run bound it and nothing has broken it since. */
  lemma {:induction false} StoreIsHistory(h: seq<Event>, id: Text, b: Binding)
    requires WellFormed(h)
    ensures (id in StoreAfter(h) && StoreAfter(h)[id].binding == b) <==> BoundSince(h, id, b)
  {
    if h != [] {
      var front, last := h[..|h| - 1], h[|h| - 1];
      assert h == front + [last];
      assert WellFormed(front) by { assert forall k | 0 <= k < |front| :: front[k] == h[k]; }
      StoreIsHistory(front, id, b);
      StoreAfterSnoc(front, last);
      AfterBinds(StoreAfter(front), last, id, b);
      BoundSinceStep(front, last, id, b);
    }
  }

  // ---------------------------------------------------------------- the controller

  /** The answer to an evaluation on a store, apart from the reason. */
  predicate IsDecision(store: Store, i: Input, s: State) {
    && s.capabilityId == i.capabilityId && s.healthy == i.healthy
    && (s.activated <==> IsActive(i) && IsBound(store, i))
    && (s.callable <==> s.activated && i.healthy)
    && (s.reason == Callable <==> s.callable)
    && (s.reason == TerminalGeneration <==> IsTerminal(i))
    && (s.reason == Unhealthy <==> s.activated && !i.healthy)
    && (s.reason == NotActivated <==> !IsTerminal(i) && !s.activated && i.capabilityId !in store)
    && s.operatorIntent == if s.activated then Some(store[i.capabilityId]) else None
  }

  class ReleaseController {
    var store: Store
    ghost var history: seq<Event>

    ghost predicate Valid()
      reads this
    {
      store == StoreAfter(history) && WellFormed(history)
    }

    constructor ()
      ensures Valid() && history == []
    {
      store := map[];
      history := [];
    }

    /** `activate`; `None` is a thrown error, which leaves everything as it was. */
    method Activate(input: Input, decidedAt: Text) returns (r: Option<State>)
      requires Valid()
      modifies this
      ensures Valid()
      ensures r.Some? <==> input.verified && IsActive(input) && IsUint256Decimal(decidedAt)
      ensures r.None? ==> store == old(store) && history == old(history)
      ensures r.Some? ==> history == old(history) + [Activated(input, decidedAt)]
      ensures r.Some? ==> IsDecision(store, input, r.value) && r.value.activated
    {
      if !input.verified || !IsActive(input) || !IsUint256Decimal(decidedAt) { return None; }
      ghost var before := history;
      StoreAfterSnoc(before, Activated(input, decidedAt));
      store := store[input.capabilityId := Intent(input.binding, decidedAt)];
      var s := Decide(input);
      history := before + [Activated(input, decidedAt)];
      return Some(s);
    }

    method Evaluate(input: Input) returns (r: Option<State>)
      requires Valid()
      modifies this
      ensures Valid()
      ensures r.Some? <==> input.verified
      ensures r.None? ==> store == old(store) && history == old(history)
      ensures r.Some? ==> history == old(history) + [EvaluatedOnly(input)] && IsDecision(old(store), input, r.value)
    {
      if !input.verified { return None; }
      ghost var before := history;
      StoreAfterSnoc(before, EvaluatedOnly(input));
      var s := Decide(input);
      history := before + [EvaluatedOnly(input)];
      return Some(s);
    }

    /** `#evaluateVerified` */
    method Decide(input: Input) returns (s: State)
      modifies this`store
      ensures store == Evaluated(old(store), input)
      ensures IsDecision(old(store), input, s)
    {
      var id := input.capabilityId;
      var intent := if id in store then Some(store[id]) else None;
      if IsTerminal(input) {
        store := store - {id};
        return State(id, false, input.healthy, false, TerminalGeneration, None);
      }
      var bound := intent.Some? && intent.value.binding == input.binding;
      if intent.Some? && !bound { store := store - {id}; }
      var activated := IsActive(input) && bound;
      var callable := activated && input.healthy;
      s := State(id, activated, input.healthy, callable,
                 if callable then Callable
                 else if !activated then if intent.None? then NotActivated else GenerationChanged
                 else Unhealthy,
                 if activated then intent else None);
    }

    method Deactivate(capabilityId: Text) returns (ok: bool)
      requires Valid()
      modifies this
      ensures Valid()
      ensures ok <==> capabilityId != []
      ensures history == if ok then old(history) + [Deactivated(capabilityId)] else old(history)
    {
      if capabilityId == [] { return false; }
      ghost var before := history;
      StoreAfterSnoc(before, Deactivated(capabilityId));
      store := store - {capabilityId};
      history := before + [Deactivated(capabilityId)];
      return true;
    }
  }

  // ---------------------------------------------------------------- what `callable` means

  /**
   An evaluation answers callable exactly when its generations are active, the evidence is healthy, and this capability
   was activated with exactly its binding and since then neither deactivated nor seen terminal or different.
   */
  lemma CallableMeansBoundSince(h: seq<Event>, i: Input, s: State)
    requires WellFormed(h) && IsDecision(StoreAfter(h), i, s)
    ensures s.callable <==> IsActive(i) && i.healthy && BoundSince(h, i.capabilityId, i.binding)
  {
    StoreIsHistory(h, i.capabilityId, i.binding);
  }

  /** No resurrection: what is not bound stays so until it is activated again. */
  lemma {:induction false} NoResurrection(h: seq<Event>, t: seq<Event>, id: Text, b: Binding)
    requires !BoundSince(h, id, b) && forall k | 0 <= k < |t| :: !Binds(t[k], id, b)
    ensures !BoundSince(h + t, id, b)
  {
    if t == [] {
      assert h + t == h;
    } else {
      var front, last := t[..|t| - 1], t[|t| - 1];
      assert forall k | 0 <= k < |front| :: front[k] == t[k];
      NoResurrection(h, front, id, b);
      assert h + t == (h + front) + [last];
      BoundSinceStep(h + front, last, id, b);
    }
  }

  // ---------------------------------------------------------------- the same, over the fields of the inputs

  predicate IsOver(s: Status) {
    s.Retired? || s.EmergencyDisabled?
  }

  /** The call leaves a binding of the capability alone. */
  predicate Keeps(e: Event, id: Text, b: Binding) {
    match e
    case Activated(i, _) => i.capabilityId == id ==> i.binding == b
    case EvaluatedOnly(i) =>
      i.capabilityId == id ==> i.binding == b && !IsOver(i.deploymentStatus) && (i.policyRequired ==> !IsOver(i.policyStatus))
    case Deactivated(d) => d != id
  }

  lemma KeepsMeans(e: Event, id: Text, b: Binding)
    ensures Keeps(e, id, b) <==> !Breaks(e, id, b)
  {
  }

  /** Callable, field by field. */
  lemma CallableExactly(h: seq<Event>, i: Input, s: State)
    requires WellFormed(h) && IsDecision(StoreAfter(h), i, s)
    ensures s.callable <==>
            && i.deploymentStatus.Active? && (i.policyRequired ==> i.policyStatus.Active?) && i.healthy
            && exists k | 0 <= k < |h| ::
                 && h[k].Activated? && h[k].input.capabilityId == i.capabilityId && h[k].input.binding == i.binding
                 && forall j | k < j < |h| :: Keeps(h[j], i.capabilityId, i.binding)
  {
    var id, b := i.capabilityId, i.binding;
    CallableMeansBoundSince(h, i, s);
    forall e: Event ensures Keeps(e, id, b) <==> !Breaks(e, id, b) { KeepsMeans(e, id, b); }
    if BoundSince(h, id, b) {
      var k :| 0 <= k < |h| && Binds(h[k], id, b) && forall j | k < j < |h| :: !Breaks(h[j], id, b);
      assert h[k].Activated? && forall j | k < j < |h| :: Keeps(h[j], id, b);
    }
    if k :| 0 <= k < |h| && h[k].Activated? && h[k].input.capabilityId == id && h[k].input.binding == b
            && forall j | k < j < |h| :: Keeps(h[j], id, b) {
      assert Binds(h[k], id, b) && forall j | k < j < |h| :: !Breaks(h[j], id, b);
    }
  }

  /** Seeing a retired or emergency-disabled generation ends the binding, whatever it was. */
  lemma OverEndsTheBinding(h: seq<Event>, i: Input)
    requires IsOver(i.deploymentStatus) || (i.policyRequired && IsOver(i.policyStatus))
    ensures i.capabilityId !in StoreAfter(h + [EvaluatedOnly(i)])
  {
    StoreAfterSnoc(h, EvaluatedOnly(i));
  }

  /** The reason that is reported, field by field. */
  lemma ReasonExactly(store: Store, i: Input, s: State)
    requires IsDecision(store, i, s)
    ensures s.reason == TerminalGeneration
            <==> IsOver(i.deploymentStatus) || (i.policyRequired && IsOver(i.policyStatus))
    ensures s.reason == Unhealthy <==> s.activated && !i.healthy
    ensures s.reason == NotActivated || s.reason == GenerationChanged
            <==> !s.activated && !IsOver(i.deploymentStatus) && (i.policyRequired ==> !IsOver(i.policyStatus))
    ensures s.reason == NotActivated ==> i.capabilityId !in store
    ensures s.reason == GenerationChanged ==> i.capabilityId in store
  {
  }
}
