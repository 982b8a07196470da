/** `AtomicReleaseRuntime` (packages/gateway/src/release-controller.ts): all of a refresh is published or nothing. */
module ReleaseRuntime {
  import opened Common
  import opened Release

  datatype Evidence = Evidence(deploymentId: Text, generation: Text, status: Status)

  datatype OperatorBinding = OperatorBinding(deploymentId: Text, generation: Text)

  /** One capability of the inventory that a refresh offers for publication. */
  datatype Record = Record(
    capabilityId: Text, implemented: bool, activated: bool, healthy: bool, callable: bool, profileDigest: Text,
    vectorSetDigest: Text, evidence: Option<Evidence>, operatorBinding: Option<OperatorBinding>)

  datatype Inventory = Inventory(sourceCommit: Text, schemaDigest: Text, capabilities: seq<Record>)

  datatype Snapshot = Snapshot(inventory: Inventory, refreshedAt: Text)

  /** The index of the first record of a capability, or the number of records. */
  function Find(records: seq<Record>, id: Text): (k: nat)
    ensures k <= |records|
    ensures k < |records| ==> records[k].capabilityId == id
    ensures forall j | 0 <= j < k :: records[j].capabilityId != id
  {
    if records == [] || records[0].capabilityId == id then 0 else 1 + Find(records[1..], id)
  }

  /** `assertInventoryReleaseMatch`: the record says exactly what the controller decided. */
  predicate Matches(inventory: Inventory, input: Input, s: State) {
    var k := Find(inventory.capabilities, s.capabilityId);
    k < |inventory.capabilities| &&
    var record := inventory.capabilities[k];
    && inventory.sourceCommit == input.sourceCommit && inventory.schemaDigest == input.schemaDigest
    && record.profileDigest == input.profileDigest && record.vectorSetDigest == input.vectorSetDigest
    && record.implemented && record.activated == s.activated && record.healthy == s.healthy
    && record.callable == s.callable
    && record.evidence == Some(Evidence(input.binding.deploymentId, input.binding.deploymentGeneration, input.deploymentStatus))
    && record.operatorBinding.Some? == s.operatorIntent.Some?
    && (s.operatorIntent.Some? ==>
          record.operatorBinding == Some(OperatorBinding(s.operatorIntent.value.binding.deploymentId,
                                                         s.operatorIntent.value.binding.deploymentGeneration)))
  }

  /** The check of `validateCapabilityInventory` that matters here: one record per capability. */
  predicate IdsAreUnique(records: seq<Record>) {
    forall i, j | 0 <= i < j < |records| :: records[i].capabilityId != records[j].capabilityId
  }

  function Evaluations(releases: seq<Input>): (h: seq<Event>)
    ensures |h| == |releases|
  {
    seq(|releases|, k requires 0 <= k < |releases| => EvaluatedOnly(releases[k]))
  }

  /** What the controller would now answer to this release. */
  predicate IsCallableNow(store: Store, i: Input) {
    IsActive(i) && i.healthy && IsBound(store, i)
  }

  /** The record of a release for which the controller answers that it is activated, or not. */
  predicate Shows(record: Record, i: Input, activated: bool) {
    && record.implemented && record.profileDigest == i.profileDigest && record.vectorSetDigest == i.vectorSetDigest
    && (record.activated <==> activated) && (record.healthy <==> i.healthy) && (record.callable <==> activated && i.healthy)
    && record.evidence == Some(Evidence(i.binding.deploymentId, i.binding.deploymentGeneration, i.deploymentStatus))
    && record.operatorBinding == if activated
                                 then Some(OperatorBinding(i.binding.deploymentId, i.binding.deploymentGeneration)) else None
  }

  /** The inventory has a record of this release, and it shows what the store implies. */
  predicate Says(inventory: Inventory, i: Input, store: Store) {
    var k := Find(inventory.capabilities, i.capabilityId);
    && k < |inventory.capabilities|
    && inventory.sourceCommit == i.sourceCommit && inventory.schemaDigest == i.schemaDigest
    && Shows(inventory.capabilities[k], i, IsActive(i) && IsBound(store, i))
  }

  lemma MatchesSays(inventory: Inventory, i: Input, s: State, store: Store)
    requires IsDecision(store, i, s)
    ensures Matches(inventory, i, s) <==> Says(inventory, i, store)
  {
  }

  /** The releases are verified, name different capabilities, and the inventory shows what the store implies for each. */
  ghost predicate Projected(inventory: Inventory, releases: seq<Input>, store: Store) {
    && (forall i, j | 0 <= i < j < |releases| :: releases[i].capabilityId != releases[j].capabilityId)
    && (forall i | 0 <= i < |releases| :: releases[i].verified && Says(inventory, releases[i], store))
  }

  predicate IsNew(releases: seq<Input>, id: Text) {
    forall k | 0 <= k < |releases| :: releases[k].capabilityId != id
  }

  /** Evaluating the releases has left what the controller answers about them, and about all other capabilities. */
  ghost predicate AnswersAreKept(start: Store, store: Store, releases: seq<Input>) {
    && (forall o: Input | IsNew(releases, o.capabilityId) :: IsBound(store, o) == IsBound(start, o))
    && (forall k | 0 <= k < |releases| && IsActive(releases[k]) :: IsBound(store, releases[k]) == IsBound(start, releases[k]))
  }

  /** Evaluating one capability changes nothing for another, and asking again gives the same answer. */
  lemma EvaluationIsLocal(store: Store, i: Input, other: Input)
    ensures other.capabilityId != i.capabilityId ==>
              IsBound(Evaluated(store, i), other) == IsBound(store, other)
    ensures IsActive(i) ==> IsBound(Evaluated(store, i), i) == IsBound(store, i)
  {
  }

  lemma NextAnswers(start: Store, store: Store, releases: seq<Input>, i: Input)
    requires AnswersAreKept(start, store, releases) && IsNew(releases, i.capabilityId)
    ensures AnswersAreKept(start, Evaluated(store, i), releases + [i])
  {
    var all, store' := releases + [i], Evaluated(store, i);
    forall o: Input | IsNew(all, o.capabilityId) ensures IsBound(store', o) == IsBound(start, o) {
      assert all[|releases|] == i && forall k | 0 <= k < |releases| :: all[k] == releases[k];
      assert IsNew(releases, o.capabilityId);
      EvaluationIsLocal(store, i, o);
    }
    forall k | 0 <= k < |all| && IsActive(all[k]) ensures IsBound(store', all[k]) == IsBound(start, all[k]) {
      EvaluationIsLocal(store, i, all[k]);
    }
  }

  lemma SaysIsKept(inventory: Inventory, start: Store, store: Store, i: Input)
    requires IsActive(i) ==> IsBound(store, i) == IsBound(start, i)
    ensures Says(inventory, i, store) <==> Says(inventory, i, start)
  {
  }

  lemma ProjectionIsKept(inventory: Inventory, start: Store, store: Store, releases: seq<Input>)
    requires AnswersAreKept(start, store, releases)
    ensures Projected(inventory, releases, store) <==> Projected(inventory, releases, start)
  {
    forall k | 0 <= k < |releases| ensures Says(inventory, releases[k], store) <==> Says(inventory, releases[k], start) {
      SaysIsKept(inventory, start, store, releases[k]);
    }
  }

  ghost predicate Names(releases: seq<Input>, id: Text) {
    exists k | 0 <= k < |releases| :: releases[k].capabilityId == id
  }

  /** Every record is of a capability that was released. */
  ghost predicate Covers(releases: seq<Input>, records: seq<Record>) {
    forall k | 0 <= k < |records| :: Names(releases, records[k].capabilityId)
  }

  ghost predicate AreIdsOf(ids: set<Text>, releases: seq<Input>) {
    forall id :: id in ids <==> Names(releases, id)
  }

  lemma NextId(ids: set<Text>, releases: seq<Input>, i: Input)
    requires AreIdsOf(ids, releases)
    ensures AreIdsOf(ids + {i.capabilityId}, releases + [i])
    ensures i.capabilityId !in ids <==> IsNew(releases, i.capabilityId)
  {
    var all := releases + [i];
    forall id ensures id in ids + {i.capabilityId} <==> Names(all, id) {
      if id in ids {
        var k :| 0 <= k < |releases| && releases[k].capabilityId == id;
        assert all[k].capabilityId == id;
      }
      if id == i.capabilityId { assert all[|releases|].capabilityId == id; }
    }
  }

  /** One more release belongs to what is projected exactly when it is verified, new, and shown as it is. */
  lemma NextProjected(inventory: Inventory, releases: seq<Input>, i: Input, store: Store)
    requires Projected(inventory, releases, store)
    ensures Projected(inventory, releases + [i], store)
            <==> i.verified && IsNew(releases, i.capabilityId) && Says(inventory, i, store)
  {
    var all := releases + [i];
    assert all[|releases|] == i && forall k | 0 <= k < |releases| :: all[k] == releases[k];
  }

  /** What holds in the loop after the releases of `before`. */
  ghost predicate SoFar(inventory: Inventory, before: seq<Input>, ids: set<Text>, start: Store, store: Store) {
    Projected(inventory, before, start) && AreIdsOf(ids, before) && AnswersAreKept(start, store, before)
  }

  lemma NextTurn(inventory: Inventory, before: seq<Input>, i: Input, ids: set<Text>, start: Store, store: Store)
    requires SoFar(inventory, before, ids, start, store)
    ensures Projected(inventory, before + [i], start)
            <==> i.verified && i.capabilityId !in ids && Says(inventory, i, store)
    ensures Projected(inventory, before + [i], start)
            ==> SoFar(inventory, before + [i], ids + {i.capabilityId}, start, Evaluated(store, i))
  {
    NextId(ids, before, i);
    NextProjected(inventory, before, i, start);
    if IsNew(before, i.capabilityId) {
      NextAnswers(start, store, before, i);
      SaysIsKept(inventory, start, store, i);
    }
  }

  lemma StoppedIsNotProjected(inventory: Inventory, releases: seq<Input>, n: nat, store: Store)
    requires n <= |releases| && !Projected(inventory, releases[..n], store)
    ensures !Projected(inventory, releases, store)
  {
  }

  lemma HistoryNext(history: seq<Event>, done: seq<Event>, e: Event)
    ensures history + done + [e] == history + (done + [e])
  {
  }

  lemma NextEvaluation(releases: seq<Input>, k: nat)
    requires k < |releases|
    ensures releases[..k + 1] == releases[..k] + [releases[k]]
    ensures Evaluations(releases[..k + 1]) == Evaluations(releases[..k]) + [EvaluatedOnly(releases[k])]
  {
  }

  class AtomicReleaseRuntime {
    const controller: ReleaseController
    const maxAgeSeconds: nat
    var current: Option<Snapshot>

    /** The snapshot carries the time of its refresh. */
    ghost predicate Valid()
      reads this
    {
      current.Some? ==> IsUint256Decimal(current.value.refreshedAt)
    }

    constructor (controller: ReleaseController, maxAgeSeconds: nat)
      ensures Valid()
      ensures this.controller == controller && this.maxAgeSeconds == maxAgeSeconds && current.None?
    {
      this.controller := controller;
      this.maxAgeSeconds := maxAgeSeconds;
      current := None;
    }

    /** One turn of the loop. A release that is not verified never gets to the controller's store. */
    method EvaluateOne(inventory: Inventory, release: Input, ids: set<Text>, ghost before: seq<Input>, ghost start: Store)
      returns (ok: bool)
      requires controller.Valid() && SoFar(inventory, before, ids, start, controller.store)
      modifies controller
      ensures controller.Valid()
      ensures controller.history
              == if release.verified then old(controller.history) + [EvaluatedOnly(release)] else old(controller.history)
      ensures ok <==> Projected(inventory, before + [release], start)
      ensures ok ==> release.verified
      ensures ok ==> SoFar(inventory, before + [release], ids + {release.capabilityId}, start, controller.store)
    {
      ghost var store := controller.store;
      NextTurn(inventory, before, release, ids, start, store);
      var state := controller.Evaluate(release);
      if state.None? { return false; }
      MatchesSays(inventory, release, state.value, store);
      if state.value.capabilityId in ids || !Matches(inventory, release, state.value) { return false; }
      StoreAfterSnoc(old(controller.history), EvaluatedOnly(release));
      return true;
    }

    /** The loop over the releases. It stops at the first that throws; what was evaluated before stays evaluated. */
    method EvaluateAll(inventory: Inventory, releases: seq<Input>) returns (ok: bool, ids: set<Text>, ghost done: nat)
      requires controller.Valid()
      modifies controller
      ensures controller.Valid() && done <= |releases|
      ensures controller.history == old(controller.history) + Evaluations(releases[..done])
      ensures ok <==> Projected(inventory, releases, old(controller.store))
      ensures ok ==> done == |releases| && SoFar(inventory, releases, ids, old(controller.store), controller.store)
    {
      ids, done := {}, 0;
      ghost var start, history := controller.store, controller.history;
      for index := 0 to |releases|
        invariant controller.Valid() && done == index
        invariant controller.history == history + Evaluations(releases[..index])
        invariant SoFar(inventory, releases[..index], ids, start, controller.store)
      {
        ghost var before, more := releases[..index], releases[..index + 1];
        NextEvaluation(releases, index);
        ok := EvaluateOne(inventory, releases[index], ids, before, start);
        assert ok <==> Projected(inventory, more, start);
        HistoryNext(history, Evaluations(before), EvaluatedOnly(releases[index]));
        if releases[index].verified { done := index + 1; }
        if !ok {
          StoppedIsNotProjected(inventory, releases, index + 1, start);
          return;
        }
        ids := ids + {releases[index].capabilityId};
      }
      assert releases[..|releases|] == releases;
      ok := true;
    }

    /**
     `refresh` succeeds exactly when every release is verified and new, and the inventory shows for each, field by
     field, what the controller answers. One that throws leaves the snapshot alone, though intents may have been cleared
     by then. One that succeeds publishes what the controller answers from then on.
     */
    method Refresh(inventory: Inventory, releases: seq<Input>, refreshedAt: Text) returns (ok: bool, ghost done: nat)
      requires Valid() && controller.Valid()
      modifies this`current, controller
      ensures Valid() && controller.Valid() && done <= |releases|
      ensures controller.history == old(controller.history) + Evaluations(releases[..done])
      ensures ok <==> && IsUint256Decimal(refreshedAt) && IdsAreUnique(inventory.capabilities)
                      && |releases| == |inventory.capabilities| && Covers(releases, inventory.capabilities)
                      && Projected(inventory, releases, old(controller.store))
      ensures !ok ==> current == old(current)
      ensures ok ==> done == |releases| && current == Some(Snapshot(inventory, refreshedAt))
      ensures ok ==> Projected(inventory, releases, controller.store)
    {
      if !IsUint256Decimal(refreshedAt) || !IdsAreUnique(inventory.capabilities)
         || |releases| != |inventory.capabilities| {
        assert releases[..0] == [] && controller.history + Evaluations([]) == controller.history;
        return false, 0;
      }
      ghost var start := controller.store;
      var ids;
      ok, ids, done := EvaluateAll(inventory, releases);
      if !ok { return; }
      if exists k | 0 <= k < |inventory.capabilities| :: inventory.capabilities[k].capabilityId !in ids {
        return false, done;
      }
      current := Some(Snapshot(inventory, refreshedAt));
      ProjectionIsKept(inventory, start, controller.store, releases);
    }

    method ClearSnapshot()
      modifies this`current
      ensures Valid() && current.None?
    {
      current := None;
    }

    /** `snapshot`: the published inventory as long as it is fresh; `None` is a thrown error. */
    method Observe(observedAt: Text) returns (r: Option<Inventory>)
      requires Valid()
      ensures r.Some?
              <==> (&& IsUint256Decimal(observedAt) && current.Some?
                    && 0 <= DecimalValue(observedAt) - DecimalValue(current.value.refreshedAt) <= maxAgeSeconds)
      ensures r.Some? ==> r.value == current.value.inventory
    {
      if !IsUint256Decimal(observedAt) || current.None? { return None; }
      var observed, refreshed := DecimalValue(observedAt), DecimalValue(current.value.refreshedAt);
      if observed < refreshed { return None; }
      if observed - refreshed > maxAgeSeconds { return None; }
      return Some(current.value.inventory);
    }
  }

  /** The capabilities a snapshot calls callable are those the controller calls callable. */
  lemma PublishedIsDecided(inventory: Inventory, releases: seq<Input>, store: Store, id: Text)
    requires Projected(inventory, releases, store) && IdsAreUnique(inventory.capabilities)
    requires Covers(releases, inventory.capabilities)
    ensures (exists k | 0 <= k < |inventory.capabilities| ::
               inventory.capabilities[k].capabilityId == id && inventory.capabilities[k].callable)
            <==> (exists j | 0 <= j < |releases| :: releases[j].capabilityId == id && IsCallableNow(store, releases[j]))
  {
    var records := inventory.capabilities;
    if k :| 0 <= k < |records| && records[k].capabilityId == id && records[k].callable {
      assert Names(releases, records[k].capabilityId);
      var j :| 0 <= j < |releases| && releases[j].capabilityId == records[k].capabilityId;
      assert Says(inventory, releases[j], store);
      assert Find(records, id) == k;
    }
    if j :| 0 <= j < |releases| && releases[j].capabilityId == id && IsCallableNow(store, releases[j]) {
      assert Says(inventory, releases[j], store);
      assert records[Find(records, id)].callable;
    }
  }
}
