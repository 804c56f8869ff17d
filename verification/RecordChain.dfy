/**
 The hash-chained records of a legacy-data migration and the state machine they follow:
 planned, staged, activation-intent, owner-visible once per owner, active.
 */
module RecordChain {
  import opened Json

  type Sha = string

  datatype State = Planned | Staged | ActivationIntent | OwnerVisible | Active

  datatype Primitive = DarwinRename | LinuxRename | WindowsMove

  datatype PlannedOwner = PlannedOwner(
    id: string, stagePath: string, targetPath: string, targetParentDev: string, targetParentIno: string)

  datatype Plan = Plan(
    transactionId: string, userDataPath: string, hostScope: Sha, hostReceipt: Sha, owners: seq<PlannedOwner>)

  datatype StagedOwner = StagedOwner(id: string, manifest: Sha, dev: string, ino: string)

  datatype Receipt = Receipt(
    requestSha: Sha, primitive: Primitive, stageDev: string, stageIno: string, targetDev: string,
    targetIno: string, targetParentDev: string, targetParentIno: string, durablySynced: bool)

  datatype Request = Request(
    primitive: Primitive, hostScope: Sha, hostReceipt: Sha, transactionId: string, ownerId: string,
    stagePath: string, targetPath: string, stageDev: string, stageIno: string, targetParentDev: string,
    targetParentIno: string, manifest: Sha)

  /** `Malformed` is a payload that fails the key, type, path, digest-shape or snapshot checks. */
  datatype Payload =
    | PlanPayload(plan: Plan)
    | StagedPayload(owners: seq<StagedOwner>, settingsRewritten: bool)
    | IntentPayload(stagedSha: Sha)
    | VisiblePayload(ownerId: string, manifest: Sha, dev: string, ino: string, receipt: Receipt)
    | ActivePayload(activatedAt: string, planSha: Sha, activeStagedSha: Sha)
    | Malformed

  datatype Record = Record(transactionId: string, sequence: nat, state: State, previous: Sha, payload: Payload)

  /** A record with the digest of the file that holds it. */
  datatype Entry = Entry(sha: Sha, record: Record)

  /** The digest of an activation request. */
  type RequestSha = Request -> Sha

  // ---------------------------------------------------------------- what an accepted chain is

  ghost predicate WellFormedPlan(plan: Plan) {
    && |plan.owners| > 0
    && forall i, j :: 0 <= i < j < |plan.owners| ==> plan.owners[i].id != plan.owners[j].id
  }

  ghost predicate Linked(es: seq<Entry>) {
    && (forall i :: 0 <= i < |es| ==> es[i].record.sequence == i)
    && (|es| > 0 ==> es[0].record.state == Planned && es[0].record.previous == "")
    && (forall i :: 0 < i < |es| ==>
          && es[i].record.transactionId == es[i - 1].record.transactionId
          && es[i].record.previous == es[i - 1].sha)
  }

  ghost predicate StagedFor(record: Record, plan: Plan) {
    && record.state == Staged
    && record.payload.StagedPayload?
    && |record.payload.owners| == |plan.owners|
    && forall k :: 0 <= k < |plan.owners| ==> record.payload.owners[k].id == plan.owners[k].id
  }

  function RequestFor(plan: Plan, transactionId: string, owner: PlannedOwner, staged: StagedOwner,
                      p: Primitive): Request {
    Request(p, plan.hostScope, plan.hostReceipt, transactionId, owner.id, owner.stagePath, owner.targetPath,
            staged.dev, staged.ino, owner.targetParentDev, owner.targetParentIno, staged.manifest)
  }

  predicate ReceiptFor(receipt: Receipt, transactionId: string, plan: Plan, owner: PlannedOwner,
                       staged: StagedOwner, requestSha: RequestSha) {
    && receipt.stageDev == staged.dev
    && receipt.stageIno == staged.ino
    && receipt.targetDev == staged.dev
    && receipt.targetIno == staged.ino
    && receipt.targetParentDev == owner.targetParentDev
    && receipt.targetParentIno == owner.targetParentIno
    && receipt.durablySynced
    && receipt.requestSha == requestSha(RequestFor(plan, transactionId, owner, staged, receipt.primitive))
  }

  /** Owner `owner` is visible at its target, with the device, inode and manifest of its stage. */
  ghost predicate VisibleFor(record: Record, plan: Plan, owner: PlannedOwner, staged: StagedOwner,
                             requestSha: RequestSha) {
    && record.state == OwnerVisible
    && record.payload.VisiblePayload?
    && record.payload.ownerId == owner.id
    && record.payload.manifest == staged.manifest
    && record.payload.dev == staged.dev
    && record.payload.ino == staged.ino
    && ReceiptFor(record.payload.receipt, record.transactionId, plan, owner, staged, requestSha)
  }

  ghost predicate ActiveFor(record: Record, planSha: Sha, stagedSha: Sha) {
    && record.state == Active
    && record.payload.ActivePayload?
    && record.payload.planSha == planSha
    && record.payload.activeStagedSha == stagedSha
  }

  ghost predicate Begins(es: seq<Entry>) {
    && |es| > 0
    && Linked(es)
    && es[0].record.payload.PlanPayload?
    && WellFormedPlan(es[0].record.payload.plan)
    && es[0].record.payload.plan.transactionId == es[0].record.transactionId
  }

  /** What record `i` must be, as a function of its position alone. */
  ghost predicate Position(es: seq<Entry>, i: nat, requestSha: RequestSha)
    requires Begins(es) && 0 < i < |es|
    decreases i
  {
    var plan := es[0].record.payload.plan;
    var n := |plan.owners|;
    if i == 1 then StagedFor(es[1].record, plan)
    else
      && StagedFor(es[1].record, plan)
      && if i == 2 then
           es[2].record.state == ActivationIntent && es[2].record.payload == IntentPayload(es[1].sha)
         else if i < n + 3 then
           VisibleFor(es[i].record, plan, plan.owners[i - 3], es[1].record.payload.owners[i - 3], requestSha)
         else
           i == n + 3 && ActiveFor(es[i].record, es[0].sha, es[1].sha)
  }

  ghost predicate Accepted(es: seq<Entry>, requestSha: RequestSha) {
    && Begins(es)
    && forall i :: 0 < i < |es| ==> Position(es, i, requestSha)
  }

  // ---------------------------------------------------------------- the checker

  method LinksHold(es: seq<Entry>) returns (ok: bool)
    requires |es| > 0
    ensures ok <==> Linked(es)
  {
    var i := 0;
    while i < |es|
      invariant 0 <= i <= |es|
      invariant Linked(es[..i])
    {
      var record := es[i].record;
      if record.sequence != i {
        return false;
      }
      if i == 0 {
        if record.state != Planned || record.previous != "" {
          return false;
        }
      } else if record.transactionId != es[i - 1].record.transactionId || record.previous != es[i - 1].sha {
        return false;
      }
      i := i + 1;
    }
    assert es[..|es|] == es;
    return true;
  }

  method PlanIsWellFormed(plan: Plan) returns (ok: bool)
    ensures ok <==> WellFormedPlan(plan)
  {
    if |plan.owners| == 0 {
      return false;
    }
    var ids: set<string> := {};
    var i := 0;
    while i < |plan.owners|
      invariant 0 <= i <= |plan.owners|
      invariant ids == set k | 0 <= k < i :: plan.owners[k].id
      invariant forall j, k :: 0 <= j < k < i ==> plan.owners[j].id != plan.owners[k].id
    {
      if plan.owners[i].id in ids {
        return false;
      }
      ids := ids + {plan.owners[i].id};
      i := i + 1;
    }
    return true;
  }

  /** The staged owners by id, when they name the planned owners in order. */
  method StagedById(payload: Payload, plan: Plan) returns (ok: bool, byId: map<string, StagedOwner>)
    requires WellFormedPlan(plan)
    ensures ok <==> payload.StagedPayload? && |payload.owners| == |plan.owners| &&
                    forall k :: 0 <= k < |plan.owners| ==> payload.owners[k].id == plan.owners[k].id
    ensures ok ==> forall k :: 0 <= k < |plan.owners| ==>
                     plan.owners[k].id in byId && byId[plan.owners[k].id] == payload.owners[k]
  {
    byId := map[];
    if !payload.StagedPayload? || |payload.owners| != |plan.owners| {
      return false, byId;
    }
    var k := 0;
    while k < |plan.owners|
      invariant 0 <= k <= |plan.owners|
      invariant forall j :: 0 <= j < k ==>
                  && payload.owners[j].id == plan.owners[j].id
                  && plan.owners[j].id in byId && byId[plan.owners[j].id] == payload.owners[j]
    {
      if payload.owners[k].id != plan.owners[k].id {
        return false, byId;
      }
      byId := byId[payload.owners[k].id := payload.owners[k]];
      k := k + 1;
    }
    return true, byId;
  }

  /** Owner-visible payload against the next planned owner, looked up by id in the staged owners. */
  method VisibleHolds(record: Record, plan: Plan, owner: PlannedOwner, byId: map<string, StagedOwner>,
                      requestSha: RequestSha)
    returns (ok: bool)
    requires record.state == OwnerVisible && owner.id in byId
    ensures ok <==> VisibleFor(record, plan, owner, byId[owner.id], requestSha)
  {
    if !record.payload.VisiblePayload? || record.payload.ownerId != owner.id || record.payload.ownerId !in byId {
      return false;
    }
    var staged := byId[record.payload.ownerId];
    ok := record.payload.manifest == staged.manifest && record.payload.dev == staged.dev
          && record.payload.ino == staged.ino
          && ReceiptFor(record.payload.receipt, record.transactionId, plan, owner, staged, requestSha);
  }

  /** `validateRecordChain`: walks the chain with an expected state and a count of visible owners. */
  method ValidateRecordChain(es: seq<Entry>, requestSha: RequestSha) returns (r: Option<Plan>)
    ensures r.Some? <==> Accepted(es, requestSha)
    ensures r.Some? ==> r.value == es[0].record.payload.plan
  {
    if |es| == 0 {
      return None;
    }
    var linked := LinksHold(es);
    if !linked || !es[0].record.payload.PlanPayload? {
      return None;
    }
    var plan := es[0].record.payload.plan;
    var wellFormed := PlanIsWellFormed(plan);
    if !wellFormed || plan.transactionId != es[0].record.transactionId {
      return None;
    }
    ghost var n := |plan.owners|;
    var expected, visible, stagedSha, active := Staged, 0, "", false;
    var byId: map<string, StagedOwner> := map[];
    var i := 1;
    while i < |es|
      invariant 1 <= i <= |es| && i <= n + 4
      invariant forall j :: 0 < j < i ==> Position(es, j, requestSha)
      invariant expected == if i == 1 then Staged else if i == 2 then ActivationIntent
                            else if i < n + 3 then OwnerVisible else Active
      invariant visible == if i <= 3 then 0 else if i <= n + 3 then i - 3 else n
      invariant active <==> i == n + 4
      invariant i > 1 ==> StagedFor(es[1].record, plan) && stagedSha == es[1].sha
      invariant i > 1 ==> forall k :: 0 <= k < n ==>
                  plan.owners[k].id in byId && byId[plan.owners[k].id] == es[1].record.payload.owners[k]
    {
      var record := es[i].record;
      ghost var claim := Position(es, i, requestSha);
      if active {
        return None;
      }
      if record.state != expected {
        return None;
      }
      match record.state {
        case Planned =>
        case Staged =>
          var ok;
          ok, byId := StagedById(record.payload, plan);
          if !ok {
            return None;
          }
          stagedSha := es[i].sha;
          expected := ActivationIntent;
        case ActivationIntent =>
          if record.payload != IntentPayload(stagedSha) {
            return None;
          }
          expected := OwnerVisible;
        case OwnerVisible =>
          var ok := VisibleHolds(record, plan, plan.owners[visible], byId, requestSha);
          if !ok {
            return None;
          }
          visible := visible + 1;
          expected := if visible == |plan.owners| then Active else OwnerVisible;
        case Active =>
          if !record.payload.ActivePayload? || record.payload.planSha != es[0].sha
             || record.payload.activeStagedSha != stagedSha {
            return None;
          }
          active := true;
      }
      assert claim;
      i := i + 1;
    }
    return Some(plan);
  }

  // ---------------------------------------------------------------- properties of accepted chains

  /** The state of a record is a function of its position and the number of owners. */
  function StateAt(i: nat, owners: nat): State {
    if i == 0 then Planned else if i == 1 then Staged else if i == 2 then ActivationIntent
    else if i < owners + 3 then OwnerVisible else Active
  }

  lemma StatesByPosition(es: seq<Entry>, requestSha: RequestSha)
    requires Accepted(es, requestSha)
    ensures |es| <= |es[0].record.payload.plan.owners| + 4
    ensures forall i :: 0 <= i < |es| ==> es[i].record.state == StateAt(i, |es[0].record.payload.plan.owners|)
  {
    forall i | 0 < i < |es|
      ensures i <= |es[0].record.payload.plan.owners| + 3
      ensures es[i].record.state == StateAt(i, |es[0].record.payload.plan.owners|)
    {
      assert Position(es, i, requestSha);
    }
    var last := es[|es| - 1].record.state;
  }

  /**
   `active` can only be the last record, and then every planned owner became visible exactly once,
   in plan order, with the device, inode and manifest it was staged with.
   */
  lemma ActivationSafety(es: seq<Entry>, requestSha: RequestSha, i: nat)
    requires Accepted(es, requestSha) && i < |es| && es[i].record.state == Active
    ensures i == |es| - 1
    ensures var plan := es[0].record.payload.plan;
            && |es| == |plan.owners| + 4
            && StagedFor(es[1].record, plan)
            && (forall k :: 0 <= k < |plan.owners| ==>
                 VisibleFor(es[3 + k].record, plan, plan.owners[k], es[1].record.payload.owners[k], requestSha))
            && (forall k, j :: 0 <= k < |plan.owners| && 0 <= j < |es| && es[j].record.state == OwnerVisible &&
                  es[j].record.payload.VisiblePayload? && es[j].record.payload.ownerId == plan.owners[k].id
                  ==> j == 3 + k)
            && ActiveFor(es[i].record, es[0].sha, es[1].sha)
  {
    StatesByPosition(es, requestSha);
    var plan := es[0].record.payload.plan;
    assert Position(es, i, requestSha);
    forall k | 0 <= k < |plan.owners|
      ensures VisibleFor(es[3 + k].record, plan, plan.owners[k], es[1].record.payload.owners[k], requestSha)
    {
      assert Position(es, 3 + k, requestSha);
    }
    forall k, j | 0 <= k < |plan.owners| && 0 <= j < |es| && es[j].record.state == OwnerVisible &&
                  es[j].record.payload.VisiblePayload? && es[j].record.payload.ownerId == plan.owners[k].id
      ensures j == 3 + k
    {
      assert j > 0 && Position(es, j, requestSha);
    }
  }

  /** Every nonempty prefix of an accepted chain is accepted. */
  lemma PrefixAccepted(es: seq<Entry>, requestSha: RequestSha, n: nat)
    requires Accepted(es, requestSha) && 0 < n <= |es|
    ensures Accepted(es[..n], requestSha)
  {
    assert Begins(es[..n]);
    forall i | 0 < i < n ensures Position(es[..n], i, requestSha) {
      assert Position(es, i, requestSha);
    }
  }

  /** The digest of the last record is not yet bound by anything, so it does not matter. */
  lemma LastShaIsFree(es: seq<Entry>, e: Entry, sha: Sha, requestSha: RequestSha)
    requires Accepted(es + [e], requestSha)
    ensures Accepted(es + [e.(sha := sha)], requestSha)
  {
    var a, b := es + [e], es + [e.(sha := sha)];
    assert forall i :: 0 <= i < |a| ==> a[i].record == b[i].record && (i < |es| ==> a[i] == b[i]);
    assert Begins(b);
    forall i | 0 < i < |b| ensures Position(b, i, requestSha) {
      assert Position(a, i, requestSha);
    }
  }

  /**
   With a collision-free digest the receipt of a visible owner fixes the whole activation request:
   scope, transaction, paths, staged identity and manifest.
   */
  lemma ReceiptFixesRequest(es: seq<Entry>, fs: seq<Entry>, requestSha: RequestSha, i: nat, j: nat)
    requires forall a, b :: requestSha(a) == requestSha(b) ==> a == b
    requires Accepted(es, requestSha) && Accepted(fs, requestSha)
    requires i < |es| && j < |fs| && es[i].record.state == OwnerVisible && fs[j].record.state == OwnerVisible
    requires es[i].record.payload.VisiblePayload? && fs[j].record.payload.VisiblePayload?
    requires es[i].record.payload.receipt.requestSha == fs[j].record.payload.receipt.requestSha
    ensures es[i].record.transactionId == fs[j].record.transactionId
    ensures es[i].record.payload.ownerId == fs[j].record.payload.ownerId
    ensures es[i].record.payload.manifest == fs[j].record.payload.manifest
    ensures es[i].record.payload.dev == fs[j].record.payload.dev
    ensures es[i].record.payload.ino == fs[j].record.payload.ino
    ensures 3 <= i < |es[0].record.payload.plan.owners| + 3 && 3 <= j < |fs[0].record.payload.plan.owners| + 3
    ensures es[0].record.payload.plan.owners[i - 3].targetPath == fs[0].record.payload.plan.owners[j - 3].targetPath
  {
    StatesByPosition(es, requestSha);
    StatesByPosition(fs, requestSha);
    assert Position(es, i, requestSha) && Position(fs, j, requestSha);
    var p, q := es[0].record.payload.plan, fs[0].record.payload.plan;
    var a := RequestFor(p, es[i].record.transactionId, p.owners[i - 3], es[1].record.payload.owners[i - 3],
                        es[i].record.payload.receipt.primitive);
    var b := RequestFor(q, fs[j].record.transactionId, q.owners[j - 3], fs[1].record.payload.owners[j - 3],
                        fs[j].record.payload.receipt.primitive);
    assert requestSha(a) == requestSha(b);
  }
}
