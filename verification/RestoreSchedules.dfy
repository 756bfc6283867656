/**
 Schedules: what the service does and which of its calls fail, with the guest's memory left open.
 Whether a schedule restores exactly for every guest shows in ids alone, without any memory.
 */
module RestoreSchedules {
  import opened Wrappers
  import opened SparseIO
  import opened SnapshotForest
  import opened Restore
  import opened RestoreExact

  datatype Plan =
    | Take(id: SnapshotId, vm: VmId, tooOld: bool, extractOk: bool, uploadOk: bool, recordOk: bool)
    | Drop(id: SnapshotId, left: Leftover, repoFails: bool)
    | Load(vm: VmId)

  /** A state without its images: rows, which objects and manifests exist, each VM's last snapshot, ids in use. */
  datatype Ledger = Ledger(snaps: Table, stored: set<SnapshotId>, manifests: set<SnapshotId>,
                           last: map<VmId, SnapshotId>, used: set<SnapshotId>, clock: nat)

  ghost function LedgerOf(w: World): Ledger {
    Ledger(w.snaps, w.objects.Keys, (set id | id in w.objects && w.objects[id].manifest.Some?), w.last, w.taken.Keys, w.clock)
  }

  ghost predicate Available(l: Ledger, c: seq<Snapshot>) {
    forall k :: 0 <= k < |c| ==> c[k].id in l.stored && (k < |c| - 1 ==> c[k].id in l.manifests)
  }

  ghost predicate Usable(l: Ledger, id: SnapshotId) {
    id in l.snaps && Acyclic(l.snaps) && OlderParent(l.snaps, l.snaps[id]) && Available(l, ChainOf(l.snaps, l.snaps[id]))
  }

  lemma {:induction false} UsableIsRestorable(w: World, id: SnapshotId)
    ensures Usable(LedgerOf(w), id) <==> Restorable(w, id)
  {
  }

  ghost function PlannedRow(cfg: Config, diffVms: set<VmId>, l: Ledger, plan: Plan): Snapshot
    requires plan.Take?
  {
    NewSnapshot(cfg, Latest(l.snaps, plan.vm), plan.id, plan.vm, plan.vm in diffVms, plan.tooOld, l.clock)
  }

  ghost function Next(cfg: Config, diffVms: set<VmId>, l: Ledger, plan: Plan): Ledger {
    match plan
    case Take(id, vm, _, extractOk, uploadOk, recordOk) =>
      var s := PlannedRow(cfg, diffVms, l, plan);
      Ledger(if recordOk then l.snaps[id := s] else l.snaps,
             if uploadOk then l.stored + {id} else l.stored,
             if uploadOk && extractOk && s.kind.Incremental? then l.manifests + {id} else l.manifests,
             l.last[vm := id], l.used + {id}, l.clock + 1)
    case Drop(id, left, repoFails) =>
      if !Deletable(l.snaps, id) then l
      else l.(snaps := if repoFails then l.snaps else l.snaps - {id},
              stored := if left.Nothing? then l.stored - {id} else l.stored,
              manifests := if left.Everything? then l.manifests else l.manifests - {id})
    case Load(vm) =>
      match Latest(l.snaps, vm)
      case None => l
      case Some(s) => if Usable(l, s.id) then l.(last := l.last[vm := s.id]) else l
  }

  ghost predicate FreshIds(cfg: Config, diffVms: set<VmId>, l: Ledger, plans: seq<Plan>)
    decreases |plans|
  {
    plans == [] ||
    ((plans[0].Take? ==> plans[0].id !in l.used && plans[0].id !in l.snaps && plans[0].id !in l.stored)
     && FreshIds(cfg, diffVms, Next(cfg, diffVms, l, plans[0]), plans[1..]))
  }

  // ------------------------------------------------------------------ realisations

  /** The step does what the plan says, on a guest that wrote something, with working seeks. */
  ghost predicate Realises(step: Step, plan: Plan) {
    match plan
    case Take(id, vm, tooOld, extractOk, uploadOk, recordOk) =>
      && step.Create? && step.id == id && step.vm == vm
      && step.capture == Capture(step.capture.image, tooOld, extractOk, uploadOk, recordOk)
      && step.capture.image.Valid() && SeeksWork(step.capture.image) && RegionsFrom(step.capture.image, 0) != []
    case Drop(id, left, repoFails) => step == Delete(id, left, repoFails)
    case Load(vm) => step == Resume(vm)
  }

  ghost predicate RealisesAll(cfg: Config, diffVms: set<VmId>, w: World, steps: seq<Step>, plans: seq<Plan>)
    decreases |plans|
  {
    |steps| == |plans| &&
    (plans == [] ||
     (Realises(steps[0], plans[0]) && Enabled(diffVms, w, steps[0])
      && RealisesAll(cfg, diffVms, Apply(cfg, diffVms, w, steps[0]), steps[1..], plans[1..])))
  }

  lemma {:induction false} RealisationIsValid(cfg: Config, diffVms: set<VmId>, w: World, steps: seq<Step>, plans: seq<Plan>)
    requires RealisesAll(cfg, diffVms, w, steps, plans)
    ensures ValidRun(cfg, diffVms, w, steps)
    decreases |plans|
  {
    if plans != [] {
      RealisationIsValid(cfg, diffVms, Apply(cfg, diffVms, w, steps[0]), steps[1..], plans[1..]);
    }
  }

  /** Images play no part in what becomes of the ledger. */
  lemma {:induction false} LedgerFollows(cfg: Config, diffVms: set<VmId>, w: World, step: Step, plan: Plan)
    requires Inv(cfg, diffVms, w) && Enabled(diffVms, w, step) && Realises(step, plan)
    ensures LedgerOf(Apply(cfg, diffVms, w, step)) == Next(cfg, diffVms, LedgerOf(w), plan)
  {
    match plan {
      case Take(_, _, _, _, _, _) => TakeFollows(cfg, diffVms, w, step, plan);
      case Drop(id, left, repoFails) => DropFollows(cfg, diffVms, w, id, left, repoFails);
      case Load(vm) =>
        LoadFollows(cfg, diffVms, w, vm);
    }
  }

  lemma {:induction false} TakeFollows(cfg: Config, diffVms: set<VmId>, w: World, step: Step, plan: Plan)
    requires Enabled(diffVms, w, step) && Realises(step, plan) && plan.Take?
    ensures LedgerOf(Apply(cfg, diffVms, w, step)) == Next(cfg, diffVms, LedgerOf(w), plan)
  {
    var l', next := LedgerOf(Apply(cfg, diffVms, w, step)), Next(cfg, diffVms, LedgerOf(w), plan);
    assert l'.manifests == next.manifests;
  }

  lemma {:induction false} DropFollows(cfg: Config, diffVms: set<VmId>, w: World, id: SnapshotId, left: Leftover, repoFails: bool)
    ensures LedgerOf(ApplyDelete(w, id, left, repoFails)) == Next(cfg, diffVms, LedgerOf(w), Drop(id, left, repoFails))
  {
    var l', next := LedgerOf(ApplyDelete(w, id, left, repoFails)), Next(cfg, diffVms, LedgerOf(w), Drop(id, left, repoFails));
    assert l'.stored == next.stored && l'.manifests == next.manifests;
  }

  lemma {:induction false} LoadFollows(cfg: Config, diffVms: set<VmId>, w: World, vm: VmId)
    requires Inv(cfg, diffVms, w)
    ensures LedgerOf(ApplyResume(w, vm)) == Next(cfg, diffVms, LedgerOf(w), Load(vm))
  {
    if Latest(w.snaps, vm).Some? {
      var newest := Newest(w.snaps, OfVm(w.snaps, vm));
      assert Row(cfg, w.snaps, w.clock, newest);
      RestoredIff(cfg, diffVms, w, newest);
      UsableIsRestorable(w, newest);
    }
  }

  // ------------------------------------------------------------------ the condition

  /** The capture is a diff, and a restore can come to use it. */
  ghost predicate Matters(cfg: Config, diffVms: set<VmId>, l: Ledger, plan: Plan) {
    plan.Take? && plan.vm in diffVms && plan.recordOk && plan.uploadOk &&
    var s := PlannedRow(cfg, diffVms, l, plan);
    s.parent.Some? ==> plan.extractOk && Usable(l, s.parent.value)
  }

  ghost predicate Good(cfg: Config, diffVms: set<VmId>, l: Ledger, plan: Plan) {
    Matters(cfg, diffVms, l, plan) ==> Synced(l.snaps, l.last, plan.vm)
  }

  ghost predicate AllGood(cfg: Config, diffVms: set<VmId>, l: Ledger, plans: seq<Plan>)
    decreases |plans|
  {
    plans == [] || (Good(cfg, diffVms, l, plans[0]) && AllGood(cfg, diffVms, Next(cfg, diffVms, l, plans[0]), plans[1..]))
  }

  lemma {:induction false} MattersIff(cfg: Config, diffVms: set<VmId>, w: World, step: Step, plan: Plan)
    requires Enabled(diffVms, w, step) && Realises(step, plan) && plan.Take?
    ensures Matters(cfg, diffVms, LedgerOf(w), plan) <==>
              plan.vm in diffVms && NewRestorable(w, Planned(cfg, diffVms, w, plan.id, plan.vm, plan.tooOld), step.capture)
  {
    var s := Planned(cfg, diffVms, w, plan.id, plan.vm, plan.tooOld);
    if s.parent.Some? {
      UsableIsRestorable(w, s.parent.value);
    }
  }

  lemma {:induction false} GoodStepKeepsExact(cfg: Config, diffVms: set<VmId>, w: World, step: Step, plan: Plan)
    requires Inv(cfg, diffVms, w) && Exact(w) && Tied(w) && Enabled(diffVms, w, step) && Realises(step, plan)
    requires Good(cfg, diffVms, LedgerOf(w), plan)
    ensures var w' := Apply(cfg, diffVms, w, step); Inv(cfg, diffVms, w') && Exact(w') && Tied(w')
  {
    StepKeepsInv(cfg, diffVms, w, step);
    StepKeepsTied(cfg, diffVms, w, step);
    StepExactIff(cfg, diffVms, w, step);
    if plan.Take? {
      MattersIff(cfg, diffVms, w, step, plan);
      if Matters(cfg, diffVms, LedgerOf(w), plan) {
        SyncedLosesNothing(cfg, diffVms, w, step);
      }
    }
  }

  lemma {:induction false} GoodScheduleIsExact(cfg: Config, diffVms: set<VmId>, w: World, steps: seq<Step>, plans: seq<Plan>)
    requires Inv(cfg, diffVms, w) && Exact(w) && Tied(w)
    requires RealisesAll(cfg, diffVms, w, steps, plans) && AllGood(cfg, diffVms, LedgerOf(w), plans)
    ensures ValidRun(cfg, diffVms, w, steps) && AlwaysExact(cfg, diffVms, w, steps)
    decreases |plans|
  {
    if plans != [] {
      LedgerFollows(cfg, diffVms, w, steps[0], plans[0]);
      GoodStepKeepsExact(cfg, diffVms, w, steps[0], plans[0]);
      GoodScheduleIsExact(cfg, diffVms, Apply(cfg, diffVms, w, steps[0]), steps[1..], plans[1..]);
    }
  }

  // ------------------------------------------------------------------ a guest for every bad schedule

  /** Memory with a single one, at byte j. */
  function Hot(n: nat, j: nat): (m: seq<Byte>)
    ensures |m| == n && forall i :: 0 <= i < n ==> m[i] == if i == j then 1 else 0
  {
    seq(n, i => if i == j then 1 else 0)
  }

  /** So far the k-th capture found the guest with its one at byte k. */
  ghost predicate HotWorld(w: World, n: nat, k: nat, at: map<SnapshotId, nat>) {
    && at.Keys == w.taken.Keys && k <= n
    && (forall id :: id in at ==> at[id] < k && w.taken[id] == Hot(n, at[id]))
    && (forall a, b :: a in at && b in at && at[a] == at[b] ==> a == b)
  }

  ghost predicate Sized(w: World, n: nat) {
    (forall id :: id in w.taken ==> |w.taken[id]| == n) && (forall vm :: vm in w.base ==> |w.base[vm]| == n)
  }

  lemma {:induction false} StepKeepsSized(cfg: Config, diffVms: set<VmId>, w: World, step: Step, n: nat)
    requires Inv(cfg, diffVms, w) && Sized(w, n) && Enabled(diffVms, w, step) && (step.Create? ==> |step.memory| == n)
    ensures Sized(Apply(cfg, diffVms, w, step), n)
  {
    if step.Resume? && Latest(w.snaps, step.vm).Some? {
      var newest := Newest(w.snaps, OfVm(w.snaps, step.vm));
      assert Row(cfg, w.snaps, w.clock, newest);
      RestoredIff(cfg, diffVms, w, newest);
    }
  }

  /** The plan carried out on a guest with this memory, all of which the diff holds. */
  function Honest(plan: Plan, memory: seq<Byte>): Step {
    match plan
    case Take(id, vm, tooOld, extractOk, uploadOk, recordOk) =>
      Create(id, vm, memory, Capture(Extent(memory, 0, |memory|), tooOld, extractOk, uploadOk, recordOk))
    case Drop(id, left, repoFails) => Delete(id, left, repoFails)
    case Load(vm) => Resume(vm)
  }

  lemma {:induction false} HonestIsEnabled(cfg: Config, diffVms: set<VmId>, w: World, plan: Plan, memory: seq<Byte>)
    requires Sized(w, |memory|) && memory != [] && FreshIds(cfg, diffVms, LedgerOf(w), [plan])
    ensures Enabled(diffVms, w, Honest(plan, memory)) && Realises(Honest(plan, memory), plan)
  {
    if plan.Take? {
      ExtentWorks(memory, 0, |memory|);
      var image := Extent(memory, 0, |memory|);
      assert image.bytes == memory;
      assert Captures(Base(w, plan.vm, |memory|), memory, image);
    }
  }

  lemma {:induction false} FreshHead(cfg: Config, diffVms: set<VmId>, l: Ledger, plans: seq<Plan>)
    requires plans != [] && FreshIds(cfg, diffVms, l, plans)
    ensures FreshIds(cfg, diffVms, l, [plans[0]]) && FreshIds(cfg, diffVms, Next(cfg, diffVms, l, plans[0]), plans[1..])
  {
    assert [plans[0]][1..] == [];
  }

  /** Any schedule can be carried out. */
  lemma {:induction false} SomeRealisation(cfg: Config, diffVms: set<VmId>, w: World, plans: seq<Plan>, n: nat) returns (steps: seq<Step>)
    requires Inv(cfg, diffVms, w) && Sized(w, n) && 0 < n && FreshIds(cfg, diffVms, LedgerOf(w), plans)
    ensures RealisesAll(cfg, diffVms, w, steps, plans)
    decreases |plans|
  {
    steps := [];
    if plans != [] {
      var step := Honest(plans[0], Hot(n, 0));
      FreshHead(cfg, diffVms, LedgerOf(w), plans);
      HonestIsEnabled(cfg, diffVms, w, plans[0], Hot(n, 0));
      LedgerFollows(cfg, diffVms, w, step, plans[0]);
      StepKeepsInv(cfg, diffVms, w, step);
      StepKeepsSized(cfg, diffVms, w, step, n);
      var rest := SomeRealisation(cfg, diffVms, Apply(cfg, diffVms, w, step), plans[1..], n);
      steps := [step] + rest;
      assert steps[1..] == rest;
    }
  }

  /** Where the newest row is not the last capture or restore, their images differ somewhere. */
  lemma {:induction false} OutOfStepDiffers(cfg: Config, diffVms: set<VmId>, w: World, plan: Plan, n: nat, k: nat, at: map<SnapshotId, nat>) returns (i: nat)
    requires Inv(cfg, diffVms, w) && Tied(w) && HotWorld(w, n, k, at) && plan.Take? && plan.vm in diffVms && !Synced(w.snaps, w.last, plan.vm)
    ensures plan.vm in w.base && |w.base[plan.vm]| == n
    ensures var root := Root(w, Planned(cfg, diffVms, w, plan.id, plan.vm, plan.tooOld), n);
            i < n && |root| == n && root[i] != w.base[plan.vm][i]
  {
    if Latest(w.snaps, plan.vm).Some? {
      var newest := Newest(w.snaps, OfVm(w.snaps, plan.vm));
      assert Row(cfg, w.snaps, w.clock, newest) && Stored(diffVms, w, newest);
      i := at[newest];
    } else {
      i := at[w.last[plan.vm]];
    }
  }

  /** A guest that wrote one byte, not the i-th, since the last capture: the create loses byte i. */
  lemma {:induction false} LosingGuest(cfg: Config, diffVms: set<VmId>, w: World, plan: Plan, n: nat, i: nat) returns (step: Step)
    requires Inv(cfg, diffVms, w) && Exact(w) && plan.Take? && Matters(cfg, diffVms, LedgerOf(w), plan)
    requires FreshIds(cfg, diffVms, LedgerOf(w), [plan]) && 1 < n && plan.vm in w.base && |w.base[plan.vm]| == n
    requires var root := Root(w, Planned(cfg, diffVms, w, plan.id, plan.vm, plan.tooOld), n);
             i < n && |root| == n && root[i] != w.base[plan.vm][i]
    ensures Realises(step, plan) && Enabled(diffVms, w, step) && !Exact(Apply(cfg, diffVms, w, step))
    ensures step.Create? && |step.memory| == n
  {
    var base := w.base[plan.vm];
    var d := if i == 0 then 1 else 0;
    var image := Extent(base, d, d + 1);
    ExtentWorks(base, d, d + 1);
    step := Create(plan.id, plan.vm, base, Capture(image, plan.tooOld, plan.extractOk, plan.uploadOk, plan.recordOk));
    assert Captures(base, base, image);
    MattersIff(cfg, diffVms, w, step, plan);
    LosesAtIff(cfg, diffVms, w, step, i);
    assert LosesAt(w, Planned(cfg, diffVms, w, plan.id, plan.vm, plan.tooOld), base, image, i);
    CreateExactIff(cfg, diffVms, w, step);
  }

  lemma {:induction false} HotGoesOn(cfg: Config, diffVms: set<VmId>, w: World, plan: Plan, n: nat, k: nat, at: map<SnapshotId, nat>)
    requires HotWorld(w, n, k, at) && k < n && FreshIds(cfg, diffVms, LedgerOf(w), [plan]) && Extent(Hot(n, k), 0, n).Valid()
    ensures HotWorld(Apply(cfg, diffVms, w, Honest(plan, Hot(n, k))), n, k + 1, if plan.Take? then at[plan.id := k] else at)
  {
  }

  lemma {:induction false} HotIsSized(w: World, n: nat, k: nat, at: map<SnapshotId, nat>)
    requires HotWorld(w, n, k, at) && Tied(w)
    ensures Sized(w, n)
  {
  }

  /** A schedule that is not good has a guest for which a restore goes wrong. */
  lemma {:induction false} BadScheduleHasGuest(cfg: Config, diffVms: set<VmId>, w: World, plans: seq<Plan>, n: nat, k: nat, at: map<SnapshotId, nat>)
    returns (steps: seq<Step>)
    requires Inv(cfg, diffVms, w) && Exact(w) && Tied(w) && HotWorld(w, n, k, at) && k + |plans| < n && 1 < n
    requires FreshIds(cfg, diffVms, LedgerOf(w), plans) && !AllGood(cfg, diffVms, LedgerOf(w), plans)
    ensures RealisesAll(cfg, diffVms, w, steps, plans) && ValidRun(cfg, diffVms, w, steps) && !AlwaysExact(cfg, diffVms, w, steps)
    decreases |plans|
  {
    HotIsSized(w, n, k, at);
    FreshHead(cfg, diffVms, LedgerOf(w), plans);
    var step, rest;
    if Good(cfg, diffVms, LedgerOf(w), plans[0]) {
      step := Honest(plans[0], Hot(n, k));
      HonestIsEnabled(cfg, diffVms, w, plans[0], Hot(n, k));
      LedgerFollows(cfg, diffVms, w, step, plans[0]);
      GoodStepKeepsExact(cfg, diffVms, w, step, plans[0]);
      ExtentWorks(Hot(n, k), 0, n);
      HotGoesOn(cfg, diffVms, w, plans[0], n, k, at);
      rest := BadScheduleHasGuest(cfg, diffVms, Apply(cfg, diffVms, w, step), plans[1..], n, k + 1,
                                  if plans[0].Take? then at[plans[0].id := k] else at);
    } else {
      var i := OutOfStepDiffers(cfg, diffVms, w, plans[0], n, k, at);
      step := LosingGuest(cfg, diffVms, w, plans[0], n, i);
      LedgerFollows(cfg, diffVms, w, step, plans[0]);
      StepKeepsInv(cfg, diffVms, w, step);
      StepKeepsSized(cfg, diffVms, w, step, n);
      rest := SomeRealisation(cfg, diffVms, Apply(cfg, diffVms, w, step), plans[1..], n);
      RealisationIsValid(cfg, diffVms, Apply(cfg, diffVms, w, step), rest, plans[1..]);
    }
    steps := [step] + rest;
    assert steps[1..] == rest;
  }

  /**
   A schedule of creates, deletes and resumes restores exactly, throughout and for every guest
   memory, if and only if each diff in it that a restore can come to use is captured while the
   VM's newest row is its last capture or restore.
   */
  lemma {:induction false} ScheduleExactIff(cfg: Config, diffVms: set<VmId>, plans: seq<Plan>)
    requires 0 < cfg.maxChain && FreshIds(cfg, diffVms, LedgerOf(EMPTY), plans)
    ensures AllGood(cfg, diffVms, LedgerOf(EMPTY), plans) <==>
              forall steps :: RealisesAll(cfg, diffVms, EMPTY, steps, plans) ==>
                ValidRun(cfg, diffVms, EMPTY, steps) && AlwaysExact(cfg, diffVms, EMPTY, steps)
  {
    if AllGood(cfg, diffVms, LedgerOf(EMPTY), plans) {
      forall steps | RealisesAll(cfg, diffVms, EMPTY, steps, plans)
        ensures ValidRun(cfg, diffVms, EMPTY, steps) && AlwaysExact(cfg, diffVms, EMPTY, steps)
      {
        GoodScheduleIsExact(cfg, diffVms, EMPTY, steps, plans);
      }
    } else {
      var _ := BadScheduleHasGuest(cfg, diffVms, EMPTY, plans, |plans| + 2, 0, map[]);
    }
  }

  /** After a resume that left no row, the next diff that is recorded and uploaded makes any schedule inexact. */
  lemma {:induction false} ClearedVmIsNotGood(cfg: Config, diffVms: set<VmId>, l: Ledger, plan: Plan)
    requires plan.Take? && plan.vm in diffVms && plan.recordOk && plan.uploadOk
    requires OfVm(l.snaps, plan.vm) == {} && plan.vm in l.last
    ensures !Good(cfg, diffVms, l, plan)
  {
  }
}
