/** Runs of the snapshot service whose restores go wrong or are refused, though backend and store keep their promises. */
module RestoreWitnesses {
  import opened Wrappers
  import opened SparseIO
  import opened SnapshotForest
  import opened Restore
  import opened RestoreExact

  /**
   Snapshot, write, snapshot, drop the second (its row write fails or it is deleted), write
   elsewhere, snapshot: every command succeeds otherwise.
   */
  function LosingSteps(vm: VmId, a: SnapshotId, b: SnapshotId, c: SnapshotId, recorded: bool): seq<Step> {
    [Create(a, vm, [1, 1], Capture(Extent([1, 1], 0, 2), false, true, true, true)),
     Create(b, vm, [2, 1], Capture(Extent([2, 1], 0, 1), false, true, true, recorded)),
     Delete(b, Nothing, false),
     Create(c, vm, [2, 3], Capture(Extent([2, 3], 1, 2), false, true, true, true))]
  }

  /** The state after a first snapshot of two bytes of memory. */
  lemma {:induction false} AfterFirst(cfg: Config, vm: VmId, a: SnapshotId)
    requires 0 < cfg.maxChain
    ensures var step := LosingSteps(vm, a, a, a, true)[0];
            && Enabled({vm}, EMPTY, step)
            && var w := Apply(cfg, {vm}, EMPTY, step);
            && Inv(cfg, {vm}, w) && w.snaps.Keys == {a} && w.snaps[a].id == a && w.snaps[a].parent.None?
            && Latest(w.snaps, vm) == Some(w.snaps[a])
            && w.objects == map[a := Objects([1, 1], None)]
            && w.base == map[vm := [1, 1]] && w.taken == map[a := [1, 1]]
  {
    var step := LosingSteps(vm, a, a, a, true)[0];
    ExtentWorks([1, 1], 0, 2);
    assert step.capture.image.bytes == [1, 1];
    assert Captures(ZeroImage(2), [1, 1], step.capture.image);
    var w := Apply(cfg, {vm}, EMPTY, step);
    StepKeepsInv(cfg, {vm}, EMPTY, step);
    LatestIs(w.snaps, vm, a);
  }

  /** The second snapshot has come and gone; what it captured is what the next diff is against. */
  lemma {:induction false} BeforeTheLoss(cfg: Config, vm: VmId, a: SnapshotId, b: SnapshotId, recorded: bool, w1: World)
    requires a != b && 0 < cfg.maxChain && w1 == Apply(cfg, {vm}, EMPTY, LosingSteps(vm, a, b, b, recorded)[0])
    ensures var steps := LosingSteps(vm, a, b, b, recorded);
            && Enabled({vm}, w1, steps[1])
            && var w2 := Apply(cfg, {vm}, w1, steps[1]);
            && var w3 := Apply(cfg, {vm}, w2, steps[2]);
            && Inv(cfg, {vm}, w3) && w3.snaps == w1.snaps
            && w3.base == map[vm := [2, 1]] && w3.taken.Keys == {a, b} && w3.objects.Keys <= {a, b}
            && a in w3.objects && w3.objects[a].memory == [1, 1]
  {
    var steps := LosingSteps(vm, a, b, b, recorded);
    AfterFirst(cfg, vm, a);
    ExtentWorks([2, 1], 0, 1);
    assert Captures([1, 1], [2, 1], steps[1].capture.image);
    var w2 := Apply(cfg, {vm}, w1, steps[1]);
    StepKeepsInv(cfg, {vm}, w1, steps[1]);
    StepKeepsInv(cfg, {vm}, w2, steps[2]);
  }

  lemma {:induction false} LoneRootRestores(w: World, a: SnapshotId)
    requires a in w.snaps && w.snaps[a].id == a && w.snaps[a].parent.None? && a in w.objects && Acyclic(w.snaps)
    ensures Restorable(w, a) && Merged(w.objects, ChainOf(w.snaps, w.snaps[a])) == Some(w.objects[a].memory)
  {
    assert OlderParent(w.snaps, w.snaps[a]);
    assert ChainOf(w.snaps, w.snaps[a]) == [w.snaps[a]];
  }

  /** On top of a, with a diff against [2, 1]: the first byte comes from a. */
  lemma {:induction false} TheLoss(cfg: Config, vm: VmId, a: SnapshotId, c: SnapshotId, w: World, step: Step)
    requires Inv(cfg, {vm}, w) && w.snaps.Keys == {a} && w.snaps[a].id == a && w.snaps[a].parent.None?
    requires Latest(w.snaps, vm) == Some(w.snaps[a]) && a in w.objects && w.objects[a].memory == [1, 1]
    requires w.base == map[vm := [2, 1]] && c !in w.taken && c !in w.objects && c != a
    requires step == Create(c, vm, [2, 3], Capture(Extent([2, 3], 1, 2), false, true, true, true))
    ensures Enabled({vm}, w, step)
    ensures var w' := Apply(cfg, {vm}, w, step);
            && c in w'.snaps && Acyclic(w'.snaps) && OlderParent(w'.snaps, w'.snaps[c])
            && RestoreOutcome(w'.snaps, w'.objects, c) == Restored([1, 3])
  {
    LoneRootRestores(w, a);
    ExtentWorks([2, 3], 1, 2);
    assert Captures([2, 1], [2, 3], step.capture.image);
    NewRow(cfg, {vm}, w, step);
    StepKeepsInv(cfg, {vm}, w, step);
    RestoredIff(cfg, {vm}, Apply(cfg, {vm}, w, step), c);
    OverlaidExtent([1, 1], [2, 3]);
  }

  /** The write between the first two snapshots is missing from the restore of the third. */
  lemma {:induction false} LostWriteIsReachable(cfg: Config, vm: VmId, a: SnapshotId, b: SnapshotId, c: SnapshotId, recorded: bool)
    requires a != b && a != c && b != c && 0 < cfg.maxChain
    ensures ValidRun(cfg, {vm}, EMPTY, LosingSteps(vm, a, b, c, recorded))
    ensures var w := Run(cfg, {vm}, EMPTY, LosingSteps(vm, a, b, c, recorded));
            && c in w.snaps && c in w.taken && w.taken[c] == [2, 3]
            && Acyclic(w.snaps) && OlderParent(w.snaps, w.snaps[c])
            && RestoreOutcome(w.snaps, w.objects, c) == Restored([1, 3])
  {
    var steps := LosingSteps(vm, a, b, c, recorded);
    AfterFirst(cfg, vm, a);
    var w1 := Apply(cfg, {vm}, EMPTY, steps[0]);
    BeforeTheLoss(cfg, vm, a, b, recorded, w1);
    var w2 := Apply(cfg, {vm}, w1, steps[1]);
    var w3 := Apply(cfg, {vm}, w2, steps[2]);
    TheLoss(cfg, vm, a, c, w3, steps[3]);
    RunOfFour(cfg, {vm}, steps, w1, w2, w3);
  }

  lemma {:induction false} OverlaidExtent(root: seq<Byte>, now: seq<Byte>)
    requires |root| == |now| == 2
    ensures Extent(now, 1, 2).Valid()
    ensures Overlay(root, Extent(now, 1, 2).bytes, RegionsFrom(Extent(now, 1, 2), 0)) == [root[0], now[1]]
  {
    var image := Extent(now, 1, 2);
    ExtentWorks(now, 1, 2);
    var target := [root[0], now[1]];
    assert Captures(root, target, image);
    MergeStepExactIff(root, target, image);
  }

  lemma {:induction false} RunStarts(cfg: Config, diffVms: set<VmId>, w: World, steps: seq<Step>, w': World)
    requires steps != [] && Enabled(diffVms, w, steps[0]) && w' == Apply(cfg, diffVms, w, steps[0])
    requires ValidRun(cfg, diffVms, w', steps[1..])
    ensures ValidRun(cfg, diffVms, w, steps)
    ensures Run(cfg, diffVms, w, steps) == Run(cfg, diffVms, w', steps[1..])
  {
  }

  lemma {:induction false} RunOfFour(cfg: Config, diffVms: set<VmId>, steps: seq<Step>, w1: World, w2: World, w3: World)
    requires |steps| == 4
    requires Enabled(diffVms, EMPTY, steps[0]) && w1 == Apply(cfg, diffVms, EMPTY, steps[0])
    requires Enabled(diffVms, w1, steps[1]) && w2 == Apply(cfg, diffVms, w1, steps[1])
    requires Enabled(diffVms, w2, steps[2]) && w3 == Apply(cfg, diffVms, w2, steps[2])
    requires Enabled(diffVms, w3, steps[3])
    ensures ValidRun(cfg, diffVms, EMPTY, steps)
    ensures Run(cfg, diffVms, EMPTY, steps) == Apply(cfg, diffVms, w3, steps[3])
  {
    var w4 := Apply(cfg, diffVms, w3, steps[3]);
    assert steps[3..][1..] == [] && steps[2..][1..] == steps[3..] && steps[1..][1..] == steps[2..];
    assert ValidRun(cfg, diffVms, w4, []) && Run(cfg, diffVms, w4, []) == w4;
    RunStarts(cfg, diffVms, w3, steps[3..], w4);
    RunStarts(cfg, diffVms, w2, steps[2..], w3);
    RunStarts(cfg, diffVms, w1, steps[1..], w2);
    RunStarts(cfg, diffVms, EMPTY, steps, w1);
  }

  lemma {:induction false} RefusedWithoutManifest(cfg: Config, w: World, id: SnapshotId, vm: VmId)
    requires Inv(cfg, {vm}, w) && id in w.snaps && w.snaps[id].parent.Some? && id in w.objects && w.objects[id].manifest.None?
    ensures OlderParent(w.snaps, w.snaps[id]) && RestoreOutcome(w.snaps, w.objects, id) == Refused
  {
    assert Row(cfg, w.snaps, w.clock, id) && OlderParent(w.snaps, w.snaps[id]);
    ChainShape(cfg, w.snaps, w.clock, w.snaps[id]);
  }

  /** A snapshot of a guest that wrote nothing since the last one is recorded without a manifest, and refused. */
  lemma {:induction false} EmptyDiffIsRefused(cfg: Config, vm: VmId, a: SnapshotId, b: SnapshotId)
    requires a != b && 0 < cfg.maxChain
    ensures var steps := [IdleCapture(a, vm, [1], 0, 1), IdleCapture(b, vm, [1], 0, 0)];
            && ValidRun(cfg, {vm}, EMPTY, steps)
            && var w := Run(cfg, {vm}, EMPTY, steps);
            && b in w.snaps && Acyclic(w.snaps) && OlderParent(w.snaps, w.snaps[b])
            && RestoreOutcome(w.snaps, w.objects, b) == Refused
  {
    var first, second := IdleCapture(a, vm, [1], 0, 1), IdleCapture(b, vm, [1], 0, 0);
    var steps := [first, second];
    ExtentWorks([1], 0, 1);
    ExtentWorks([1], 0, 0);
    assert Captures(ZeroImage(1), [1], first.capture.image) && Captures([1], [1], second.capture.image);
    assert Enabled({vm}, EMPTY, first);
    var w1 := Apply(cfg, {vm}, EMPTY, first);
    StepKeepsInv(cfg, {vm}, EMPTY, first);
    LatestIs(w1.snaps, vm, a);
    assert Enabled({vm}, w1, second);
    var w2 := Apply(cfg, {vm}, w1, second);
    StepKeepsInv(cfg, {vm}, w1, second);
    RefusedWithoutManifest(cfg, w2, b, vm);
    assert steps[1..] == [second] && [second][1..] == [];
    assert ValidRun(cfg, {vm}, w2, []) && ValidRun(cfg, {vm}, w1, [second]);
    assert Run(cfg, {vm}, w2, []) == w2 && Run(cfg, {vm}, w1, [second]) == w2;
  }

  /** Snapshot, resume, which deletes the VM's rows, write, snapshot; or the first row was never written. */
  function HollowSteps(vm: VmId, a: SnapshotId, b: SnapshotId, recorded: bool): seq<Step> {
    [Create(a, vm, [1, 1], Capture(Extent([1, 1], 0, 2), false, true, true, recorded)),
     Resume(vm),
     Delete(a, Nothing, false),
     Create(b, vm, [1, 3], Capture(Extent([1, 3], 1, 2), false, true, true, true))]
  }

  /** The resume loads the very image that was captured, so nothing changes. */
  lemma {:induction false} ResumeOfFirst(cfg: Config, vm: VmId, a: SnapshotId, recorded: bool)
    requires 0 < cfg.maxChain
    ensures var step := HollowSteps(vm, a, a, recorded)[0];
            && Enabled({vm}, EMPTY, step)
            && var w := Apply(cfg, {vm}, EMPTY, step);
            && Inv(cfg, {vm}, w) && ApplyResume(w, vm) == w
            && w.snaps.Keys == (if recorded then {a} else {}) && w.objects.Keys == {a} && w.taken.Keys == {a}
            && w.base == map[vm := [1, 1]] && w.last == map[vm := a]
  {
    var step := HollowSteps(vm, a, a, recorded)[0];
    ExtentWorks([1, 1], 0, 2);
    assert step.capture.image.bytes == [1, 1];
    assert Captures(ZeroImage(2), [1, 1], step.capture.image);
    var w := Apply(cfg, {vm}, EMPTY, step);
    StepKeepsInv(cfg, {vm}, EMPTY, step);
    if recorded {
      LatestIs(w.snaps, vm, a);
      LoneRootRestores(w, a);
      RestoredIff(cfg, {vm}, w, a);
      assert w.base[vm := [1, 1]] == w.base && w.last[vm := a] == w.last;
    }
  }

  /** The next snapshot is recorded as full, but its file holds only what changed since the resume. */
  lemma {:induction false} HollowFullSnapshotIsReachable(cfg: Config, vm: VmId, a: SnapshotId, b: SnapshotId, recorded: bool)
    requires a != b && 0 < cfg.maxChain
    ensures ValidRun(cfg, {vm}, EMPTY, HollowSteps(vm, a, b, recorded))
    ensures var w := Run(cfg, {vm}, EMPTY, HollowSteps(vm, a, b, recorded));
            && b in w.snaps && w.snaps[b].kind.Full? && b in w.taken && w.taken[b] == [1, 3]
            && Acyclic(w.snaps) && OlderParent(w.snaps, w.snaps[b])
            && RestoreOutcome(w.snaps, w.objects, b) == Restored([0, 3])
  {
    var steps := HollowSteps(vm, a, b, recorded);
    ResumeOfFirst(cfg, vm, a, recorded);
    var w1 := Apply(cfg, {vm}, EMPTY, steps[0]);
    var w3 := Apply(cfg, {vm}, w1, steps[2]);
    StepKeepsInv(cfg, {vm}, w1, steps[2]);
    assert w3.snaps == map[];
    ExtentWorks([1, 3], 1, 2);
    assert Captures([1, 1], [1, 3], steps[3].capture.image);
    var w4 := Apply(cfg, {vm}, w3, steps[3]);
    StepKeepsInv(cfg, {vm}, w3, steps[3]);
    assert OlderParent(w4.snaps, w4.snaps[b]) && w4.objects[b].memory == [0, 3];
    RunOfFour(cfg, {vm}, steps, w1, w1, w3);
  }

  /** A full snapshot, an idle one, which gets no manifest, a resume, which is refused, and one with a write. */
  function BrokenSteps(vm: VmId, a: SnapshotId, b: SnapshotId, c: SnapshotId): seq<Step> {
    [IdleCapture(a, vm, [1], 0, 1), IdleCapture(b, vm, [1], 0, 0), Resume(vm),
     Create(c, vm, [2], Capture(Extent([2], 0, 1), false, true, true, true))]
  }

  /** The state with an idle snapshot on top of a full one: newest, without a manifest, refused. */
  lemma {:induction false} AfterIdle(cfg: Config, vm: VmId, a: SnapshotId, b: SnapshotId)
    requires a != b && 0 < cfg.maxChain
    ensures var steps := BrokenSteps(vm, a, b, b);
            && Enabled({vm}, EMPTY, steps[0])
            && var w1 := Apply(cfg, {vm}, EMPTY, steps[0]);
            && Enabled({vm}, w1, steps[1])
            && var w2 := Apply(cfg, {vm}, w1, steps[1]);
            && Inv(cfg, {vm}, w2) && w2.snaps.Keys == {a, b} && w2.objects.Keys == {a, b} && w2.taken.Keys == {a, b}
            && w2.snaps[b].id == b && w2.snaps[b].parent == Some(a) && w2.snaps[a].parent == None
            && w2.objects[b].manifest == None && w2.base == map[vm := [1]]
            && Latest(w2.snaps, vm) == Some(w2.snaps[b]) && ApplyResume(w2, vm) == w2
  {
    var steps := BrokenSteps(vm, a, b, b);
    AfterFull(cfg, vm, a);
    var w1 := Apply(cfg, {vm}, EMPTY, steps[0]);
    ExtentWorks([1], 0, 0);
    assert Captures([1], [1], steps[1].capture.image);
    var w2 := Apply(cfg, {vm}, w1, steps[1]);
    StepKeepsInv(cfg, {vm}, w1, steps[1]);
    LatestIs(w2.snaps, vm, b);
    RefusedWithoutManifest(cfg, w2, b, vm);
  }

  lemma {:induction false} AfterFull(cfg: Config, vm: VmId, a: SnapshotId)
    requires 0 < cfg.maxChain
    ensures var step := IdleCapture(a, vm, [1], 0, 1);
            && Enabled({vm}, EMPTY, step)
            && var w := Apply(cfg, {vm}, EMPTY, step);
            && Inv(cfg, {vm}, w) && w.snaps.Keys == {a} && w.objects.Keys == {a} && w.taken.Keys == {a} && w.base == map[vm := [1]]
            && w.snaps[a].id == a && w.snaps[a].parent == None && w.snaps[a].createdAt == 0 && w.clock == 1
            && Latest(w.snaps, vm) == Some(w.snaps[a])
  {
    var step := IdleCapture(a, vm, [1], 0, 1);
    ExtentWorks([1], 0, 1);
    assert Captures(ZeroImage(1), [1], step.capture.image);
    StepKeepsInv(cfg, {vm}, EMPTY, step);
    LatestIs(Apply(cfg, {vm}, EMPTY, step).snaps, vm, a);
  }

  /** Its restore makes a fresh VM, though its own files are all there. */
  lemma {:induction false} BrokenChainMakesFreshVm(cfg: Config, vm: VmId, a: SnapshotId, b: SnapshotId, c: SnapshotId)
    requires a != b && a != c && b != c && 0 < cfg.maxChain
    ensures ValidRun(cfg, {vm}, EMPTY, BrokenSteps(vm, a, b, c))
    ensures var w := Run(cfg, {vm}, EMPTY, BrokenSteps(vm, a, b, c));
            && c in w.snaps && Acyclic(w.snaps) && OlderParent(w.snaps, w.snaps[c])
            && RestoreOutcome(w.snaps, w.objects, c) == FreshVm
  {
    var steps := BrokenSteps(vm, a, b, c);
    AfterIdle(cfg, vm, a, b);
    var w1 := Apply(cfg, {vm}, EMPTY, steps[0]);
    var w2 := Apply(cfg, {vm}, w1, steps[1]);
    ExtentWorks([2], 0, 1);
    assert Captures([1], [2], steps[3].capture.image);
    FreshOnTopOf(cfg, vm, a, b, c, w2, steps[3]);
    RunOfFour(cfg, {vm}, steps, w1, w2, w2);
  }

  lemma {:induction false} FreshOnTopOf(cfg: Config, vm: VmId, a: SnapshotId, b: SnapshotId, c: SnapshotId, w: World, step: Step)
    requires Inv(cfg, {vm}, w) && b in w.snaps && w.snaps[b].id == b && w.snaps[b].parent == Some(a)
    requires b in w.objects && w.objects[b].manifest == None && Latest(w.snaps, vm) == Some(w.snaps[b]) && c != b
    requires Enabled({vm}, w, step) && step == Create(c, vm, [2], Capture(Extent([2], 0, 1), false, true, true, true))
    requires RegionsFrom(step.capture.image, 0) != []
    ensures var w' := Apply(cfg, {vm}, w, step);
            && c in w'.snaps && Acyclic(w'.snaps) && OlderParent(w'.snaps, w'.snaps[c]) && RestoreOutcome(w'.snaps, w'.objects, c) == FreshVm
  {
    var w' := Apply(cfg, {vm}, w, step);
    StepKeepsInv(cfg, {vm}, w, step);
    RestoreOutcomeIff(cfg, {vm}, w', c);
    assert Row(cfg, w'.snaps, w'.clock, b) && OlderParent(w'.snaps, w'.snaps[b]);
    var c1 := ChainOf(w'.snaps, w'.snaps[c]);
    assert c1 == [w'.snaps[c]] + ChainOf(w'.snaps, w'.snaps[b]);
    assert c1[1] == w'.snaps[b] && |c1| > 2;
  }
}
