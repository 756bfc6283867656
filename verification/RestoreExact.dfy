/**
 When restores are exact. A diff is relative to the VM's last capture or restore, but it is
 recorded on top of the VM's newest row; where those two differ, writes get lost.
 */
module RestoreExact {
  import opened Wrappers
  import opened SparseIO
  import opened SnapshotForest
  import opened Restore

  /** Every snapshot that restores at all restores the memory it was taken of. */
  ghost predicate Exact(w: World) {
    forall id {:trigger Restorable(w, id)} :: Restorable(w, id) ==>
      id in w.taken && Merged(w.objects, ChainOf(w.snaps, w.snaps[id])) == Some(w.taken[id])
  }

  // ------------------------------------------------------------------ the new row

  /** The new row will restore: uploaded and, on top of a parent, with a manifest and a restorable parent. */
  ghost predicate NewRestorable(w: World, s: Snapshot, capture: Capture)
    requires capture.image.Valid()
  {
    && capture.recordOk && capture.uploadOk
    && (s.parent.Some? ==> capture.extractOk && RegionsFrom(capture.image, 0) != [] && Restorable(w, s.parent.value))
  }

  /** Whether the new row restores, and what from. */
  lemma {:induction false} NewRow(cfg: Config, diffVms: set<VmId>, w: World, step: Step)
    requires Inv(cfg, diffVms, w) && step.Create? && Enabled(diffVms, w, step) && step.capture.recordOk
    ensures var s := Planned(cfg, diffVms, w, step.id, step.vm, step.capture.tooOld);
            var w' := Apply(cfg, diffVms, w, step);
            && (s.parent.Some? ==> s.parent.value in w.snaps && OlderParent(w.snaps, w.snaps[s.parent.value]))
            && (Restorable(w', step.id) <==> NewRestorable(w, s, step.capture))
            && (Restorable(w', step.id) ==>
                  var below := if s.parent.None? then None else Merged(w.objects, ChainOf(w.snaps, w.snaps[s.parent.value]));
                  && (s.parent.Some? ==> below.Some? && |below.value| == |step.memory|)
                  && Merged(w'.objects, ChainOf(w'.snaps, s)) ==
                       Some(if s.parent.None? then step.capture.image.bytes
                            else Overlay(below.value, step.capture.image.bytes, RegionsFrom(step.capture.image, 0))))
  {
    CreateKeepsInv(cfg, diffVms, w, step);
    var w' := Apply(cfg, diffVms, w, step);
    var s := w'.snaps[step.id];
    assert Row(cfg, w'.snaps, w'.clock, step.id) && Stored(diffVms, w', step.id) && OlderParent(w'.snaps, s);
    if s.parent.Some? {
      var p := s.parent.value;
      assert Row(cfg, w.snaps, w.clock, p) && OlderParent(w.snaps, w.snaps[p]);
      ChainAfterCreate(cfg, w.snaps, w.clock, s);
      var d := ChainOf(w.snaps, w.snaps[p]);
      CompleteCons(w'.objects, s, d);
      CompleteUnaffected(w.objects, w'.objects, d);
      MergedUnaffected(w.objects, w'.objects, d);
      MergedOfComplete(cfg, diffVms, w, w.snaps[p]);
      assert ([s] + d)[1..] == d;
    } else {
      assert ChainOf(w'.snaps, s) == [s];
      assert Complete(w'.objects, [s]) <==> s.id in w'.objects by {
        assert [s][0] == s;
      }
    }
  }

  /** A new snapshot restores if and only if these steps of its creation went well and its diff is not empty. */
  lemma {:induction false} NewSnapshotRestoresIff(cfg: Config, diffVms: set<VmId>, w: World, step: Step)
    requires Inv(cfg, diffVms, w) && step.Create? && Enabled(diffVms, w, step) && step.capture.recordOk
    ensures var w' := Apply(cfg, diffVms, w, step);
            var s := w'.snaps[step.id];
            var image := step.capture.image;
            && Inv(cfg, diffVms, w') && OlderParent(w'.snaps, s)
            && (RestoreOutcome(w'.snaps, w'.objects, step.id).Restored? <==>
                  && step.capture.uploadOk
                  && (s.parent.Some? ==> step.capture.extractOk && |image.bytes| > 0 && image.seekData(0).At? && Restorable(w, s.parent.value)))
            && (image.SeekDataWorks() ==>
                  (|image.bytes| > 0 && image.seekData(0).At? <==> exists i :: 0 <= i < |image.bytes| && image.data[i]))
  {
    CreateKeepsInv(cfg, diffVms, w, step);
    NewRow(cfg, diffVms, w, step);
    RestoredIff(cfg, diffVms, Apply(cfg, diffVms, w, step), step.id);
    ManifestEmptyIff(step.capture.image);
  }

  /** Rows that were there keep their chains, objects and restores. */
  lemma {:induction false} OldRow(cfg: Config, diffVms: set<VmId>, w: World, step: Step, id: SnapshotId)
    requires Inv(cfg, diffVms, w) && step.Create? && Enabled(diffVms, w, step) && id in w.snaps
    ensures var w' := Apply(cfg, diffVms, w, step);
            && Acyclic(w'.snaps) && OlderParent(w.snaps, w.snaps[id]) && OlderParent(w'.snaps, w.snaps[id])
            && (Restorable(w', id) <==> Restorable(w, id))
            && Merged(w'.objects, ChainOf(w'.snaps, w.snaps[id])) == Merged(w.objects, ChainOf(w.snaps, w.snaps[id]))
  {
    CreateKeepsInv(cfg, diffVms, w, step);
    var w' := Apply(cfg, diffVms, w, step);
    var s := w.snaps[id];
    assert OlderParent(w.snaps, w.snaps[id]) && OlderParent(w'.snaps, w'.snaps[id]);
    assert forall x :: x in w.snaps ==> Row(cfg, w.snaps, w.clock, x);
    ChainGrows(w.snaps, w'.snaps, s);
    ChainShape(cfg, w.snaps, w.clock, s);
    var c := ChainOf(w.snaps, s);
    CompleteUnaffected(w.objects, w'.objects, c);
    MergedUnaffected(w.objects, w'.objects, c);
  }

  // ------------------------------------------------------------------ what a create loses

  /** Byte i of the memory will be restored wrong, on top of what the service takes to be below. */
  ghost predicate LosesAt(w: World, s: Snapshot, memory: seq<Byte>, image: Source, i: nat) {
    && image.Valid() && i < |memory| == |image.bytes|
    && match s.parent
       case None => !image.data[i] && memory[i] != 0
       case Some(p) => p in w.taken && |w.taken[p]| == |memory| && !RightAt(w.taken[p], memory, image, i)
  }

  /** The create records a snapshot that restores, but wrong. */
  ghost predicate Loses(cfg: Config, diffVms: set<VmId>, w: World, step: Step) {
    step.Create? && step.capture.image.Valid() && step.vm in diffVms &&
    var s := Planned(cfg, diffVms, w, step.id, step.vm, step.capture.tooOld);
    NewRestorable(w, s, step.capture) && exists i: nat :: LosesAt(w, s, step.memory, step.capture.image, i)
  }

  /** What the service takes to be below the new row. */
  ghost function Root(w: World, s: Snapshot, n: nat): seq<Byte> {
    match s.parent
    case None => ZeroImage(n)
    case Some(p) => if p in w.taken then w.taken[p] else []
  }

  ghost predicate SeeksWork(image: Source) { image.SeekDataWorks() && image.SeekHoleWorks() }

  /**
   With working seeks: a byte is lost exactly where the diff has a hole and the image below the
   new row differs from the image the diff was taken against.
   */
  lemma {:induction false} LosesAtIff(cfg: Config, diffVms: set<VmId>, w: World, step: Step, i: nat)
    requires Inv(cfg, diffVms, w) && step.Create? && Enabled(diffVms, w, step) && step.vm in diffVms
    requires SeeksWork(step.capture.image) && i < |step.memory|
    ensures var s := Planned(cfg, diffVms, w, step.id, step.vm, step.capture.tooOld);
            var base := Base(w, step.vm, |step.memory|);
            && |Root(w, s, |step.memory|)| == |base| == |step.memory|
            && (LosesAt(w, s, step.memory, step.capture.image, i) <==>
                  !step.capture.image.data[i] && Root(w, s, |step.memory|)[i] != base[i])
  {
    var s := Planned(cfg, diffVms, w, step.id, step.vm, step.capture.tooOld);
    var image := step.capture.image;
    if s.parent.Some? {
      var newest := Newest(w.snaps, OfVm(w.snaps, step.vm));
      assert Row(cfg, w.snaps, w.clock, newest) && Stored(diffVms, w, newest);
    }
    StopIsPast(image, 0);
    RegionsCoverUpToStop(image, 0, i);
  }

  /** The create step: exactness survives it if and only if it loses nothing. */
  lemma {:induction false} CreateExactIff(cfg: Config, diffVms: set<VmId>, w: World, step: Step)
    requires Inv(cfg, diffVms, w) && Exact(w) && step.Create? && Enabled(diffVms, w, step)
    ensures Exact(Apply(cfg, diffVms, w, step)) <==> !Loses(cfg, diffVms, w, step)
  {
    var w' := Apply(cfg, diffVms, w, step);
    forall id | id in w.snaps
      ensures Restorable(w', id) ==>
        id in w'.taken && Merged(w'.objects, ChainOf(w'.snaps, w'.snaps[id])) == Some(w'.taken[id])
    {
      OldRow(cfg, diffVms, w, step, id);
      assert Stored(diffVms, w, id);
    }
    if step.capture.recordOk {
      NewRow(cfg, diffVms, w, step);
      if Restorable(w', step.id) {
        NewRowExactIff(cfg, diffVms, w, step);
      }
    }
  }

  lemma {:induction false} NewRowExactIff(cfg: Config, diffVms: set<VmId>, w: World, step: Step)
    requires Inv(cfg, diffVms, w) && Exact(w) && step.Create? && Enabled(diffVms, w, step)
    requires Restorable(Apply(cfg, diffVms, w, step), step.id)
    ensures var w' := Apply(cfg, diffVms, w, step);
            Merged(w'.objects, ChainOf(w'.snaps, w'.snaps[step.id])) == Some(step.memory) <==> !Loses(cfg, diffVms, w, step)
  {
    NewRow(cfg, diffVms, w, step);
    var s := Planned(cfg, diffVms, w, step.id, step.vm, step.capture.tooOld);
    var image := step.capture.image;
    if s.parent.Some? {
      var p := s.parent.value;
      assert Restorable(w, p) && Stored(diffVms, w, p);
      OverlayExactIff(w.taken[p], Base(w, step.vm, |step.memory|), step.memory, image);
      assert forall i: nat :: i < |step.memory| ==> (LosesAt(w, s, step.memory, image, i) <==> !RightAt(w.taken[p], step.memory, image, i));
    } else if step.vm in diffVms {
      assert forall i: nat :: i < |step.memory| ==> (LosesAt(w, s, step.memory, image, i) <==> image.bytes[i] != step.memory[i]);
      if forall i: nat :: i < |step.memory| ==> image.bytes[i] == step.memory[i] {
        assert image.bytes == step.memory;
      }
    }
  }

  // ------------------------------------------------------------------ deletes and resumes

  /** A row that still restores after a delete restores what it did before. */
  lemma {:induction false} DeleteKeepsExact(cfg: Config, diffVms: set<VmId>, w: World, id: SnapshotId, left: Leftover, repoFails: bool)
    requires Inv(cfg, diffVms, w) && Exact(w)
    ensures Exact(ApplyDelete(w, id, left, repoFails))
  {
    var w' := ApplyDelete(w, id, left, repoFails);
    if Deletable(w.snaps, id) {
      DeleteKeepsInv(cfg, diffVms, w, id, left, repoFails);
      forall x | Restorable(w', x)
        ensures x in w'.taken && Merged(w'.objects, ChainOf(w'.snaps, w'.snaps[x])) == Some(w'.taken[x])
      {
        assert OlderParent(w.snaps, w.snaps[x]) && Stored(diffVms, w, x);
        if x == id {
          HalfDeleted(cfg, diffVms, w, id, left);
        } else {
          RestoredIff(cfg, diffVms, w, x);
          RestoredIff(cfg, diffVms, w', x);
          DeleteKeepsOtherRestores(cfg, diffVms, w, id, left, repoFails, x);
        }
      }
    }
  }

  /** The row of a delete that failed in the table: if anything restores, it is what did before. */
  lemma {:induction false} HalfDeleted(cfg: Config, diffVms: set<VmId>, w: World, id: SnapshotId, left: Leftover)
    requires Inv(cfg, diffVms, w) && Deletable(w.snaps, id) && OlderParent(w.snaps, w.snaps[id])
    requires Complete(Remaining(w.objects, id, left), ChainOf(w.snaps, w.snaps[id]))
    ensures Restorable(w, id)
    ensures Merged(Remaining(w.objects, id, left), ChainOf(w.snaps, w.snaps[id])) == Merged(w.objects, ChainOf(w.snaps, w.snaps[id]))
  {
    var objects' := Remaining(w.objects, id, left);
    var s := w.snaps[id];
    assert Row(cfg, w.snaps, w.clock, id);
    var c := ChainOf(w.snaps, s);
    assert c[0] == s;
    if s.parent.Some? {
      var p := w.snaps[s.parent.value];
      assert Row(cfg, w.snaps, w.clock, s.parent.value) && OlderParent(w.snaps, w.snaps[s.parent.value]);
      var d := ChainOf(w.snaps, p);
      assert c == [s] + d && c[1..] == d;
      CompleteCons(objects', s, d);
      CompleteCons(w.objects, s, d);
      ChildlessIsOffChain(cfg, w.snaps, w.clock, id, p);
      CompleteUnaffected(w.objects, objects', d);
      MergedUnaffected(w.objects, objects', d);
    } else {
      assert c == [s];
    }
  }

  /** A resume touches neither rows nor objects. */
  lemma {:induction false} ResumeKeepsExact(w: World, vm: VmId)
    requires Exact(w)
    ensures Exact(ApplyResume(w, vm))
  {
    var w' := ApplyResume(w, vm);
    forall id | Restorable(w', id)
      ensures id in w'.taken && Merged(w'.objects, ChainOf(w'.snaps, w'.snaps[id])) == Some(w'.taken[id])
    {
      assert Restorable(w, id);
    }
  }

  lemma {:induction false} StepExactIff(cfg: Config, diffVms: set<VmId>, w: World, step: Step)
    requires Inv(cfg, diffVms, w) && Exact(w) && Enabled(diffVms, w, step)
    ensures Exact(Apply(cfg, diffVms, w, step)) <==> !Loses(cfg, diffVms, w, step)
  {
    match step {
      case Create(_, _, _, _) => CreateExactIff(cfg, diffVms, w, step);
      case Delete(id, left, repoFails) => DeleteKeepsExact(cfg, diffVms, w, id, left, repoFails);
      case Resume(vm) => ResumeKeepsExact(w, vm);
    }
  }

  // ------------------------------------------------------------------ runs

  ghost predicate AlwaysExact(cfg: Config, diffVms: set<VmId>, w: World, steps: seq<Step>)
    requires ValidRun(cfg, diffVms, w, steps)
    decreases |steps|
  {
    Exact(w) && (steps != [] ==> AlwaysExact(cfg, diffVms, Apply(cfg, diffVms, w, steps[0]), steps[1..]))
  }

  ghost predicate NeverLoses(cfg: Config, diffVms: set<VmId>, w: World, steps: seq<Step>)
    requires ValidRun(cfg, diffVms, w, steps)
    decreases |steps|
  {
    steps == [] || (!Loses(cfg, diffVms, w, steps[0]) && NeverLoses(cfg, diffVms, Apply(cfg, diffVms, w, steps[0]), steps[1..]))
  }

  /**
   Over every run, whatever uploads, row writes, row deletes, object deletes or seeks fail: every
   snapshot that restores does so exactly, in every state, if and only if no create loses a byte.
   */
  lemma {:induction false} EveryRunRestoresExactlyIff(cfg: Config, diffVms: set<VmId>, w: World, steps: seq<Step>)
    requires Inv(cfg, diffVms, w) && Exact(w) && ValidRun(cfg, diffVms, w, steps)
    ensures AlwaysExact(cfg, diffVms, w, steps) <==> NeverLoses(cfg, diffVms, w, steps)
    ensures NeverLoses(cfg, diffVms, w, steps) ==> Exact(Run(cfg, diffVms, w, steps))
    decreases |steps|
  {
    if steps != [] {
      var w' := Apply(cfg, diffVms, w, steps[0]);
      StepKeepsInv(cfg, diffVms, w, steps[0]);
      StepExactIff(cfg, diffVms, w, steps[0]);
      if Exact(w') {
        EveryRunRestoresExactlyIff(cfg, diffVms, w', steps[1..]);
      }
    }
  }

  // ------------------------------------------------------------------ the guard

  /** The VM's newest recorded row is its last capture or restore; or it has neither. */
  ghost predicate Synced(snaps: Table, last: map<VmId, SnapshotId>, vm: VmId) {
    match Latest(snaps, vm)
    case None => vm !in last
    case Some(s) => vm in last && last[vm] == s.id
  }

  ghost predicate Tied(w: World) {
    && w.last.Keys == w.base.Keys
    && forall vm :: vm in w.last ==> w.last[vm] in w.taken && w.base[vm] == w.taken[w.last[vm]]
  }

  ghost predicate Guarded(diffVms: set<VmId>, w: World, step: Step) {
    step.Create? && step.vm in diffVms ==>
      Synced(w.snaps, w.last, step.vm) && SeeksWork(step.capture.image)
  }

  lemma {:induction false} SyncedLosesNothing(cfg: Config, diffVms: set<VmId>, w: World, step: Step)
    requires Inv(cfg, diffVms, w) && Tied(w) && Enabled(diffVms, w, step) && Guarded(diffVms, w, step)
    ensures !Loses(cfg, diffVms, w, step)
  {
    if step.Create? && step.vm in diffVms {
      var s := Planned(cfg, diffVms, w, step.id, step.vm, step.capture.tooOld);
      forall i: nat | i < |step.memory|
        ensures !LosesAt(w, s, step.memory, step.capture.image, i)
      {
        LosesAtIff(cfg, diffVms, w, step, i);
      }
    }
  }

  /** In an exact state the image a resume loads is the memory of the snapshot it names. */
  lemma {:induction false} StepKeepsTied(cfg: Config, diffVms: set<VmId>, w: World, step: Step)
    requires Inv(cfg, diffVms, w) && Exact(w) && Tied(w) && Enabled(diffVms, w, step)
    ensures Tied(Apply(cfg, diffVms, w, step))
  {
    if step.Resume? && Reloaded(w, step.vm).Some? {
      var newest := Newest(w.snaps, OfVm(w.snaps, step.vm));
      assert Row(cfg, w.snaps, w.clock, newest);
      RestoredIff(cfg, diffVms, w, newest);
      assert Restorable(w, newest);
    }
  }

  ghost predicate GuardedRun(cfg: Config, diffVms: set<VmId>, w: World, steps: seq<Step>)
    requires ValidRun(cfg, diffVms, w, steps)
    decreases |steps|
  {
    steps == [] || (Guarded(diffVms, w, steps[0]) && GuardedRun(cfg, diffVms, Apply(cfg, diffVms, w, steps[0]), steps[1..]))
  }

  lemma {:induction false} GuardedRunLosesNothing(cfg: Config, diffVms: set<VmId>, w: World, steps: seq<Step>)
    requires Inv(cfg, diffVms, w) && Exact(w) && Tied(w) && ValidRun(cfg, diffVms, w, steps) && GuardedRun(cfg, diffVms, w, steps)
    ensures NeverLoses(cfg, diffVms, w, steps)
    decreases |steps|
  {
    if steps != [] {
      SyncedLosesNothing(cfg, diffVms, w, steps[0]);
      StepKeepsInv(cfg, diffVms, w, steps[0]);
      StepExactIff(cfg, diffVms, w, steps[0]);
      StepKeepsTied(cfg, diffVms, w, steps[0]);
      GuardedRunLosesNothing(cfg, diffVms, Apply(cfg, diffVms, w, steps[0]), steps[1..]);
    }
  }

  /**
   From the empty store, if each diff is captured while the VM's newest row is its last capture or
   restore: a restore of any recorded snapshot yields exactly its memory when the chain's objects
   are complete, and no memory otherwise.
   */
  lemma {:induction false} EveryGuardedRunRestoresExactly(cfg: Config, diffVms: set<VmId>, steps: seq<Step>, id: SnapshotId)
    requires 0 < cfg.maxChain && ValidRun(cfg, diffVms, EMPTY, steps) && GuardedRun(cfg, diffVms, EMPTY, steps)
    requires id in Run(cfg, diffVms, EMPTY, steps).snaps
    ensures var w := Run(cfg, diffVms, EMPTY, steps);
            && Inv(cfg, diffVms, w) && OlderParent(w.snaps, w.snaps[id]) && id in w.taken
            && if Complete(w.objects, ChainOf(w.snaps, w.snaps[id])) then RestoreOutcome(w.snaps, w.objects, id) == Restored(w.taken[id])
               else !RestoreOutcome(w.snaps, w.objects, id).Restored?
  {
    RunKeepsInv(cfg, diffVms, EMPTY, steps);
    GuardedRunLosesNothing(cfg, diffVms, EMPTY, steps);
    EveryRunRestoresExactlyIff(cfg, diffVms, EMPTY, steps);
    var w := Run(cfg, diffVms, EMPTY, steps);
    RestoredIff(cfg, diffVms, w, id);
    assert Restorable(w, id) <==> Complete(w.objects, ChainOf(w.snaps, w.snaps[id]));
  }

  /** Whatever the guest does next, a snapshot of it taken with working seeks will not restore wrong. */
  ghost predicate SafeToCapture(cfg: Config, diffVms: set<VmId>, w: World, vm: VmId) {
    forall step: Step {:trigger Loses(cfg, diffVms, w, step)} ::
      step.Create? && step.vm == vm && Enabled(diffVms, w, step) && SeeksWork(step.capture.image) ==> !Loses(cfg, diffVms, w, step)
  }

  /** A capture of the unchanged guest in which only bytes [d, h) are data. */
  function IdleCapture(id: SnapshotId, vm: VmId, memory: seq<Byte>, d: nat, h: nat): Step {
    Create(id, vm, memory, Capture(Extent(memory, d, h), false, true, true, true))
  }

  /**
   The next capture is safe if and only if the image below the new row is the image of the last
   capture or restore (one byte of memory on top of a parent is never wrong: its diff holds it).
   */
  lemma {:induction false} SafeToCaptureIff(cfg: Config, diffVms: set<VmId>, w: World, vm: VmId, newId: SnapshotId)
    requires Inv(cfg, diffVms, w) && vm in diffVms && vm in w.base
    requires newId !in w.snaps && newId !in w.objects && newId !in w.taken
    requires Latest(w.snaps, vm).Some? ==> Restorable(w, Latest(w.snaps, vm).value.id)
    ensures var s := Planned(cfg, diffVms, w, newId, vm, false);
            SafeToCapture(cfg, diffVms, w, vm) <==>
              Root(w, s, |w.base[vm]|) == w.base[vm] || (s.parent.Some? && |w.base[vm]| <= 1)
  {
    var base := w.base[vm];
    var n := |base|;
    var s := Planned(cfg, diffVms, w, newId, vm, false);
    if Root(w, s, n) == base || (s.parent.Some? && n <= 1) {
      forall step: Step | step.Create? && step.vm == vm && Enabled(diffVms, w, step) && SeeksWork(step.capture.image)
        ensures !Loses(cfg, diffVms, w, step)
      {
        SafeCapture(cfg, diffVms, w, step);
      }
    } else {
      if n > 0 {
        UnsafeCapture(cfg, diffVms, w, vm, newId);
      } else {
        RootSize(cfg, diffVms, w, vm, newId);
      }
    }
  }

  /**
   Once a VM has no row left, as after every successful resume, its next snapshot is recorded as
   full and is safe if and only if the image its dirty-page tracking started from is blank.
   */
  lemma {:induction false} SafeWithoutRowsIff(cfg: Config, diffVms: set<VmId>, w: World, vm: VmId, newId: SnapshotId)
    requires Inv(cfg, diffVms, w) && vm in diffVms && vm in w.base && OfVm(w.snaps, vm) == {}
    requires newId !in w.snaps && newId !in w.objects && newId !in w.taken
    ensures SafeToCapture(cfg, diffVms, w, vm) <==> forall i :: 0 <= i < |w.base[vm]| ==> w.base[vm][i] == 0
  {
    SafeToCaptureIff(cfg, diffVms, w, vm, newId);
    if forall i :: 0 <= i < |w.base[vm]| ==> w.base[vm][i] == 0 {
      assert w.base[vm] == ZeroImage(|w.base[vm]|);
    }
  }

  lemma {:induction false} RootSize(cfg: Config, diffVms: set<VmId>, w: World, vm: VmId, id: SnapshotId)
    requires Inv(cfg, diffVms, w) && vm in diffVms && vm in w.base
    ensures |Root(w, Planned(cfg, diffVms, w, id, vm, false), |w.base[vm]|)| == |w.base[vm]|
  {
    if Latest(w.snaps, vm).Some? {
      var newest := Newest(w.snaps, OfVm(w.snaps, vm));
      assert Row(cfg, w.snaps, w.clock, newest) && Stored(diffVms, w, newest);
    }
  }

  lemma {:induction false} SafeCapture(cfg: Config, diffVms: set<VmId>, w: World, step: Step)
    requires Inv(cfg, diffVms, w) && step.Create? && step.vm in diffVms && step.vm in w.base && Enabled(diffVms, w, step)
    requires SeeksWork(step.capture.image)
    requires var s := Planned(cfg, diffVms, w, step.id, step.vm, false);
             Root(w, s, |w.base[step.vm]|) == w.base[step.vm] || (s.parent.Some? && |w.base[step.vm]| <= 1)
    ensures !Loses(cfg, diffVms, w, step)
  {
    var s := Planned(cfg, diffVms, w, step.id, step.vm, step.capture.tooOld);
    ManifestEmptyIff(step.capture.image);
    forall i: nat | i < |step.memory| && NewRestorable(w, s, step.capture)
      ensures !LosesAt(w, s, step.memory, step.capture.image, i)
    {
      LosesAtIff(cfg, diffVms, w, step, i);
    }
  }

  lemma {:induction false} UnsafeCapture(cfg: Config, diffVms: set<VmId>, w: World, vm: VmId, newId: SnapshotId)
    requires Inv(cfg, diffVms, w) && vm in diffVms && vm in w.base && |w.base[vm]| > 0
    requires newId !in w.snaps && newId !in w.objects && newId !in w.taken
    requires Latest(w.snaps, vm).Some? ==> Restorable(w, Latest(w.snaps, vm).value.id)
    requires var s := Planned(cfg, diffVms, w, newId, vm, false);
             Root(w, s, |w.base[vm]|) != w.base[vm] && (s.parent.Some? ==> |w.base[vm]| > 1)
    ensures !SafeToCapture(cfg, diffVms, w, vm)
  {
    var base := w.base[vm];
    var s := Planned(cfg, diffVms, w, newId, vm, false);
    RootSize(cfg, diffVms, w, vm, newId);
    var i: nat :| i < |base| && Root(w, s, |base|)[i] != base[i];
    var d := if i == 0 then 1 else 0;
    var step := if s.parent.None? then IdleCapture(newId, vm, base, 0, 0) else IdleCapture(newId, vm, base, d, d + 1);
    if s.parent.None? {
      ExtentWorks(base, 0, 0);
    } else {
      ExtentWorks(base, d, d + 1);
    }
    assert Captures(base, base, step.capture.image);
    LosesAtIff(cfg, diffVms, w, step, i);
    assert LosesAt(w, s, base, step.capture.image, i);
    assert Loses(cfg, diffVms, w, step);
  }
}
