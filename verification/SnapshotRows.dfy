/**
 Runs of the snapshot table alone: what holds of the rows whatever the backend and the object
 store do, and how many cow deltas a restore in incremental disk mode fetches.
 */
module SnapshotRows {
  import opened Wrappers
  import opened SnapshotForest
  import Restore

  datatype Rows = Rows(snaps: Table, clock: nat)

  const NO_ROWS := Rows(map[], 0)

  datatype Step =
    | Add(id: SnapshotId, vm: VmId, tooOld: bool, recordOk: bool)
    | Drop(id: SnapshotId, repoFails: bool)

  ghost function Apply(cfg: Config, diffVms: set<VmId>, r: Rows, step: Step): Rows {
    match step
    case Add(id, vm, tooOld, recordOk) =>
      Rows(if recordOk then r.snaps[id := NewSnapshot(cfg, Latest(r.snaps, vm), id, vm, vm in diffVms, tooOld, r.clock)]
           else r.snaps, r.clock + 1)
    case Drop(id, repoFails) =>
      if Deletable(r.snaps, id) && !repoFails then r.(snaps := r.snaps - {id}) else r
  }

  /** The only demand on a run: new rows have new ids. */
  ghost predicate ValidRun(cfg: Config, diffVms: set<VmId>, r: Rows, steps: seq<Step>)
    decreases |steps|
  {
    steps == [] || ((steps[0].Add? ==> steps[0].id !in r.snaps) && ValidRun(cfg, diffVms, Apply(cfg, diffVms, r, steps[0]), steps[1..]))
  }

  ghost function Run(cfg: Config, diffVms: set<VmId>, r: Rows, steps: seq<Step>): Rows
    decreases |steps|
  {
    if steps == [] then r else Run(cfg, diffVms, Apply(cfg, diffVms, r, steps[0]), steps[1..])
  }

  // ------------------------------------------------------------------ invariant

  /** Only a VM with diffs has parents; a depth is recorded exactly on cow-only rows. */
  ghost predicate Shape(cfg: Config, diffVms: set<VmId>, s: Snapshot) {
    && (s.vm !in diffVms ==> s.parent.None?)
    && (s.disk.IncrementalDisk? ==> cfg.mode.IncrementalDisk?)
    && (s.chainLength == 0 <==> !s.disk.IncrementalDisk?)
  }

  /** With diffs in incremental disk mode, a row's recorded depth is its parent's plus one. */
  ghost predicate DiskDepth(t: Table, id: SnapshotId)
    requires id in t
  {
    var s := t[id];
    if s.disk.IncrementalDisk?
    then s.parent.Some? && s.parent.value in t && s.chainLength == t[s.parent.value].chainLength + 1
    else s.disk.FullDisk? && s.chainLength == 0
  }

  ghost predicate RowOk(cfg: Config, diffVms: set<VmId>, t: Table, id: SnapshotId)
    requires id in t
  {
    Shape(cfg, diffVms, t[id]) && (cfg.mode.IncrementalDisk? && t[id].vm in diffVms ==> DiskDepth(t, id))
  }

  ghost predicate Inv(cfg: Config, diffVms: set<VmId>, r: Rows) {
    && 0 < cfg.maxChain
    && Forest(cfg, r.snaps, r.clock)
    && Acyclic(r.snaps)
    && (forall id {:trigger RowOk(cfg, diffVms, r.snaps, id)} :: id in r.snaps ==> RowOk(cfg, diffVms, r.snaps, id))
  }

  lemma {:induction false} AddKeepsInv(cfg: Config, diffVms: set<VmId>, r: Rows, step: Step)
    requires Inv(cfg, diffVms, r) && step.Add? && step.id !in r.snaps
    ensures Inv(cfg, diffVms, Apply(cfg, diffVms, r, step))
  {
    var r' := Apply(cfg, diffVms, r, step);
    if step.recordOk {
      ForestAfterCreate(cfg, r.snaps, r.clock, step.id, step.vm, step.vm in diffVms, step.tooOld);
      var previous := Latest(r.snaps, step.vm);
      if previous.Some? {
        assert Row(cfg, r.snaps, r.clock, Newest(r.snaps, OfVm(r.snaps, step.vm)));
      }
      forall id | id in r'.snaps
        ensures RowOk(cfg, diffVms, r'.snaps, id)
      {
        if id != step.id {
          assert RowOk(cfg, diffVms, r.snaps, id) && Row(cfg, r.snaps, r.clock, id);
        }
      }
    } else {
      forall id | id in r.snaps
        ensures Row(cfg, r.snaps, r.clock + 1, id) && RowOk(cfg, diffVms, r'.snaps, id)
      {
        assert Row(cfg, r.snaps, r.clock, id) && RowOk(cfg, diffVms, r.snaps, id);
      }
    }
    ForestIsAcyclic(cfg, r'.snaps, r'.clock);
  }

  lemma {:induction false} DropKeepsInv(cfg: Config, diffVms: set<VmId>, r: Rows, step: Step)
    requires Inv(cfg, diffVms, r) && step.Drop?
    ensures Inv(cfg, diffVms, Apply(cfg, diffVms, r, step))
  {
    var r' := Apply(cfg, diffVms, r, step);
    if r' != r {
      ForestAfterDelete(cfg, r.snaps, r.clock, step.id);
      forall id | id in r'.snaps
        ensures RowOk(cfg, diffVms, r'.snaps, id)
      {
        assert RowOk(cfg, diffVms, r.snaps, id) && Row(cfg, r.snaps, r.clock, id);
        assert id in OfVm(r.snaps, r.snaps[id].vm);
      }
      ForestIsAcyclic(cfg, r'.snaps, r'.clock);
    }
  }

  lemma {:induction false} RunKeepsInv(cfg: Config, diffVms: set<VmId>, r: Rows, steps: seq<Step>)
    requires Inv(cfg, diffVms, r) && ValidRun(cfg, diffVms, r, steps)
    ensures Inv(cfg, diffVms, Run(cfg, diffVms, r, steps))
    decreases |steps|
  {
    if steps != [] {
      if steps[0].Add? {
        AddKeepsInv(cfg, diffVms, r, steps[0]);
      } else {
        DropKeepsInv(cfg, diffVms, r, steps[0]);
      }
      RunKeepsInv(cfg, diffVms, Apply(cfg, diffVms, r, steps[0]), steps[1..]);
    }
  }

  /**
   Over every run: a recorded parent is a recorded, strictly older row of the same VM, a row is
   full exactly when it has none, and every incremental row resolves to one full root followed
   only by incrementals, at least two rows in all.
   */
  lemma {:induction false} EveryRunResolves(cfg: Config, diffVms: set<VmId>, steps: seq<Step>, id: SnapshotId)
    requires 0 < cfg.maxChain && ValidRun(cfg, diffVms, NO_ROWS, steps)
    requires id in Run(cfg, diffVms, NO_ROWS, steps).snaps
    ensures var t := Run(cfg, diffVms, NO_ROWS, steps).snaps;
            var s := t[id];
            && Acyclic(t) && OlderParent(t, s)
            && (s.kind.Full? <==> s.parent.None?)
            && (s.parent.Some? ==> s.parent.value in t && t[s.parent.value].vm == s.vm && t[s.parent.value].createdAt < s.createdAt)
            && Walk(t, s) == Some(ChainOf(t, s)) && WellFormedChain(ChainOf(t, s))
            && (s.kind.Incremental? ==> |ChainOf(t, s)| >= 2)
  {
    RunKeepsInv(cfg, diffVms, NO_ROWS, steps);
    var r := Run(cfg, diffVms, NO_ROWS, steps);
    assert Row(cfg, r.snaps, r.clock, id) && OlderParent(r.snaps, r.snaps[id]);
    ChainShape(cfg, r.snaps, r.clock, r.snaps[id]);
  }

  // ------------------------------------------------------------------ cow deltas

  predicate FullDiskRoot(s: Snapshot) { s.disk.FullDisk? || s.disk.SelfContained? }

  /** Members of a leaf-first chain above its nearest whole disk, or above its root if there is none. */
  function CowDeltas(c: seq<Snapshot>): nat {
    if |c| <= 1 || FullDiskRoot(c[0]) then 0 else 1 + CowDeltas(c[1..])
  }

  lemma {:induction false} CowDeltasAt(c: seq<Snapshot>, k: nat)
    requires k < |c| && (FullDiskRoot(c[k]) || k == |c| - 1) && forall j :: 0 <= j < k ==> !FullDiskRoot(c[j])
    ensures CowDeltas(c) == k
  {
    if k > 0 {
      CowDeltasAt(c[1..], k - 1);
    }
  }

  /** ResumeVM's scan of a root-first chain for the last member with a whole disk image. */
  method DiskRootIndex(chain: seq<Snapshot>) returns (root: nat)
    requires chain != []
    ensures root < |chain| && |chain| - 1 - root == CowDeltas(Reverse(chain))
    ensures (exists k :: 0 <= k < |chain| && FullDiskRoot(chain[k])) ==> FullDiskRoot(chain[root])
    ensures root > 0 ==> chain[root].disk in {FullDisk, SelfContained}
    ensures forall k :: root < k < |chain| ==> chain[k].disk !in {FullDisk, SelfContained}
  {
    root := 0;
    for i := 0 to |chain|
      invariant root < |chain| && (root == 0 || root < i)
      invariant FullDiskRoot(chain[root]) || root == 0
      invariant (exists k :: 0 <= k < i && FullDiskRoot(chain[k])) ==> FullDiskRoot(chain[root])
      invariant forall k :: root < k < i ==> !FullDiskRoot(chain[k])
    {
      if FullDiskRoot(chain[i]) { root := i; }
    }
    CowDeltasAt(Reverse(chain), |chain| - 1 - root);
  }

  /** The deltas ResumeVM fetches: only a cow-only row with a chain has any. */
  ghost function Fetched(t: Table, s: Snapshot): nat
    requires Acyclic(t) && OlderParent(t, s)
  {
    if s.disk.IncrementalDisk? && s.kind.Incremental? && s.parent.Some? then CowDeltas(ChainOf(t, s)) else 0
  }

  /** Leaf first, the recorded depth is the distance to the nearest full-disk member. */
  lemma {:induction false} DepthIsDistance(cfg: Config, diffVms: set<VmId>, r: Rows, s: Snapshot)
    requires Inv(cfg, diffVms, r) && s.id in r.snaps && r.snaps[s.id] == s && OlderParent(r.snaps, s)
    requires cfg.mode.IncrementalDisk? && s.vm in diffVms
    ensures s.chainLength < |ChainOf(r.snaps, s)|
    ensures ChainOf(r.snaps, s)[s.chainLength].disk.FullDisk?
    ensures forall k :: 0 <= k < s.chainLength ==> ChainOf(r.snaps, s)[k].disk.IncrementalDisk?
    decreases s.createdAt
  {
    assert Row(cfg, r.snaps, r.clock, s.id) && RowOk(cfg, diffVms, r.snaps, s.id);
    if s.disk.IncrementalDisk? {
      var p := r.snaps[s.parent.value];
      assert Row(cfg, r.snaps, r.clock, s.parent.value) && OlderParent(r.snaps, r.snaps[s.parent.value]);
      DepthIsDistance(cfg, diffVms, r, p);
      assert ChainOf(r.snaps, s) == [s] + ChainOf(r.snaps, p);
    }
  }

  /**
   In every reachable state the recorded depth is below the bound, and it is the number of cow
   deltas a restore fetches if and only if the VM takes diffs or the row has a whole disk; with
   diffs these are the chain members after the last full disk. Otherwise none is fetched.
   */
  lemma {:induction false} EveryRunFetchesDepthIff(cfg: Config, diffVms: set<VmId>, steps: seq<Step>, id: SnapshotId)
    requires 0 < cfg.maxChain && ValidRun(cfg, diffVms, NO_ROWS, steps)
    requires id in Run(cfg, diffVms, NO_ROWS, steps).snaps
    ensures var t := Run(cfg, diffVms, NO_ROWS, steps).snaps;
            var s := t[id];
            && Acyclic(t) && OlderParent(t, s) && s.chainLength < cfg.maxChain
            && (Fetched(t, s) == s.chainLength <==> s.vm in diffVms || !s.disk.IncrementalDisk?)
            && (s.vm !in diffVms ==> Fetched(t, s) == 0)
            && (s.vm in diffVms && cfg.mode.IncrementalDisk? ==>
                  && s.chainLength < |ChainOf(t, s)| && ChainOf(t, s)[s.chainLength].disk.FullDisk?
                  && forall k :: 0 <= k < s.chainLength ==> ChainOf(t, s)[k].disk.IncrementalDisk?)
  {
    RunKeepsInv(cfg, diffVms, NO_ROWS, steps);
    var r := Run(cfg, diffVms, NO_ROWS, steps);
    var s := r.snaps[id];
    assert Row(cfg, r.snaps, r.clock, id) && RowOk(cfg, diffVms, r.snaps, id) && OlderParent(r.snaps, s);
    if s.vm in diffVms && cfg.mode.IncrementalDisk? {
      DepthIsDistance(cfg, diffVms, r, s);
      CowDeltasAt(ChainOf(r.snaps, s), s.chainLength);
    }
  }

  // ------------------------------------------------------------------ failing runs

  /**
   In every reachable state, the row the next create records. It is the child of the VM's newest row
   if the VM takes diffs. It has a disk of cow deltas only if and only if the mode is incremental and
   there is a newest row, not too old and not at the bound; otherwise the disk is whole, and of the
   configured kind when the mode is another one. A row added when too old fetches no delta.
   */
  lemma {:induction false} EveryRunAdds(cfg: Config, diffVms: set<VmId>, steps: seq<Step>, step: Step)
    requires 0 < cfg.maxChain && ValidRun(cfg, diffVms, NO_ROWS, steps)
    requires var r := Run(cfg, diffVms, NO_ROWS, steps); step.Add? && step.recordOk && step.id !in r.snaps
    ensures var r := Run(cfg, diffVms, NO_ROWS, steps);
            var t := Apply(cfg, diffVms, r, step).snaps;
            && t.Keys == r.snaps.Keys + {step.id} && (forall x :: x in r.snaps ==> t[x] == r.snaps[x])
            && var s := t[step.id];
            && s.id == step.id && s.vm == step.vm && s.createdAt == r.clock
            && (forall n :: IsNewest(r.snaps, OfVm(r.snaps, step.vm), n) ==>
                  && s.parent == (if step.vm in diffVms then Some(n) else None)
                  && (s.disk == IncrementalDisk <==>
                        cfg.mode == IncrementalDisk && !step.tooOld && r.snaps[n].chainLength + 1 < cfg.maxChain)
                  && (s.disk == IncrementalDisk ==> s.chainLength == r.snaps[n].chainLength + 1))
            && (OfVm(r.snaps, step.vm) == {} ==> s.parent == None && s.disk != IncrementalDisk)
            && (s.disk != IncrementalDisk ==> s.chainLength == 0)
            && (cfg.mode == IncrementalDisk && s.disk != IncrementalDisk ==> s.disk == FullDisk)
            && (cfg.mode != IncrementalDisk ==> s.disk == cfg.mode)
            && Acyclic(t) && OlderParent(t, s) && (step.tooOld ==> Fetched(t, s) == 0)
  {
    RunKeepsInv(cfg, diffVms, NO_ROWS, steps);
    var r := Run(cfg, diffVms, NO_ROWS, steps);
    AddKeepsInv(cfg, diffVms, r, step);
    assert OlderParent(Apply(cfg, diffVms, r, step).snaps, Apply(cfg, diffVms, r, step).snaps[step.id]);
    if OfVm(r.snaps, step.vm) != {} {
      var newest := Newest(r.snaps, OfVm(r.snaps, step.vm));
      assert Row(cfg, r.snaps, r.clock, newest);
      forall n | IsNewest(r.snaps, OfVm(r.snaps, step.vm), n)
        ensures n == newest
      {
        assert Time(r.snaps, n) == Time(r.snaps, newest);
      }
    }
  }

  /** Two snapshots of one VM, one after the other. */
  function TwoSteps(a: SnapshotId, b: SnapshotId, vm: VmId): seq<Step> {
    [Add(a, vm, false, true), Add(b, vm, false, true)]
  }

  lemma {:induction false} AfterTwoSteps(cfg: Config, diffVms: set<VmId>, a: SnapshotId, b: SnapshotId, vm: VmId)
    requires a != b && 0 < cfg.maxChain
    ensures ValidRun(cfg, diffVms, NO_ROWS, TwoSteps(a, b, vm))
    ensures var first := NewSnapshot(cfg, None, a, vm, vm in diffVms, false, 0);
            Run(cfg, diffVms, NO_ROWS, TwoSteps(a, b, vm))
              == Rows(map[a := first, b := NewSnapshot(cfg, Some(first), b, vm, vm in diffVms, false, 1)], 2)
  {
    var steps := TwoSteps(a, b, vm);
    var r1 := Apply(cfg, diffVms, NO_ROWS, steps[0]);
    var r2 := Apply(cfg, diffVms, r1, steps[1]);
    LatestIs(r1.snaps, vm, a);
    assert steps[1..] == [steps[1]] && [steps[1]][1..] == [];
    assert Run(cfg, diffVms, r2, []) == r2;
    assert ValidRun(cfg, diffVms, r2, []) && ValidRun(cfg, diffVms, r1, [steps[1]]);
    assert Run(cfg, diffVms, r1, [steps[1]]) == r2;
  }

  /** Without diffs the second snapshot of a VM records depth 1, and no delta is ever fetched for it. */
  lemma {:induction false} DepthDriftIsReachable(cfg: Config, a: SnapshotId, b: SnapshotId, vm: VmId)
    requires a != b && cfg.mode.IncrementalDisk? && 1 < cfg.maxChain
    ensures ValidRun(cfg, {}, NO_ROWS, TwoSteps(a, b, vm))
    ensures var t := Run(cfg, {}, NO_ROWS, TwoSteps(a, b, vm)).snaps;
            b in t && Acyclic(t) && OlderParent(t, t[b]) && t[b].chainLength == 1 && Fetched(t, t[b]) == 0
  {
    AfterTwoSteps(cfg, {}, a, b, vm);
    EveryRunResolves(cfg, {}, TwoSteps(a, b, vm), b);
  }

  /** GC with the id of the snapshot before the newest deletes the newest. */
  lemma {:induction false} StaleGcIsReachable(cfg: Config, a: SnapshotId, b: SnapshotId, vm: VmId)
    requires a != b && 0 < cfg.maxChain
    ensures ValidRun(cfg, {vm}, NO_ROWS, TwoSteps(a, b, vm))
    ensures var t := Run(cfg, {vm}, NO_ROWS, TwoSteps(a, b, vm)).snaps;
            && a in t && b in t && Acyclic(t) && OlderParent(t, t[a])
            && Latest(t, vm) == Some(t[b]) && b !in Kept(t, vm, t[a])
  {
    AfterTwoSteps(cfg, {vm}, a, b, vm);
    RunKeepsInv(cfg, {vm}, NO_ROWS, TwoSteps(a, b, vm));
    var r := Run(cfg, {vm}, NO_ROWS, TwoSteps(a, b, vm));
    assert OlderParent(r.snaps, r.snaps[a]);
    assert forall x :: x in r.snaps ==> x == a || x == b;
    LatestIs(r.snaps, vm, b);
    assert b in OfVm(r.snaps, vm);
    assert IsNewest(r.snaps, OfVm(r.snaps, vm), b);
    GcKeepsNewestIff(cfg, r.snaps, r.clock, a, b);
  }

  // ------------------------------------------------------------------ the rows of the whole service

  ghost function RowsOf(w: Restore.World): Rows { Rows(w.snaps, w.clock) }

  /** What a run of the service does to the table; a resume does nothing to it. */
  function RowSteps(steps: seq<Restore.Step>): seq<Step> {
    if steps == [] then []
    else (if steps[0].Resume? then [] else [RowStep(steps[0])]) + RowSteps(steps[1..])
  }

  function RowStep(step: Restore.Step): Step
    requires !step.Resume?
  {
    match step
    case Create(id, vm, _, capture) => Add(id, vm, capture.tooOld, capture.recordOk)
    case Delete(id, _, repoFails) => Drop(id, repoFails)
  }

  /** So all of the above holds of every run of the service. */
  lemma {:induction false} ServiceRunsAreRowRuns(cfg: Config, diffVms: set<VmId>, w: Restore.World, steps: seq<Restore.Step>)
    requires Restore.ValidRun(cfg, diffVms, w, steps)
    ensures ValidRun(cfg, diffVms, RowsOf(w), RowSteps(steps))
    ensures Run(cfg, diffVms, RowsOf(w), RowSteps(steps)) == RowsOf(Restore.Run(cfg, diffVms, w, steps))
    decreases |steps|
  {
    if steps != [] {
      var w' := Restore.Apply(cfg, diffVms, w, steps[0]);
      ServiceRunsAreRowRuns(cfg, diffVms, w', steps[1..]);
      if steps[0].Resume? {
        assert RowSteps(steps) == RowSteps(steps[1..]);
      } else {
        var first := RowStep(steps[0]);
        ServiceStepIsRowStep(cfg, diffVms, w, steps[0]);
        RunStarts(cfg, diffVms, RowsOf(w), first, RowSteps(steps[1..]));
        assert RowSteps(steps) == [first] + RowSteps(steps[1..]);
      }
    }
  }

  lemma {:induction false} ServiceStepIsRowStep(cfg: Config, diffVms: set<VmId>, w: Restore.World, step: Restore.Step)
    requires Restore.Enabled(diffVms, w, step) && !step.Resume?
    ensures Apply(cfg, diffVms, RowsOf(w), RowStep(step)) == RowsOf(Restore.Apply(cfg, diffVms, w, step))
    ensures RowStep(step).Add? ==> RowStep(step).id !in w.snaps
  {
  }

  lemma {:induction false} RunStarts(cfg: Config, diffVms: set<VmId>, r: Rows, first: Step, rest: seq<Step>)
    requires first.Add? ==> first.id !in r.snaps
    ensures Run(cfg, diffVms, r, [first] + rest) == Run(cfg, diffVms, Apply(cfg, diffVms, r, first), rest)
    ensures ValidRun(cfg, diffVms, r, [first] + rest) <==> ValidRun(cfg, diffVms, Apply(cfg, diffVms, r, first), rest)
  {
    assert ([first] + rest)[1..] == rest;
  }
}
