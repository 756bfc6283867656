/**
 Runs of the snapshot service against a backend and an object store, and what a restore yields.
 The world keeps, beside the rows and objects, the guest memory each snapshot was taken of and,
 for each VM, the image its dirty-page tracking last started from; the service reads neither.
 */
module Restore {
  import opened Wrappers
  import opened SparseIO
  import opened SnapshotForest

  /** The uploaded memory file of one snapshot and, for a diff, its manifest. */
  datatype Objects = Objects(memory: seq<Byte>, manifest: Option<seq<Region>>)

  /**
   taken: the memory behind every capture, recorded or not. base: the image of a VM at its last
   capture or restore; last: the snapshot that was, so the two change together.
   */
  datatype World = World(snaps: Table, objects: map<SnapshotId, Objects>, taken: map<SnapshotId, seq<Byte>>,
                         base: map<VmId, seq<Byte>>, last: map<VmId, SnapshotId>, clock: nat)

  /** What the backend wrote for one snapshot, and which later steps went through. */
  datatype Capture = Capture(image: Source, tooOld: bool, extractOk: bool, uploadOk: bool, recordOk: bool)

  /** What a delete under a snapshot's prefix, whose error is ignored, may leave there. */
  datatype Leftover = Nothing | NoManifest | Everything

  datatype Step =
    | Create(id: SnapshotId, vm: VmId, memory: seq<Byte>, capture: Capture)
    | Delete(id: SnapshotId, left: Leftover, repoFails: bool)
    | Resume(vm: VmId)

  const EMPTY := World(map[], map[], map[], map[], map[], 0)

  // ------------------------------------------------------------------ restore

  datatype Outcome = Restored(memory: seq<Byte>) | FreshVm | Refused

  /** Root memory with every diff of a leaf-first chain overlaid, if all objects are there. */
  ghost function Merged(objects: map<SnapshotId, Objects>, c: seq<Snapshot>): Option<seq<Byte>>
    requires c != []
  {
    if c[0].id !in objects then None
    else if |c| == 1 then Some(objects[c[0].id].memory)
    else
      var below := Merged(objects, c[1..]);
      var diff := objects[c[0].id];
      if below.None? || diff.manifest.None? || !AllReadable(diff.manifest.value, |diff.memory|) then None
      else Some(Overlay(below.value, diff.memory, diff.manifest.value))
  }

  /**
   The memory ResumeVM hands to the backend. A leaf whose own files cannot be fetched is
   refused; a broken chain falls back to a newly created VM.
   */
  ghost function RestoreOutcome(t: Table, objects: map<SnapshotId, Objects>, id: SnapshotId): Outcome
    requires Acyclic(t) && id in t && OlderParent(t, t[id])
  {
    var s := t[id];
    if s.kind.Incremental? && s.parent.Some? then
      match Walk(t, s)
      case None => FreshVm
      case Some(c) =>
        if id !in objects || objects[id].manifest.None? then Refused
        else match Merged(objects, c)
             case Some(m) => Restored(m)
             case None => FreshVm
    else if id !in objects then Refused
    else Restored(objects[id].memory)
  }

  /** Every member's memory is stored, and every diff has a manifest. */
  ghost predicate Complete(objects: map<SnapshotId, Objects>, c: seq<Snapshot>) {
    forall k :: 0 <= k < |c| ==> c[k].id in objects && (k < |c| - 1 ==> objects[c[k].id].manifest.Some?)
  }

  /** A restore of the row finds all it needs. */
  ghost predicate Restorable(w: World, id: SnapshotId) {
    id in w.snaps && Acyclic(w.snaps) && OlderParent(w.snaps, w.snaps[id]) && Complete(w.objects, ChainOf(w.snaps, w.snaps[id]))
  }

  /** The memory a resume of the VM starts from: its newest row, if that restores. */
  ghost function Reloaded(w: World, vm: VmId): Option<seq<Byte>> {
    match Latest(w.snaps, vm)
    case None => None
    case Some(s) =>
      if s.id in w.snaps && Acyclic(w.snaps) && OlderParent(w.snaps, w.snaps[s.id])
         && RestoreOutcome(w.snaps, w.objects, s.id).Restored?
      then Some(RestoreOutcome(w.snaps, w.objects, s.id).memory) else None
  }

  // ------------------------------------------------------------------ steps

  /** No manifest is written for an empty list of regions. */
  ghost function ManifestOf(kind: Kind, capture: Capture): Option<seq<Region>>
    requires capture.image.Valid()
  {
    if kind.Incremental? && capture.extractOk && RegionsFrom(capture.image, 0) != []
    then Some(RegionsFrom(capture.image, 0)) else None
  }

  ghost function Planned(cfg: Config, diffVms: set<VmId>, w: World, id: SnapshotId, vm: VmId, tooOld: bool): Snapshot {
    NewSnapshot(cfg, Latest(w.snaps, vm), id, vm, vm in diffVms, tooOld, w.clock)
  }

  /** The capture itself restarts dirty-page tracking, whether or not a row is recorded for it. */
  ghost function ApplyCreate(cfg: Config, diffVms: set<VmId>, w: World,
                             id: SnapshotId, vm: VmId, memory: seq<Byte>, capture: Capture): World
    requires capture.image.Valid()
  {
    var s := Planned(cfg, diffVms, w, id, vm, capture.tooOld);
    World(if capture.recordOk then w.snaps[id := s] else w.snaps,
          if capture.uploadOk then w.objects[id := Objects(capture.image.bytes, ManifestOf(s.kind, capture))] else w.objects,
          w.taken[id := memory], w.base[vm := memory], w.last[vm := id], w.clock + 1)
  }

  function Remaining(objects: map<SnapshotId, Objects>, id: SnapshotId, left: Leftover): map<SnapshotId, Objects> {
    match left
    case Nothing => objects - {id}
    case NoManifest => if id in objects then objects[id := objects[id].(manifest := None)] else objects
    case Everything => objects
  }

  /** The objects go first; a failed row delete then leaves a row without some of its objects. */
  ghost function ApplyDelete(w: World, id: SnapshotId, left: Leftover, repoFails: bool): World {
    if !Deletable(w.snaps, id) then w
    else w.(objects := Remaining(w.objects, id, left), snaps := if repoFails then w.snaps else w.snaps - {id})
  }

  ghost function ApplyResume(w: World, vm: VmId): World {
    match Reloaded(w, vm)
    case None => w
    case Some(m) => w.(base := w.base[vm := m], last := w.last[vm := Latest(w.snaps, vm).value.id])
  }

  ghost function Apply(cfg: Config, diffVms: set<VmId>, w: World, step: Step): World
    requires step.Create? ==> step.capture.image.Valid()
  {
    match step
    case Create(id, vm, memory, capture) => ApplyCreate(cfg, diffVms, w, id, vm, memory, capture)
    case Delete(id, left, repoFails) => ApplyDelete(w, id, left, repoFails)
    case Resume(vm) => ApplyResume(w, vm)
  }

  /** The image a diff of the VM is relative to: its last capture or restore, or blank memory at boot. */
  ghost function Base(w: World, vm: VmId, n: nat): seq<Byte> {
    if vm in w.base then w.base[vm] else ZeroImage(n)
  }

  /**
   A fresh id, and the backend contract. Of a VM with diffs every capture is a diff, whatever row
   the service then records for it; of any other VM it is the whole memory.
   */
  ghost predicate Enabled(diffVms: set<VmId>, w: World, step: Step) {
    step.Create? ==>
      && step.id !in w.snaps && step.id !in w.objects && step.id !in w.taken
      && step.capture.image.Valid()
      && if step.vm in diffVms then Captures(Base(w, step.vm, |step.memory|), step.memory, step.capture.image)
         else step.capture.image.bytes == step.memory
  }

  ghost predicate ValidRun(cfg: Config, diffVms: set<VmId>, w: World, steps: seq<Step>)
    decreases |steps|
  {
    steps == [] || (Enabled(diffVms, w, steps[0])
                    && ValidRun(cfg, diffVms, Apply(cfg, diffVms, w, steps[0]), steps[1..]))
  }

  ghost function Run(cfg: Config, diffVms: set<VmId>, w: World, steps: seq<Step>): World
    requires ValidRun(cfg, diffVms, w, steps)
    decreases |steps|
  {
    if steps == [] then w else Run(cfg, diffVms, Apply(cfg, diffVms, w, steps[0]), steps[1..])
  }

  // ------------------------------------------------------------------ invariant of every run

  /** The stored objects of a row have its size and fit together; sizes agree along a chain. */
  ghost predicate Stored(diffVms: set<VmId>, w: World, id: SnapshotId)
    requires id in w.snaps
  {
    var s := w.snaps[id];
    && id in w.taken
    && (s.parent.Some? ==> s.vm in diffVms && s.parent.value in w.taken && |w.taken[s.parent.value]| == |w.taken[id]|)
    && (s.vm in diffVms ==> s.vm in w.base && |w.base[s.vm]| == |w.taken[id]|)
    && (id in w.objects ==>
          && |w.objects[id].memory| == |w.taken[id]|
          && (w.objects[id].manifest.Some? ==> AllReadable(w.objects[id].manifest.value, |w.taken[id]|)))
  }

  ghost predicate Inv(cfg: Config, diffVms: set<VmId>, w: World) {
    && 0 < cfg.maxChain
    && Forest(cfg, w.snaps, w.clock)
    && Acyclic(w.snaps)
    && (forall id {:trigger Stored(diffVms, w, id)} :: id in w.snaps ==> Stored(diffVms, w, id))
  }

  lemma {:induction false} CreateKeepsInv(cfg: Config, diffVms: set<VmId>, w: World, step: Step)
    requires Inv(cfg, diffVms, w) && step.Create? && Enabled(diffVms, w, step)
    ensures Inv(cfg, diffVms, Apply(cfg, diffVms, w, step))
  {
    var w' := Apply(cfg, diffVms, w, step);
    if step.capture.recordOk {
      ForestAfterCreate(cfg, w.snaps, w.clock, step.id, step.vm, step.vm in diffVms, step.capture.tooOld);
    } else {
      forall id | id in w.snaps
        ensures Row(cfg, w.snaps, w.clock + 1, id)
      {
        assert Row(cfg, w.snaps, w.clock, id);
      }
    }
    forall id | id in w'.snaps
      ensures Stored(diffVms, w', id)
    {
      if id == step.id {
        NewRowIsStored(cfg, diffVms, w, step);
      } else {
        OldRowStaysStored(cfg, diffVms, w, step, id);
      }
    }
    ForestIsAcyclic(cfg, w'.snaps, w'.clock);
  }

  lemma {:induction false} NewRowIsStored(cfg: Config, diffVms: set<VmId>, w: World, step: Step)
    requires Inv(cfg, diffVms, w) && step.Create? && Enabled(diffVms, w, step) && step.capture.recordOk
    ensures Stored(diffVms, Apply(cfg, diffVms, w, step), step.id)
  {
    RegionsOrdered(step.capture.image, 0);
    if Latest(w.snaps, step.vm).Some? {
      var newest := Newest(w.snaps, OfVm(w.snaps, step.vm));
      assert Row(cfg, w.snaps, w.clock, newest) && Stored(diffVms, w, newest);
    }
  }

  lemma {:induction false} OldRowStaysStored(cfg: Config, diffVms: set<VmId>, w: World, step: Step, id: SnapshotId)
    requires Inv(cfg, diffVms, w) && step.Create? && Enabled(diffVms, w, step) && id in w.snaps
    ensures Stored(diffVms, Apply(cfg, diffVms, w, step), id)
  {
    assert Stored(diffVms, w, id) && Row(cfg, w.snaps, w.clock, id);
  }

  lemma {:induction false} DeleteKeepsInv(cfg: Config, diffVms: set<VmId>, w: World, id: SnapshotId, left: Leftover, repoFails: bool)
    requires Inv(cfg, diffVms, w)
    ensures Inv(cfg, diffVms, ApplyDelete(w, id, left, repoFails))
  {
    var w' := ApplyDelete(w, id, left, repoFails);
    if Deletable(w.snaps, id) {
      ForestAfterDelete(cfg, w.snaps, w.clock, id);
      forall x | x in w'.snaps
        ensures Stored(diffVms, w', x)
      {
        assert Stored(diffVms, w, x);
      }
    }
    ForestIsAcyclic(cfg, w'.snaps, w'.clock);
  }

  /** A merge of complete objects succeeds, with an image of the right size. */
  lemma {:induction false} MergedOfComplete(cfg: Config, diffVms: set<VmId>, w: World, s: Snapshot)
    requires Inv(cfg, diffVms, w) && s.id in w.snaps && w.snaps[s.id] == s && OlderParent(w.snaps, s)
    ensures s.id in w.taken
    ensures var merged := Merged(w.objects, ChainOf(w.snaps, s));
            if Complete(w.objects, ChainOf(w.snaps, s)) then merged.Some? && |merged.value| == |w.taken[s.id]| else merged.None?
    decreases s.createdAt
  {
    var c := ChainOf(w.snaps, s);
    assert Row(cfg, w.snaps, w.clock, s.id) && Stored(diffVms, w, s.id);
    if s.parent.Some? {
      var p := w.snaps[s.parent.value];
      assert Row(cfg, w.snaps, w.clock, s.parent.value) && OlderParent(w.snaps, w.snaps[s.parent.value]);
      MergedOfComplete(cfg, diffVms, w, p);
      var d := ChainOf(w.snaps, p);
      assert c == [s] + d && c[1..] == d;
      CompleteCons(w.objects, s, d);
      if Complete(w.objects, c) {
        OverlayAt(Merged(w.objects, d).value, w.objects[s.id].memory, w.objects[s.id].manifest.value, 0);
      }
    } else {
      assert c == [s];
    }
  }

  /** In every state a restore yields memory exactly for the restorable rows, and then the merge of the chain. */
  lemma {:induction false} RestoredIff(cfg: Config, diffVms: set<VmId>, w: World, id: SnapshotId)
    requires Inv(cfg, diffVms, w) && id in w.snaps
    ensures OlderParent(w.snaps, w.snaps[id]) && id in w.taken
    ensures RestoreOutcome(w.snaps, w.objects, id).Restored? <==> Restorable(w, id)
    ensures Restorable(w, id) ==>
              var merged := Merged(w.objects, ChainOf(w.snaps, w.snaps[id]));
              merged == Some(RestoreOutcome(w.snaps, w.objects, id).memory) && |merged.value| == |w.taken[id]|
  {
    var s := w.snaps[id];
    assert Row(cfg, w.snaps, w.clock, id) && OlderParent(w.snaps, s);
    ChainShape(cfg, w.snaps, w.clock, s);
    MergedOfComplete(cfg, diffVms, w, s);
    var c := ChainOf(w.snaps, s);
    assert c[0] == s;
    if s.parent.None? {
      assert c == [s];
    }
  }

  /**
   What a restore does in every state. It is refused if and only if the snapshot's own object is
   missing or, on top of a parent, its own manifest. It makes a fresh VM if and only if those are
   there and the object or manifest of another member of the chain is missing.
   */
  lemma {:induction false} RestoreOutcomeIff(cfg: Config, diffVms: set<VmId>, w: World, id: SnapshotId)
    requires Inv(cfg, diffVms, w) && id in w.snaps
    ensures OlderParent(w.snaps, w.snaps[id])
    ensures RestoreOutcome(w.snaps, w.objects, id) == Refused <==>
              id !in w.objects || (w.snaps[id].parent.Some? && w.objects[id].manifest.None?)
    ensures RestoreOutcome(w.snaps, w.objects, id) == FreshVm <==>
              && id in w.objects && (w.snaps[id].parent.Some? ==> w.objects[id].manifest.Some?)
              && var c := ChainOf(w.snaps, w.snaps[id]);
                 exists k :: 1 <= k < |c| && (c[k].id !in w.objects || (k < |c| - 1 && w.objects[c[k].id].manifest.None?))
  {
    RestoredIff(cfg, diffVms, w, id);
    var s := w.snaps[id];
    assert Row(cfg, w.snaps, w.clock, id);
    ChainShape(cfg, w.snaps, w.clock, s);
    var c := ChainOf(w.snaps, s);
    assert c[0] == s;
    if s.parent.None? {
      assert c == [s];
    }
  }

  /** A delete of a childless row: its objects go unless the store keeps some, then its row unless that fails; nothing else. */
  lemma {:induction false} DeleteEffect(w: World, id: SnapshotId, left: Leftover, repoFails: bool, other: SnapshotId)
    requires id in w.snaps && !HasChildren(w.snaps, id) && other != id
    ensures var w' := ApplyDelete(w, id, left, repoFails);
            && (id in w'.snaps <==> repoFails)
            && (left.Nothing? ==> id !in w'.objects)
            && (left.NoManifest? && id in w.objects ==> id in w'.objects && w'.objects[id] == Objects(w.objects[id].memory, None))
            && (left.Everything? ==> w'.objects == w.objects)
            && (other in w'.snaps <==> other in w.snaps) && (other in w.snaps ==> w'.snaps[other] == w.snaps[other])
            && (other in w'.objects <==> other in w.objects) && (other in w.objects ==> w'.objects[other] == w.objects[other])
            && w'.base == w.base && w'.last == w.last
  {
  }

  lemma {:induction false} ResumeKeepsInv(cfg: Config, diffVms: set<VmId>, w: World, vm: VmId)
    requires Inv(cfg, diffVms, w)
    ensures Inv(cfg, diffVms, ApplyResume(w, vm))
  {
    if Reloaded(w, vm).Some? {
      var newest := Newest(w.snaps, OfVm(w.snaps, vm));
      assert Row(cfg, w.snaps, w.clock, newest) && Stored(diffVms, w, newest);
      RestoredIff(cfg, diffVms, w, newest);
      var w' := ApplyResume(w, vm);
      forall x | x in w'.snaps
        ensures Stored(diffVms, w', x)
      {
        assert Stored(diffVms, w, x);
      }
    }
  }

  lemma {:induction false} StepKeepsInv(cfg: Config, diffVms: set<VmId>, w: World, step: Step)
    requires Inv(cfg, diffVms, w) && Enabled(diffVms, w, step)
    ensures Inv(cfg, diffVms, Apply(cfg, diffVms, w, step))
  {
    match step {
      case Create(_, _, _, _) => CreateKeepsInv(cfg, diffVms, w, step);
      case Delete(id, left, repoFails) => DeleteKeepsInv(cfg, diffVms, w, id, left, repoFails);
      case Resume(vm) => ResumeKeepsInv(cfg, diffVms, w, vm);
    }
  }

  lemma {:induction false} RunKeepsInv(cfg: Config, diffVms: set<VmId>, w: World, steps: seq<Step>)
    requires Inv(cfg, diffVms, w) && ValidRun(cfg, diffVms, w, steps)
    ensures Inv(cfg, diffVms, Run(cfg, diffVms, w, steps))
    decreases |steps|
  {
    if steps != [] {
      StepKeepsInv(cfg, diffVms, w, steps[0]);
      RunKeepsInv(cfg, diffVms, Apply(cfg, diffVms, w, steps[0]), steps[1..]);
    }
  }

  // ------------------------------------------------------------------ chains and objects

  lemma {:induction false} CompleteCons(objects: map<SnapshotId, Objects>, s: Snapshot, d: seq<Snapshot>)
    requires d != []
    ensures Complete(objects, [s] + d) <==>
              s.id in objects && objects[s.id].manifest.Some? && Complete(objects, d)
  {
    var c := [s] + d;
    if Complete(objects, c) {
      assert c[0] == s;
      forall k | 0 <= k < |d|
        ensures d[k].id in objects && (k < |d| - 1 ==> objects[d[k].id].manifest.Some?)
      {
        assert c[k + 1] == d[k];
      }
    }
  }

  /** A recorded row extends its parent's chain and leaves that chain as it was. */
  lemma {:induction false} ChainAfterCreate(cfg: Config, t: Table, clock: nat, s: Snapshot)
    requires Forest(cfg, t, clock) && Acyclic(t) && s.id !in t
    requires Forest(cfg, t[s.id := s], clock + 1) && Acyclic(t[s.id := s]) && OlderParent(t[s.id := s], s)
    requires s.parent.Some? && s.parent.value in t && OlderParent(t, t[s.parent.value])
    ensures ChainOf(t[s.id := s], s) == [s] + ChainOf(t, t[s.parent.value])
    ensures forall k :: 0 <= k < |ChainOf(t, t[s.parent.value])| ==> ChainOf(t, t[s.parent.value])[k].id in t
  {
    var t' := t[s.id := s];
    var p := t[s.parent.value];
    assert Row(cfg, t, clock, s.parent.value) && OlderParent(t', t'[s.parent.value]);
    assert forall x :: x in t ==> Row(cfg, t, clock, x);
    ChainGrows(t, t', p);
    ChainShape(cfg, t, clock, p);
  }

  ghost predicate SameObjects(objects: map<SnapshotId, Objects>, objects': map<SnapshotId, Objects>, c: seq<Snapshot>) {
    forall k :: 0 <= k < |c| ==> (c[k].id in objects <==> c[k].id in objects')
                                 && (c[k].id in objects ==> objects[c[k].id] == objects'[c[k].id])
  }

  lemma {:induction false} CompleteUnaffected(objects: map<SnapshotId, Objects>, objects': map<SnapshotId, Objects>, c: seq<Snapshot>)
    requires SameObjects(objects, objects', c)
    ensures Complete(objects, c) <==> Complete(objects', c)
  {
  }

  lemma {:induction false} ChainGrows(t: Table, t': Table, s: Snapshot)
    requires Acyclic(t) && Acyclic(t') && OlderParent(t, s) && OlderParent(t', s)
    requires forall x :: x in t ==> x in t' && t'[x] == t[x]
    requires s.parent.Some? ==> s.parent.value in t
    requires forall x :: x in t && t[x].parent.Some? ==> t[x].parent.value in t
    ensures ChainOf(t', s) == ChainOf(t, s)
    decreases s.createdAt
  {
    if s.parent.Some? {
      var p := t[s.parent.value];
      assert OlderParent(t, t[s.parent.value]) && OlderParent(t', t'[s.parent.value]);
      ChainGrows(t, t', p);
    }
  }

  /** A row without children is on no other row's chain. */
  lemma {:induction false} ChildlessIsOffChain(cfg: Config, t: Table, clock: nat, id: SnapshotId, s: Snapshot)
    requires Forest(cfg, t, clock) && Acyclic(t) && id in t && !HasChildren(t, id)
    requires s.id in t && t[s.id] == s && s.id != id && OlderParent(t, s)
    ensures forall k :: 0 <= k < |ChainOf(t, s)| ==> ChainOf(t, s)[k].id != id
  {
    ChainShape(cfg, t, clock, s);
    var c := ChainOf(t, s);
    forall k | 0 <= k < |c|
      ensures c[k].id != id
    {
      if k > 0 {
        assert c[k - 1].parent == Some(c[k].id);
        assert c[k - 1].id in OfVm(t, s.vm) && c[k].vm == s.vm;
      }
    }
  }

  lemma {:induction false} RestoreUnaffected(cfg: Config, t: Table, clock: nat, objects: map<SnapshotId, Objects>,
                          t': Table, objects': map<SnapshotId, Objects>, s: Snapshot)
    requires Forest(cfg, t, clock) && Acyclic(t) && s.id in t && t[s.id] == s && OlderParent(t, s)
    requires Acyclic(t') && s.id in t' && t'[s.id] == s && OlderParent(t', s)
    requires forall x :: x in t' ==> x in t && t'[x] == t[x]
    requires forall k :: 0 <= k < |ChainOf(t, s)| ==> ChainOf(t, s)[k].id in t'
    requires SameObjects(objects, objects', ChainOf(t, s))
    ensures RestoreOutcome(t', objects', s.id) == RestoreOutcome(t, objects, s.id)
  {
    var c := ChainOf(t, s);
    assert forall x :: x in t ==> Row(cfg, t, clock, x);
    ChainSurvives(t, t', s);
    ChainShape(cfg, t, clock, s);
    assert c[0] == s;
    MergedUnaffected(objects, objects', c);
  }

  lemma {:induction false} MergedUnaffected(objects: map<SnapshotId, Objects>, objects': map<SnapshotId, Objects>, c: seq<Snapshot>)
    requires c != [] && SameObjects(objects, objects', c)
    ensures Merged(objects, c) == Merged(objects', c)
    decreases |c|
  {
    assert c[0].id in objects <==> c[0].id in objects';
    if |c| > 1 {
      assert forall k :: 0 <= k < |c[1..]| ==> c[1..][k] == c[k + 1];
      MergedUnaffected(objects, objects', c[1..]);
    }
  }

  /** Deleting one row, whole or half, changes the restore of no other row. */
  lemma {:induction false} DeleteKeepsOtherRestores(cfg: Config, diffVms: set<VmId>, w: World, id: SnapshotId, left: Leftover, repoFails: bool, other: SnapshotId)
    requires Inv(cfg, diffVms, w) && other in w.snaps && other != id && OlderParent(w.snaps, w.snaps[other])
    ensures var w' := ApplyDelete(w, id, left, repoFails);
            && other in w'.snaps && w'.snaps[other] == w.snaps[other]
            && Acyclic(w'.snaps) && OlderParent(w'.snaps, w'.snaps[other])
            && RestoreOutcome(w'.snaps, w'.objects, other) == RestoreOutcome(w.snaps, w.objects, other)
  {
    var w' := ApplyDelete(w, id, left, repoFails);
    if Deletable(w.snaps, id) {
      DeleteKeepsInv(cfg, diffVms, w, id, left, repoFails);
      var s := w.snaps[other];
      assert Row(cfg, w.snaps, w.clock, other) && OlderParent(w'.snaps, w'.snaps[other]);
      ChildlessIsOffChain(cfg, w.snaps, w.clock, id, s);
      ChainShape(cfg, w.snaps, w.clock, s);
      RestoreUnaffected(cfg, w.snaps, w.clock, w.objects, w'.snaps, w'.objects, s);
    }
  }
}
