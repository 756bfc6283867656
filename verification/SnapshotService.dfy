/**
 The operations of the VM service on snapshots, as methods that change the row table and
 the object store step by step. Each is tied to a step, or a run of steps, of Restore.
 */
module SnapshotService {
  import opened Wrappers
  import opened SparseIO
  import opened SnapshotForest
  import opened Restore
  import opened RestoreExact

  lemma {:induction false} RunSnoc(cfg: Config, diffVms: set<VmId>, w: World, steps: seq<Step>, step: Step)
    requires ValidRun(cfg, diffVms, w, steps)
    requires Enabled(diffVms, Run(cfg, diffVms, w, steps), step)
    ensures ValidRun(cfg, diffVms, w, steps + [step])
    ensures Run(cfg, diffVms, w, steps + [step]) == Apply(cfg, diffVms, Run(cfg, diffVms, w, steps), step)
    decreases |steps|
  {
    if steps == [] {
      assert [step][1..] == [];
    } else {
      assert (steps + [step])[1..] == steps[1..] + [step];
      RunSnoc(cfg, diffVms, Apply(cfg, diffVms, w, steps[0]), steps[1..], step);
    }
  }

  lemma {:induction false} DeletesKeepImages(cfg: Config, diffVms: set<VmId>, w: World, steps: seq<Step>)
    requires ValidRun(cfg, diffVms, w, steps) && forall k :: 0 <= k < |steps| ==> steps[k].Delete?
    ensures var w' := Run(cfg, diffVms, w, steps); w'.base == w.base && w'.last == w.last && w'.taken == w.taken
    decreases |steps|
  {
    if steps != [] {
      DeletesKeepImages(cfg, diffVms, Apply(cfg, diffVms, w, steps[0]), steps[1..]);
    }
  }

  lemma {:induction false} FewerRows(a: set<SnapshotId>, b: set<SnapshotId>)
    requires a < b
    ensures |a| < |b|
  {
    assert b == a + (b - a);
  }

  /** Leaf-first chain of root plus diffs: the merge of a longer prefix is one more overlay. */
  lemma {:induction false} MergedStep(objects: map<SnapshotId, Objects>, chain: seq<Snapshot>, i: nat)
    requires 0 < i < |chain|
    ensures Reverse(chain[..i + 1]) == [chain[i]] + Reverse(chain[..i])
    ensures Reverse(chain[..i + 1])[1..] == Reverse(chain[..i])
  {
  }

  lemma {:induction false} MergedPrefix(objects: map<SnapshotId, Objects>, chain: seq<Snapshot>, i: nat)
    requires 0 < i <= |chain|
    requires Merged(objects, Reverse(chain[..i])).None?
    ensures Merged(objects, Reverse(chain)).None?
    decreases |chain| - i
  {
    if i < |chain| {
      MergedStep(objects, chain, i);
      MergedPrefix(objects, chain, i + 1);
    } else {
      assert chain[..i] == chain;
    }
  }

  method PickNewest(t: Table, rest: set<SnapshotId>) returns (n: SnapshotId)
    requires DistinctTimes(t) && rest <= t.Keys && rest != {}
    ensures n in rest && forall id :: id in rest && id != n ==> t[id].createdAt < t[n].createdAt
  {
    NewestExists(t, rest);
    assert exists n :: n in rest && forall m :: m in rest ==> t[m].createdAt <= t[n].createdAt by {
      var n :| IsNewest(t, rest, n);
    }
    n :| n in rest && forall m :: m in rest ==> t[m].createdAt <= t[n].createdAt;
    forall id | id in rest && id != n
      ensures t[id].createdAt < t[n].createdAt
    {
      assert Time(t, n) != Time(t, id);
    }
  }

  /** SELECT ... WHERE vm_id = vm ORDER BY created_at DESC */
  method ListNewestFirst(t: Table, vm: VmId) returns (list: seq<SnapshotId>)
    requires DistinctTimes(t)
    ensures IsListing(t, vm, list)
  {
    list := [];
    var rest := OfVm(t, vm);
    while rest != {}
      invariant rest <= OfVm(t, vm)
      invariant forall k :: 0 <= k < |list| ==> list[k] in OfVm(t, vm) && list[k] !in rest
      invariant forall id :: id in OfVm(t, vm) ==> id in rest || id in list
      invariant forall k, id :: 0 <= k < |list| && id in rest ==> t[list[k]].createdAt > t[id].createdAt
      invariant forall k, l :: 0 <= k < l < |list| ==> t[list[k]].createdAt > t[list[l]].createdAt
      decreases |rest|
    {
      var n := PickNewest(t, rest);
      list := list + [n];
      rest := rest - {n};
    }
  }

  /** The recorded ancestors of a row. */
  ghost function Ancestors(t: Table, s: Snapshot): set<SnapshotId>
    requires Acyclic(t) && OlderParent(t, s)
    decreases s.createdAt
  {
    if s.parent.Some? && s.parent.value in t
    then assert OlderParent(t, t[s.parent.value]); {s.parent.value} + Ancestors(t, t[s.parent.value])
    else {}
  }

  lemma {:induction false} AncestorsAreTheChain(t: Table, s: Snapshot, id: SnapshotId)
    requires Acyclic(t) && OlderParent(t, s) && forall x :: x in t ==> t[x].id == x
    ensures id in Ancestors(t, s) + {s.id} <==> InChain(t, s, id)
    decreases s.createdAt
  {
    var c := ChainOf(t, s);
    assert c[0].id == s.id;
    if s.parent.Some? && s.parent.value in t {
      var p := t[s.parent.value];
      assert OlderParent(t, t[s.parent.value]);
      AncestorsAreTheChain(t, p, id);
      var d := ChainOf(t, p);
      assert c == [s] + d;
      if InChain(t, p, id) {
        var k :| 0 <= k < |d| && d[k].id == id;
        assert c[k + 1].id == id;
      }
      if InChain(t, s, id) {
        var k :| 0 <= k < |c| && c[k].id == id;
        assert k > 0 ==> d[k - 1].id == id;
      }
    } else {
      assert c == [s];
    }
  }

  /** Walks the listed rows of one VM from leaf to root. */
  method CollectAncestors(leaf: Snapshot, all: Table) returns (ancestors: set<SnapshotId>)
    requires Acyclic(all) && OlderParent(all, leaf) && forall x :: x in all ==> all[x].id == x
    ensures ancestors == Ancestors(all, leaf)
  {
    ancestors := {};
    var current := leaf;
    while current.parent.Some?
      invariant OlderParent(all, current)
      invariant ancestors + Ancestors(all, current) == Ancestors(all, leaf)
      decreases current.createdAt
    {
      if current.parent.value !in all { break; }
      var parent := all[current.parent.value];
      assert OlderParent(all, all[current.parent.value]);
      ancestors := ancestors + {parent.id};
      current := parent;
    }
  }

  /** The in-place reversal at the end of resolveCowChain. */
  method ReverseInPlace(leafFirst: seq<Snapshot>) returns (chain: seq<Snapshot>)
    ensures chain == Reverse(leafFirst)
  {
    chain := leafFirst;
    var i, j := 0, |chain| - 1;
    while i < j
      invariant 0 <= i <= j + 1 <= |chain| && i + j == |chain| - 1 && |chain| == |leafFirst|
      invariant forall k :: 0 <= k < i ==> chain[k] == leafFirst[|chain| - 1 - k]
      invariant forall k :: j < k < |chain| ==> chain[k] == leafFirst[|chain| - 1 - k]
      invariant forall k :: i <= k <= j ==> chain[k] == leafFirst[k]
    {
      chain := chain[i := chain[j]][j := chain[i]];
      i, j := i + 1, j - 1;
    }
  }

  class Service {
    const cfg: Config
    const diffVms: set<VmId>
    var snaps: Table
    var objects: map<SnapshotId, Objects>
    var clock: nat
    ghost var taken: map<SnapshotId, seq<Byte>>
    ghost var base: map<VmId, seq<Byte>>
    ghost var last: map<VmId, SnapshotId>

    ghost function State(): World
      reads this
    {
      World(snaps, objects, taken, base, last, clock)
    }

    ghost predicate Valid()
      reads this
    {
      Inv(cfg, diffVms, State())
    }

    constructor (mode: Option<DiskMode>, maxChain: int, diffVms: set<VmId>)
      ensures Valid() && State() == EMPTY
      ensures cfg == NewConfig(mode, maxChain) && this.diffVms == diffVms
    {
      cfg := NewConfig(mode, maxChain);
      this.diffVms := diffVms;
      snaps, objects, clock := map[], map[], 0;
      taken, base, last := map[], map[], map[];
    }

    // ---------------------------------------------------------------- repository reads

    method GetByVMID(vm: VmId) returns (list: seq<SnapshotId>)
      requires Valid()
      ensures IsListing(snaps, vm, list)
    {
      list := ListNewestFirst(snaps, vm);
    }

    method GetLatestByVMID(vm: VmId) returns (latest: Option<Snapshot>)
      requires Valid()
      ensures latest == Latest(snaps, vm)
    {
      var list := GetByVMID(vm);
      if list == [] { return None; }
      forall m | m in OfVm(snaps, vm)
        ensures snaps[m].createdAt <= snaps[list[0]].createdAt
      {
        var k :| 0 <= k < |list| && list[k] == m;
      }
      latest := Some(snaps[list[0]]);
    }

    // ---------------------------------------------------------------- create

    method CreateSnapshot(vm: VmId, id: SnapshotId, ready: bool, capture: Capture, ghost memory: seq<Byte>)
      returns (r: Result<Snapshot>)
      requires Valid() && Enabled(diffVms, State(), Create(id, vm, memory, capture))
      modifies this
      ensures Valid()
      ensures !ready ==> r.Err? && State() == old(State())
      ensures ready ==> State() == old(Apply(cfg, diffVms, State(), Create(id, vm, memory, capture)))
      ensures r.Ok? <==> ready && capture.recordOk
      ensures r.Ok? ==> id in snaps && r.value == snaps[id] && r.value.id == id
      ensures ready && capture.uploadOk ==> id in objects && objects[id].memory == capture.image.bytes
      ensures ready ==> vm in base && base[vm] == memory
      ensures forall x :: x != id ==> (x in objects <==> x in old(objects)) && (x in objects ==> objects[x] == old(objects)[x])
    {
      // VM inactive, environment missing, or the backend failed before it captured anything.
      if !ready { return Err; }
      CreateKeepsInv(cfg, diffVms, State(), Create(id, vm, memory, capture));
      var previous := GetLatestByVMID(vm);
      var snap := NewSnapshot(cfg, previous, id, vm, vm in diffVms, capture.tooOld, clock);
      if capture.uploadOk {
        var manifest: Option<seq<Region>> := None;
        if snap.kind.Incremental? {
          var regions := ExtractSparseRegions(capture.image);
          if capture.extractOk && |regions| > 0 { manifest := Some(regions); }
        }
        objects := objects[id := Objects(capture.image.bytes, manifest)];
      }
      clock := clock + 1;
      taken, base, last := taken[id := memory], base[vm := memory], last[vm := id];
      if !capture.recordOk { return Err; }
      snaps := snaps[id := snap];
      r := Ok(snap);
    }

    // ---------------------------------------------------------------- delete

    method DeleteSnapshot(id: SnapshotId, left: Leftover, repoFails: bool) returns (ok: bool)
      requires Valid()
      modifies this
      ensures Valid()
      ensures State() == old(ApplyDelete(State(), id, left, repoFails))
      ensures ok <==> old(Deletable(snaps, id)) && !repoFails
      ensures snaps == if ok then old(snaps) - {id} else old(snaps)
      ensures ok && left.Nothing? ==> objects == old(objects) - {id}
      ensures !old(Deletable(snaps, id)) || left.Everything? ==> objects == old(objects)
    {
      DeleteKeepsInv(cfg, diffVms, State(), id, left, repoFails);
      if id !in snaps { return false; }
      var list := GetByVMID(snaps[id].vm);
      for k := 0 to |list|
        invariant forall j :: 0 <= j < k ==> snaps[list[j]].parent != Some(id)
      {
        if snaps[list[k]].parent == Some(id) {
          assert HasChildren(snaps, id);
          return false;
        }
      }
      assert !HasChildren(snaps, id);
      objects := Remaining(objects, id, left);
      if repoFails { return false; }
      snaps := snaps - {id};
      ok := true;
    }

    /** One delete of a longer operation that started in world start and tried those before. */
    method TryDelete(id: SnapshotId, left: Leftover, failing: bool, ghost start: World, ghost before: seq<Step>)
      returns (ok: bool, ghost tried: seq<Step>)
      requires Valid() && DeleteRun(start, before)
      modifies this
      ensures Valid() && DeleteRun(start, tried)
      ensures ok <==> old(Deletable(snaps, id)) && !failing
      ensures snaps == if ok then old(snaps) - {id} else old(snaps)
      ensures State() == old(ApplyDelete(State(), id, left, failing))
    {
      RunSnoc(cfg, diffVms, start, before, Delete(id, left, failing));
      tried := before + [Delete(id, left, failing)];
      ok := DeleteSnapshot(id, left, failing);
    }

    /** The same, naming another row whose restore it leaves as it was. */
    method TryDeleteBeside(other: SnapshotId, id: SnapshotId, left: Leftover, failing: bool, ghost start: World, ghost before: seq<Step>)
      returns (ok: bool, ghost tried: seq<Step>)
      requires Valid() && DeleteRun(start, before)
      requires other in snaps && other != id && OlderParent(snaps, snaps[other])
      modifies this
      ensures Valid() && DeleteRun(start, tried)
      ensures ok <==> old(Deletable(snaps, id)) && !failing
      ensures snaps == if ok then old(snaps) - {id} else old(snaps)
      ensures clock == old(clock)
      ensures OlderParent(snaps, snaps[other])
      ensures RestoreOutcome(snaps, objects, other) == old(RestoreOutcome(snaps, objects, other))
    {
      DeleteKeepsOtherRestores(cfg, diffVms, State(), id, left, failing, other);
      ok, tried := TryDelete(id, left, failing, start, before);
    }

    /** The current state is what those deletes, and nothing else, made of start. */
    ghost predicate DeleteRun(start: World, tried: seq<Step>)
      reads this
    {
      && (forall k :: 0 <= k < |tried| ==> tried[k].Delete?)
      && ValidRun(cfg, diffVms, start, tried)
      && State() == Run(cfg, diffVms, start, tried)
    }

    // ---------------------------------------------------------------- garbage collection

    /**
     Keeps latestId and its ancestors. Whatever row deletes fail, the restore of latestId
     is unchanged; when none fails, exactly the rest of the VM's rows is gone.
     */
    method SnapshotGC(vm: VmId, latestId: SnapshotId, fails: set<SnapshotId>, left: SnapshotId -> Leftover) returns (ghost tried: seq<Step>)
      requires Valid()
      modifies this
      ensures Valid()
      ensures DeleteRun(old(State()), tried)
      ensures latestId in old(OfVm(snaps, vm)) ==>
                && latestId in snaps && OlderParent(snaps, snaps[latestId])
                && RestoreOutcome(snaps, objects, latestId) == old(RestoreOutcome(snaps, objects, latestId))
                && (fails == {} ==> snaps == old(Kept(snaps, vm, snaps[latestId])))
      ensures latestId !in old(OfVm(snaps, vm)) ==> State() == old(State())
    {
      tried := [];
      if latestId in OfVm(snaps, vm) {
        assert Row(cfg, snaps, clock, latestId) && OlderParent(snaps, snaps[latestId]);
        LoneRowIsKept(vm, latestId);
      }
      var list := GetByVMID(vm);
      if |list| <= 1 { return; }
      if latestId !in list { return; }
      var latest := snaps[latestId];
      var byId := map id | id in snaps && snaps[id].vm == vm :: snaps[id];
      VmRowsHaveTheChain(vm, latest, byId);
      var protected := CollectAncestors(latest, byId);
      protected := protected + {latestId};
      forall id
        ensures id in protected <==> InChain(snaps, latest, id)
      {
        AncestorsAreTheChain(byId, latest, id);
      }
      tried := DeleteUnprotected(vm, latest, list, protected, fails, left);
    }

    /** The deleting loop of snapshotGC over a newest-first listing. */
    method DeleteUnprotected(vm: VmId, latest: Snapshot, list: seq<SnapshotId>, protected: set<SnapshotId>, fails: set<SnapshotId>, left: SnapshotId -> Leftover)
      returns (ghost tried: seq<Step>)
      requires Valid() && IsListing(snaps, vm, list)
      requires latest.id in snaps && snaps[latest.id] == latest && latest.vm == vm && OlderParent(snaps, latest)
      requires forall id :: id in protected <==> InChain(snaps, latest, id)
      requires latest.id in protected
      modifies this
      ensures Valid() && DeleteRun(old(State()), tried)
      ensures latest.id in snaps && snaps[latest.id] == latest && OlderParent(snaps, latest)
      ensures RestoreOutcome(snaps, objects, latest.id) == old(RestoreOutcome(snaps, objects, latest.id))
      ensures fails == {} ==> snaps == old(Kept(snaps, vm, latest))
    {
      tried := [];
      ghost var t0 := snaps;
      for i := 0 to |list|
        invariant Valid() && DeleteRun(old(State()), tried)
        invariant clock == old(clock) && forall x :: x in snaps ==> x in t0 && snaps[x] == t0[x]
        invariant forall x :: x in t0 && (t0[x].vm != vm || x in protected) ==> x in snaps
        invariant forall j :: i <= j < |list| ==> list[j] in snaps
        invariant OlderParent(snaps, snaps[latest.id])
        invariant RestoreOutcome(snaps, objects, latest.id) == old(RestoreOutcome(snaps, objects, latest.id))
        invariant fails == {} ==> forall j :: 0 <= j < i && list[j] !in protected ==> list[j] !in snaps
      {
        var id := list[i];
        if id !in protected {
          if fails == {} {
            UnprotectedIsChildless(vm, t0, latest, list, protected, i);
          }
          var _, t := TryDeleteBeside(latest.id, id, left(id), id in fails, old(State()), tried);
          tried := t;
        }
      }
      if fails == {} {
        ExactlyKept(t0, vm, latest, list, protected);
      }
    }

    lemma {:induction false} ExactlyKept(t0: Table, vm: VmId, latest: Snapshot, list: seq<SnapshotId>, protected: set<SnapshotId>)
      requires Acyclic(t0) && OlderParent(t0, latest) && IsListing(t0, vm, list)
      requires forall id :: id in protected <==> InChain(t0, latest, id)
      requires forall x :: x in snaps ==> x in t0 && snaps[x] == t0[x]
      requires forall x :: x in t0 && (t0[x].vm != vm || x in protected) ==> x in snaps
      requires forall j :: 0 <= j < |list| && list[j] !in protected ==> list[j] !in snaps
      ensures snaps == Kept(t0, vm, latest)
    {
      forall x | x in t0
        ensures x in snaps <==> t0[x].vm != vm || InChain(t0, latest, x)
      {
        if t0[x].vm == vm {
          assert x in OfVm(t0, vm);
          var j :| 0 <= j < |list| && list[j] == x;
        }
      }
    }

    lemma {:induction false} LoneRowIsKept(vm: VmId, latestId: SnapshotId)
      requires Valid() && latestId in OfVm(snaps, vm) && OlderParent(snaps, snaps[latestId])
      ensures OfVm(snaps, vm) == {latestId} ==> snaps == Kept(snaps, vm, snaps[latestId])
    {
      assert Row(cfg, snaps, clock, latestId);
      assert ChainOf(snaps, snaps[latestId])[0].id == latestId;
      assert InChain(snaps, snaps[latestId], latestId);
      forall x | x in snaps && OfVm(snaps, vm) == {latestId}
        ensures x in Kept(snaps, vm, snaps[latestId])
      {
        if snaps[x].vm == vm {
          assert x in OfVm(snaps, vm);
        }
      }
    }

    lemma {:induction false} VmRowsHaveTheChain(vm: VmId, latest: Snapshot, byId: Table)
      requires Valid() && latest.id in snaps && snaps[latest.id] == latest && latest.vm == vm
      requires byId == map id | id in snaps && snaps[id].vm == vm :: snaps[id]
      ensures Acyclic(byId) && OlderParent(byId, latest) && OlderParent(snaps, latest)
      ensures ChainOf(byId, latest) == ChainOf(snaps, latest)
      ensures forall x :: x in byId ==> byId[x].id == x
    {
      assert OlderParent(snaps, latest);
      forall x | x in snaps
        ensures OlderParent(snaps, snaps[x]) && snaps[x].id == x
      {
        assert Row(cfg, snaps, clock, x);
      }
      ChainShape(cfg, snaps, clock, latest);
      ChainSurvives(snaps, byId, latest);
    }

    /** Rows are listed newest first, so an unprotected row's children are already gone. */
    lemma {:induction false} UnprotectedIsChildless(vm: VmId, t0: Table, latest: Snapshot, list: seq<SnapshotId>, protected: set<SnapshotId>, i: nat)
      requires Valid() && Forest(cfg, t0, clock) && Acyclic(t0) && OlderParent(t0, latest)
      requires latest.id in t0 && t0[latest.id] == latest && latest.vm == vm
      requires IsListing(t0, vm, list) && i < |list| && list[i] in snaps
      requires forall x :: x in snaps ==> x in t0 && snaps[x] == t0[x]
      requires forall id :: id in protected <==> InChain(t0, latest, id)
      requires list[i] !in protected && forall j :: 0 <= j < i && list[j] !in protected ==> list[j] !in snaps
      ensures Deletable(snaps, list[i])
    {
      var id := list[i];
      forall c | c in OfVm(snaps, vm)
        ensures snaps[c].parent != Some(id)
      {
        if snaps[c].parent == Some(id) {
          assert c in OfVm(t0, vm) && Row(cfg, t0, clock, c);
          assert forall x :: x in t0 ==> Row(cfg, t0, clock, x);
          var j :| 0 <= j < |list| && list[j] == c;
          assert j < i;
          assert InChain(t0, latest, c);
          InChainParent(t0, latest, c);
        }
      }
    }

    /**
     Repeats passes, oldest row first, until a pass deletes nothing. Ends for any pattern
     of row delete failures (fails gives it per pass); with none, every row of the VM is gone.
     */
    method DeleteAllSnapshots(vm: VmId, fails: nat -> set<SnapshotId>, left: (nat, SnapshotId) -> Leftover) returns (ghost tried: seq<Step>)
      requires Valid()
      modifies this
      ensures Valid()
      ensures DeleteRun(old(State()), tried)
      ensures forall x :: x in old(snaps) && old(snaps)[x].vm != vm ==> x in snaps && snaps[x] == old(snaps)[x]
      ensures (forall p :: fails(p) == {}) ==> OfVm(snaps, vm) == {}
    {
      tried := [];
      var pass := 0;
      while true
        invariant Valid() && DeleteRun(old(State()), tried)
        invariant forall x :: x in old(snaps) && old(snaps)[x].vm != vm ==> x in snaps && snaps[x] == old(snaps)[x]
        decreases |OfVm(snaps, vm)|
      {
        var list := GetByVMID(vm);
        if list == [] { return; }
        ghost var before := snaps;
        var deleted, t := DeletePass(vm, list, fails(pass), id => left(pass, id), old(State()), tried);
        tried := t;
        if !deleted { return; }
        FewerRows(OfVm(snaps, vm), OfVm(before, vm));
        pass := pass + 1;
      }
    }

    /** One pass over a newest-first listing, from its oldest row to its newest. */
    method DeletePass(vm: VmId, list: seq<SnapshotId>, fails: set<SnapshotId>, left: SnapshotId -> Leftover, ghost start: World, ghost before: seq<Step>)
      returns (deleted: bool, ghost tried: seq<Step>)
      requires Valid() && DeleteRun(start, before) && IsListing(snaps, vm, list) && list != []
      modifies this
      ensures Valid() && DeleteRun(start, tried)
      ensures forall x :: x in snaps ==> x in old(snaps) && snaps[x] == old(snaps)[x]
      ensures forall x :: x in old(snaps) && old(snaps)[x].vm != vm ==> x in snaps
      ensures deleted ==> OfVm(snaps, vm) < old(OfVm(snaps, vm))
      ensures fails == {} ==> deleted
    {
      tried := before;
      deleted := false;
      var i := |list|;
      while i > 0
        invariant 0 <= i <= |list|
        invariant Valid() && DeleteRun(start, tried)
        invariant forall x :: x in snaps ==> x in old(snaps) && snaps[x] == old(snaps)[x]
        invariant forall x :: x in old(snaps) && old(snaps)[x].vm != vm ==> x in snaps
        invariant forall j :: 0 <= j < i ==> list[j] in snaps
        invariant deleted ==> exists j :: i <= j < |list| && list[j] !in snaps
        invariant i == 0 && fails == {} ==> deleted
      {
        i := i - 1;
        if i == 0 {
          NewestIsChildless(vm, old(snaps), list);
        }
        var ok, t := TryDelete(list[i], left(list[i]), list[i] in fails, start, tried);
        tried := t;
        if ok { deleted := true; }
      }
      if deleted {
        var j :| 0 <= j < |list| && list[j] !in snaps;
        assert list[j] in old(OfVm(snaps, vm)) && list[j] !in OfVm(snaps, vm);
      }
    }

    lemma {:induction false} NewestIsChildless(vm: VmId, t0: Table, list: seq<SnapshotId>)
      requires Valid() && IsListing(t0, vm, list) && list != [] && list[0] in snaps
      requires forall x :: x in snaps ==> x in t0 && snaps[x] == t0[x]
      ensures Deletable(snaps, list[0])
    {
      forall c | c in OfVm(snaps, vm)
        ensures snaps[c].parent != Some(list[0])
      {
        assert Row(cfg, snaps, clock, c) && c in OfVm(t0, vm);
        var j :| 0 <= j < |list| && list[j] == c;
      }
    }

    // ---------------------------------------------------------------- restore

    method ResolveCowChain(leaf: Snapshot) returns (r: Result<seq<Snapshot>>)
      requires Acyclic(snaps) && OlderParent(snaps, leaf)
      ensures r == match Walk(snaps, leaf) case None => Err case Some(c) => Ok(Reverse(c))
    {
      var chain: seq<Snapshot> := [];
      var current := leaf;
      ghost var whole := Walk(snaps, leaf);
      assert whole.Some? ==> [] + whole.value == whole.value;
      while true
        invariant OlderParent(snaps, current)
        invariant whole == match Walk(snaps, current) case None => None case Some(c) => Some(chain + c)
        decreases current.createdAt
      {
        chain := chain + [current];
        if current.parent.None? { break; }
        if current.parent.value !in snaps { return Err; }
        var parent := snaps[current.parent.value];
        if parent.kind.Full? {
          assert chain + [parent] == chain[..|chain| - 1] + [current, parent];
          chain := chain + [parent];
          break;
        }
        assert OlderParent(snaps, snaps[current.parent.value]);
        assert forall c: seq<Snapshot> :: chain[..|chain| - 1] + ([current] + c) == chain + c;
        current := parent;
      }
      assert whole == Some(chain);
      chain := ReverseInPlace(chain);
      r := Ok(chain);
    }

    /** The multi-step merge over a root-first chain; ioOk(i) says that step i meets no I/O failure. */
    method MergeChainMemory(chain: seq<Snapshot>, ioOk: nat -> bool) returns (m: Option<seq<Byte>>)
      requires chain != []
      ensures m.Some? ==> m == Merged(objects, Reverse(chain))
      ensures (forall i :: 0 <= i < |chain| ==> ioOk(i)) ==> m == Merged(objects, Reverse(chain))
    {
      assert Reverse(chain[..1]) == [chain[0]];
      if !ioOk(0) { return None; }
      if chain[0].id !in objects {
        MergedPrefix(objects, chain, 1);
        return None;
      }
      var accum := objects[chain[0].id].memory;
      for i := 1 to |chain|
        invariant Merged(objects, Reverse(chain[..i])) == Some(accum)
      {
        MergedStep(objects, chain, i);
        var next := chain[i].id;
        if next !in objects || objects[next].manifest.None? {
          MergedPrefix(objects, chain, i + 1);
          return None;
        }
        var merged := MergeDiffMemory(accum, objects[next].memory, objects[next].manifest.value, ioOk(i));
        if merged.Err? {
          if ioOk(i) {
            MergedPrefix(objects, chain, i + 1);
          }
          return None;
        }
        accum := merged.value;
      }
      assert chain[..|chain|] == chain;
      m := Some(accum);
    }

    /**
     The part of ResumeVM that rebuilds guest memory. An incremental leaf always resolves to a
     chain of at least two, so no other merge branch is reached. I/O failures cost the restore,
     never its correctness.
     */
    method RestoreMemory(id: SnapshotId, ioOk: nat -> bool) returns (outcome: Outcome)
      requires Acyclic(snaps) && id in snaps && OlderParent(snaps, snaps[id])
      ensures outcome.Restored? ==> outcome == RestoreOutcome(snaps, objects, id)
      ensures (forall i :: ioOk(i)) ==> outcome == RestoreOutcome(snaps, objects, id)
    {
      var snap := snaps[id];
      if snap.kind.Incremental? && snap.parent.Some? {
        var resolved := ResolveCowChain(snap);
        if resolved.Err? { return FreshVm; }
        var chain := resolved.value;
        if id !in objects || objects[id].manifest.None? { return Refused; }
        assert |chain| > 1;
        var merged := MergeChainMemory(chain, ioOk);
        assert Reverse(chain) == Walk(snaps, snap).value;
        if merged.None? { return FreshVm; }
        return Restored(merged.value);
      }
      if id !in objects || !ioOk(0) { return Refused; }
      outcome := Restored(objects[id].memory);
    }

    /** ResumeVM as the backend sees it: the newest row, loaded, is what later diffs are against. */
    method ResumeLatest(vm: VmId, ioOk: nat -> bool) returns (outcome: Option<Outcome>)
      requires Valid()
      modifies this
      ensures Valid()
      ensures outcome.Some? && outcome.value.Restored? ==>
                State() == old(Apply(cfg, diffVms, State(), Resume(vm))) && base == old(base)[vm := outcome.value.memory] && vm in last
      ensures !(outcome.Some? && outcome.value.Restored?) ==> State() == old(State())
      ensures (forall i :: ioOk(i)) ==> State() == old(Apply(cfg, diffVms, State(), Resume(vm)))
    {
      ResumeKeepsInv(cfg, diffVms, State(), vm);
      var latest := GetLatestByVMID(vm);
      if latest.None? { return None; }
      var id := latest.value.id;
      assert Row(cfg, snaps, clock, Newest(snaps, OfVm(snaps, vm))) && OlderParent(snaps, snaps[id]);
      var o := RestoreMemory(id, ioOk);
      if o.Restored? {
        base, last := base[vm := o.memory], last[vm := id];
      }
      outcome := Some(o);
    }

    /**
     A whole ResumeVM: after a successful restore every row of the VM is deleted. With a store that
     works none is left, while the next diff is still against the memory that was loaded.
     */
    method ResumeAndClear(vm: VmId, ioOk: nat -> bool, fails: nat -> set<SnapshotId>, left: (nat, SnapshotId) -> Leftover)
      returns (outcome: Option<Outcome>, ghost steps: seq<Step>)
      requires Valid()
      modifies this
      ensures Valid()
      ensures ValidRun(cfg, diffVms, old(State()), steps) && State() == Run(cfg, diffVms, old(State()), steps)
      ensures steps == [] || (steps[0] == Resume(vm) && forall k :: 1 <= k < |steps| ==> steps[k].Delete?)
      ensures steps == [] <==> !(outcome.Some? && outcome.value.Restored?)
      ensures outcome.Some? && outcome.value.Restored? ==> vm in base && base[vm] == outcome.value.memory && vm in last
      ensures outcome.Some? && outcome.value.Restored? && (forall p :: fails(p) == {}) ==>
                OfVm(snaps, vm) == {} && !Synced(snaps, last, vm)
    {
      steps := [];
      outcome := ResumeLatest(vm, ioOk);
      if outcome.Some? && outcome.value.Restored? {
        ghost var w1 := State();
        ghost var tried := DeleteAllSnapshots(vm, fails, left);
        DeletesKeepImages(cfg, diffVms, w1, tried);
        steps := [Resume(vm)] + tried;
        assert steps[1..] == tried;
      }
    }
  }
}
