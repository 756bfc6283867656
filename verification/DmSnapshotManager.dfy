/**
 DmSnapshotManager: per-VM stacks of dm-snapshot layers over shared base loop devices.
 External commands fail nondeterministically unless healthy says that none does, so contracts
 hold for every failure; a removal has no effect only while the device or loop is in use.
 */
module DmSnapshotManager {
  import opened Wrappers
  import opened DeviceMapper
  import opened DmAccounting

  // ------------------------------------------------------------------ disk contents

  function FileBlocks(files: map<Path, File>, p: Path): seq<Block> {
    if p in files && files[p].Raw? then files[p].blocks else []
  }

  function FileExceptions(files: map<Path, File>, p: Path): map<nat, Block> {
    if p in files && files[p].Cow? then files[p].exceptions else map[]
  }

  /** The disk that a base image and a chain of cow files, oldest first, stand for. */
  function DiskOf(files: map<Path, File>, base: Path, cowPaths: seq<Path>): seq<Block> {
    Stack(FileBlocks(files, base),
          seq(|cowPaths|, i requires 0 <= i < |cowPaths| => FileExceptions(files, cowPaths[i])))
  }

  lemma {:induction false} DiskOfStack(k: Kernel, baseLoop: nat, names: seq<DmName>, cows: seq<nat>, base: Path, cowPaths: seq<Path>)
    requires Live(k) && Stacked(k, baseLoop, names, cows) && names != []
    requires k.loops[baseLoop] == base && |cowPaths| == |cows|
    requires forall i :: 0 <= i < |cows| ==> cows[i] in k.loops && k.loops[cows[i]] == cowPaths[i]
    ensures names[|names| - 1] in k.dms
    ensures View(k, Dm(names[|names| - 1])) == DiskOf(k.files, base, cowPaths)
  {
    var n := |names| - 1;
    ViewOfStack(k, baseLoop, names, cows, n);
    assert cows[..n + 1] == cows;
    assert CowContents(k, cows) == seq(|cowPaths|, i requires 0 <= i < |cowPaths| => FileExceptions(k.files, cowPaths[i]));
  }

  // ------------------------------------------------------------------ flattening

  function Zeros(n: nat): (z: seq<Block>)
    ensures |z| == n && forall b :: 0 <= b < n ==> z[b] == 0
  {
    seq(n, _ => 0)
  }

  /**
   The image a flatten of device d leaves in path: the destination is truncated and
   zero-filled before the first block is read, and block b is read before it is written.
   */
  function FlattenInto(k: Kernel, d: Dev, path: Path): seq<Block>
    requires Live(k) && (d.Dm? ==> d.name in k.dms)
  {
    var truncated := k.(files := k.files[path := Raw(Zeros(|View(k, d)|))]);
    LiveWithFiles(k, truncated.files);
    View(truncated, d)
  }

  lemma {:induction false} LiveWithFiles(k: Kernel, files: map<Path, File>)
    requires Live(k)
    ensures Live(k.(files := files))
  {
    var k' := k.(files := files);
    forall a | a in k'.dms
      ensures LiveTable(k', a)
    {
      assert LiveTable(k, a);
    }
  }

  /** A file no loop device is attached to can change without any device noticing. */
  lemma {:induction false} ViewIgnoresDetachedFile(k: Kernel, d: Dev, path: Path, f: File)
    requires Live(k) && (d.Dm? ==> d.name in k.dms)
    requires forall n :: n in k.loops ==> k.loops[n] != path
    requires Live(k.(files := k.files[path := f]))
    ensures View(k.(files := k.files[path := f]), d) == View(k, d)
    decreases d.Dm?, if d.Dm? then k.dms[d.name].serial else 0
  {
    if d.Dm? {
      assert LiveTable(k, d.name);
      ViewIgnoresDetachedFile(k, k.dms[d.name].origin, path, f);
    }
  }

  /** Flattening into a file outside every stack copies the device exactly. */
  lemma {:induction false} FlattenExact(k: Kernel, d: Dev, path: Path)
    requires Live(k) && (d.Dm? ==> d.name in k.dms)
    requires path !in k.loops.Values
    ensures FlattenInto(k, d, path) == View(k, d)
  {
    assert forall n :: n in k.loops ==> k.loops[n] in k.loops.Values;
    var f := Raw(Zeros(|View(k, d)|));
    LiveWithFiles(k, k.files[path := f]);
    ViewIgnoresDetachedFile(k, d, path, f);
  }

  /**
   Flattening a stack into its own base image: exact if and only if every base block that
   no cow store holds was zero already.
   */
  lemma {:induction false} FlattenOntoOwnBaseIff(k: Kernel, baseLoop: nat, names: seq<DmName>, cows: seq<nat>, path: Path)
    requires Live(k) && Stacked(k, baseLoop, names, cows) && names != []
    requires k.loops[baseLoop] == path && path in k.files && k.files[path].Raw?
    requires forall i :: 0 <= i < |cows| ==> cows[i] in k.loops && k.loops[cows[i]] != path
    ensures names[|names| - 1] in k.dms
    ensures var d := Dm(names[|names| - 1]);
            FlattenInto(k, d, path) == View(k, d) <==>
              forall b :: 0 <= b < |RawAt(k, baseLoop)| && (forall i :: 0 <= i < |cows| ==> b !in CowAt(k, cows[i]))
                ==> RawAt(k, baseLoop)[b] == 0
  {
    var n := |names| - 1;
    ViewOfStack(k, baseLoop, names, cows, n);
    assert cows[..n + 1] == cows;
    var d := Dm(names[n]);
    var base := RawAt(k, baseLoop);
    var stores := CowContents(k, cows);
    var k' := k.(files := k.files[path := Raw(Zeros(|base|))]);
    LiveWithFiles(k, k'.files);
    forall i | 0 <= i < |names|
      ensures Link(k', baseLoop, names, cows, i)
    {
      assert Link(k, baseLoop, names, cows, i);
    }
    ViewOfStack(k', baseLoop, names, cows, n);
    assert CowContents(k', cows) == stores;
    assert FlattenInto(k, d, path) == Stack(Zeros(|base|), stores);
    forall b: nat | b < |base|
      ensures Stack(Zeros(|base|), stores)[b] == Stack(base, stores)[b] <==>
                ((forall i :: 0 <= i < |cows| ==> b !in CowAt(k, cows[i])) ==> base[b] == 0)
    {
      StacksAgreeIff(Zeros(|base|), base, stores, b);
      assert forall i :: 0 <= i < |cows| ==> stores[i] == CowAt(k, cows[i]);
    }
  }

  lemma {:induction false} StacksAgreeIff(x: seq<Block>, y: seq<Block>, stores: seq<map<nat, Block>>, b: nat)
    requires b < |x| == |y|
    ensures Stack(x, stores)[b] == Stack(y, stores)[b] <==>
              ((forall i :: 0 <= i < |stores| ==> b !in stores[i]) ==> x[b] == y[b])
    decreases |stores|
  {
    if stores != [] {
      var n := |stores| - 1;
      var init := stores[..n];
      StacksAgreeIff(x, y, init, b);
      assert forall i :: 0 <= i < n ==> init[i] == stores[i];
      if b in stores[n] {
        assert !(forall i :: 0 <= i < |stores| ==> b !in stores[i]);
      } else {
        assert (forall i :: 0 <= i < n ==> b !in init[i]) <==> (forall i :: 0 <= i < |stores| ==> b !in stores[i]);
      }
    }
  }

  /** An empty exception store shows the base as it is. */
  lemma {:induction false} EmptyLayerReadsBase(files: map<Path, File>, base: Path, cowPath: Path)
    requires cowPath in files && files[cowPath] == Cow(map[])
    ensures DiskOf(files, base, [cowPath]) == FileBlocks(files, base)
  {
    var stores := seq(1, i requires 0 <= i < 1 => FileExceptions(files, [cowPath][i]));
    assert stores[..0] == [];
    assert Stack(FileBlocks(files, base), stores) == FileBlocks(files, base);
  }

  /** Flattening a single empty layer onto its own base leaves nothing but zeros. */
  lemma {:induction false} FlattenOntoOwnBaseZeroes(k: Kernel, baseLoop: nat, name: DmName, cow: nat, path: Path)
    requires Live(k) && Stacked(k, baseLoop, [name], [cow]) && k.loops[baseLoop] == path
    requires cow in k.loops && k.loops[cow] != path && CowAt(k, cow) == map[]
    ensures name in k.dms && FlattenInto(k, Dm(name), path) == Zeros(|View(k, Dm(name))|)
  {
    ViewOfStack(k, baseLoop, [name], [cow], 0);
    var zeros := Zeros(|View(k, Dm(name))|);
    var k' := k.(files := k.files[path := Raw(zeros)]);
    LiveWithFiles(k, k'.files);
    assert Link(k, baseLoop, [name], [cow], 0) && Link(k', baseLoop, [name], [cow], 0);
    ViewOfStack(k', baseLoop, [name], [cow], 0);
    assert [cow][..1] == [cow];
    var stores := CowContents(k', [cow]);
    assert stores[0] == map[] && stores[..0] == [];
    assert Stack(zeros, stores) == zeros;
  }

  // ------------------------------------------------------------------ layers under construction

  function LayerNames(layers: seq<LayerInfo>): (n: seq<DmName>)
    ensures |n| == |layers|
  {
    seq(|layers|, i requires 0 <= i < |layers| => layers[i].dmName)
  }

  function LayerCows(layers: seq<LayerInfo>): (c: seq<nat>)
    ensures |c| == |layers|
  {
    seq(|layers|, i requires 0 <= i < |layers| => layers[i].cowLoop)
  }

  /** The name of layer i of a chain of n: the last one is the VM's device itself. */
  function LayerName(vm: VmId, i: nat, n: nat): DmName {
    if i + 1 == n then Main(vm) else Layer(vm, i)
  }

  /** A stack under construction over kernel k1, from the first cow files of a chain. */
  ghost predicate Building(k1: Kernel, k: Kernel, baseLoop: nat, vm: VmId, layers: seq<LayerInfo>, cowPaths: seq<Path>) {
    && |layers| <= |cowPaths|
    && Live(k) && k.files == k1.files && k1.serial <= k.serial
    && Stacked(k, baseLoop, LayerNames(layers), LayerCows(layers))
    && Extends(k1, k, LayerNames(layers), LayerCows(layers))
    && (forall i :: 0 <= i < |layers| ==> layers[i].dmName == LayerName(vm, i, |cowPaths|))
    && (forall i :: 0 <= i < |layers| ==> layers[i].cowLoop in k.loops && k.loops[layers[i].cowLoop] == cowPaths[i])
  }

  lemma {:induction false} BuildingStarts(k1: Kernel, baseLoop: nat, vm: VmId, cowPaths: seq<Path>)
    requires Live(k1) && baseLoop in k1.loops
    ensures Building(k1, k1, baseLoop, vm, [], cowPaths)
  {
  }

  lemma {:induction false} BuildingGrows(k1: Kernel, k: Kernel, baseLoop: nat, vm: VmId, layers: seq<LayerInfo>, cowPaths: seq<Path>, cow: nat)
    requires Building(k1, k, baseLoop, vm, layers, cowPaths) && |layers| < |cowPaths|
    requires cow !in k.loops && LayerName(vm, |layers|, |cowPaths|) !in k.dms
    ensures var i := |layers|;
            var name := LayerName(vm, i, |cowPaths|);
            var k' := Push(k, cowPaths[i], cow, name, TopOf(baseLoop, LayerNames(layers)));
            Building(k1, k', baseLoop, vm, layers + [LayerInfo(name, cow)], cowPaths)
  {
    var i := |layers|;
    var name := LayerName(vm, i, |cowPaths|);
    PushExact(k, baseLoop, LayerNames(layers), LayerCows(layers), cowPaths[i], cow, name);
    assert LayerNames(layers + [LayerInfo(name, cow)]) == LayerNames(layers) + [name];
    assert LayerCows(layers + [LayerInfo(name, cow)]) == LayerCows(layers) + [cow];
  }

  /** Nothing but a failing command keeps a chain from being stacked: its files are there and its names are free. */
  ghost predicate Startable(k: Kernel, vm: VmId, cowPaths: seq<Path>) {
    forall i :: 0 <= i < |cowPaths| ==> cowPaths[i] in k.files && LayerName(vm, i, |cowPaths|) !in k.dms
  }

  predicate HasOrigin(k: Kernel, bases: Bases, base: Path) { base in bases || base in k.files }

  lemma {:induction false} NextNameFree(k1: Kernel, k: Kernel, baseLoop: nat, vm: VmId, layers: seq<LayerInfo>, cowPaths: seq<Path>)
    requires Building(k1, k, baseLoop, vm, layers, cowPaths) && |layers| < |cowPaths|
    ensures Startable(k1, vm, cowPaths) ==> cowPaths[|layers|] in k.files && LayerName(vm, |layers|, |cowPaths|) !in k.dms
  {
    var names := LayerNames(layers);
    var name := LayerName(vm, |layers|, |cowPaths|);
    if name in SetOf(names) {
      var j :| 0 <= j < |names| && names[j] == name;
      assert layers[j].dmName == LayerName(vm, j, |cowPaths|);
    }
  }

  /** Cleaning up a half-built stack gives back the kernel it was built on. */
  lemma {:induction false} BuildingUndone(k1: Kernel, k: Kernel, baseLoop: nat, vm: VmId, layers: seq<LayerInfo>, cowPaths: seq<Path>)
    requires Building(k1, k, baseLoop, vm, layers, cowPaths)
    ensures TearDown(k, LayerNames(layers), LayerCows(layers)) == k1.(serial := k.serial)
  {
    var names, cows := LayerNames(layers), LayerCows(layers);
    TearDownExact(k, baseLoop, names, cows);
  }

  lemma {:induction false} DetachFresh(k: Kernel, path: Path, cow: nat)
    requires Live(k) && cow !in k.loops
    ensures Detach(k.(loops := k.loops[cow := path]), cow) == k
  {
    forall a | a in k.dms
      ensures a !in LoopUsers(k.dms, cow)
    {
      assert LiveTable(k, a);
    }
    assert k.loops[cow := path] - {cow} == k.loops;
  }

  // ------------------------------------------------------------------ other VMs

  /** What the device of a recorded VM reads. */
  function DiskView(k: Kernel, bases: Bases, info: DeviceInfo): seq<Block> {
    Stack(if info.base in bases then RawAt(k, bases[info.base].loopDev) else [], CowContents(k, Cows(info)))
  }

  lemma {:induction false} DeviceReadsDiskView(k: Kernel, bases: Bases, active: Devices, leaks: map<Path, nat>, vm: VmId)
    requires Accounted(k, bases, active, leaks) && vm in active
    ensures Main(vm) in k.dms && View(k, Dm(Main(vm))) == DiskView(k, bases, active[vm])
  {
    assert DeviceOk(k, bases, active, vm);
    var n := |active[vm].layers|;
    ViewOfStack(k, bases[active[vm].base].loopDev, Names(vm, active[vm]), Cows(active[vm]), n);
    assert Cows(active[vm])[..n + 1] == Cows(active[vm]);
  }

  /** Loops keep their files, and recorded bases their loops, from one state to the next. */
  ghost predicate SameAttachments(k0: Kernel, bases0: Bases, k: Kernel, bases: Bases) {
    && (forall n :: n in k0.loops && n in k.loops ==> k.loops[n] == k0.loops[n])
    && (forall p :: p in bases0 && p in bases ==> bases[p].loopDev == bases0[p].loopDev)
  }

  /** The same of the loops under one device. */
  ghost predicate Undisturbed(k0: Kernel, bases0: Bases, k: Kernel, bases: Bases, info: DeviceInfo) {
    && (info.base in bases0 && info.base in bases ==> bases[info.base].loopDev == bases0[info.base].loopDev)
    && (forall n :: n in Cows(info) && n in k0.loops && n in k.loops ==> k.loops[n] == k0.loops[n])
  }

  ghost predicate SameFile(k0: Kernel, k: Kernel, p: Path) {
    (p in k0.files <==> p in k.files) && (p in k0.files ==> k.files[p] == k0.files[p])
  }

  /** None of the files under the device is in the set. */
  ghost predicate Apart(k: Kernel, info: DeviceInfo, paths: set<Path>) {
    info.base !in paths && forall n :: n in Cows(info) && n in k.loops ==> k.loops[n] !in paths
  }

  /** All files under the device lie outside the directory. */
  ghost predicate Elsewhere(k: Kernel, info: DeviceInfo, dir: string) {
    info.base.dir != dir && forall n :: n in Cows(info) && n in k.loops ==> k.loops[n].dir != dir
  }

  /** A device recorded in both states, its loops undisturbed, reads the same unless a file under it changed. */
  lemma {:induction false} OtherDiskKept(k0: Kernel, bases0: Bases, active0: Devices, leaks0: map<Path, nat>,
                      k: Kernel, bases: Bases, active: Devices, leaks: map<Path, nat>, other: VmId)
    requires Accounted(k0, bases0, active0, leaks0) && Accounted(k, bases, active, leaks)
    requires other in active0 && other in active && active[other] == active0[other]
    requires Undisturbed(k0, bases0, k, bases, active[other])
    requires SameFile(k0, k, active[other].base)
    requires forall n :: n in Cows(active[other]) && n in k0.loops ==> SameFile(k0, k, k0.loops[n])
    ensures DiskView(k, bases, active[other]) == DiskView(k0, bases0, active0[other])
  {
    var info := active[other];
    assert DeviceOk(k0, bases0, active0, other) && DeviceOk(k, bases, active, other);
    assert BaseOk(k0, bases0, active0, leaks0, info.base) && BaseOk(k, bases, active, leaks, info.base);
    forall i | 0 <= i < |Cows(info)|
      ensures CowAt(k, Cows(info)[i]) == CowAt(k0, Cows(info)[i])
    {
      assert Link(k0, bases0[info.base].loopDev, Names(other, info), Cows(info), i);
      assert Link(k, bases[info.base].loopDev, Names(other, info), Cows(info), i);
    }
    assert CowContents(k, Cows(info)) == CowContents(k0, Cows(info));
  }

  /** So do all devices but vm's, unless they are on one of the files that changed. */
  lemma {:induction false} OthersKept(k0: Kernel, bases0: Bases, active0: Devices, leaks0: map<Path, nat>,
                   k: Kernel, bases: Bases, active: Devices, leaks: map<Path, nat>, vm: VmId, changed: set<Path>)
    requires Accounted(k0, bases0, active0, leaks0) && Accounted(k, bases, active, leaks)
    requires forall other :: other in active0 && other != vm ==>
               other in active && active[other] == active0[other] && Undisturbed(k0, bases0, k, bases, active0[other])
    requires forall p :: p !in changed ==> SameFile(k0, k, p)
    ensures forall other :: other in active0 && other != vm && Apart(k0, active0[other], changed) ==>
              DiskView(k, bases, active[other]) == DiskView(k0, bases0, active0[other])
  {
    forall other | other in active0 && other != vm && Apart(k0, active0[other], changed)
      ensures DiskView(k, bases, active[other]) == DiskView(k0, bases0, active0[other])
    {
      OtherDiskKept(k0, bases0, active0, leaks0, k, bases, active, leaks, other);
    }
  }

  /** In particular those with all their files outside the directory in which files changed. */
  lemma {:induction false} OthersRead(k0: Kernel, bases0: Bases, active0: Devices, leaks0: map<Path, nat>,
                   k: Kernel, bases: Bases, active: Devices, leaks: map<Path, nat>, vm: VmId, dir: string, changed: set<Path>)
    requires Accounted(k0, bases0, active0, leaks0) && Accounted(k, bases, active, leaks) && forall p :: p in changed ==> p.dir == dir
    requires forall other :: other in active0 && other != vm ==>
               && other in active && active[other] == active0[other]
               && (Apart(k0, active0[other], changed) ==> DiskView(k, bases, active[other]) == DiskView(k0, bases0, active0[other]))
    ensures forall other :: other in active0 && other != vm && Elsewhere(k0, active0[other], dir) ==>
              Main(other) in k0.dms && Main(other) in k.dms && View(k, Dm(Main(other))) == View(k0, Dm(Main(other)))
  {
    forall other | other in active0 && other != vm && Elsewhere(k0, active0[other], dir)
      ensures Main(other) in k0.dms && Main(other) in k.dms && View(k, Dm(Main(other))) == View(k0, Dm(Main(other)))
    {
      DeviceReadsDiskView(k0, bases0, active0, leaks0, other);
      DeviceReadsDiskView(k, bases, active, leaks, other);
    }
  }

  /** Undisturbed twice over, through a state that also has the device, is undisturbed. */
  lemma {:induction false} UndisturbedTwice(k0: Kernel, bases0: Bases, k1: Kernel, bases1: Bases, active1: Devices, k2: Kernel, bases2: Bases, vm: VmId)
    requires vm in active1 && DeviceOk(k1, bases1, active1, vm)
    requires Undisturbed(k0, bases0, k1, bases1, active1[vm]) && Undisturbed(k1, bases1, k2, bases2, active1[vm])
    ensures Undisturbed(k0, bases0, k2, bases2, active1[vm])
  {
    var info := active1[vm];
    forall n | n in Cows(info) && n in k0.loops && n in k2.loops
      ensures k2.loops[n] == k0.loops[n]
    {
      var i :| 0 <= i < |Cows(info)| && Cows(info)[i] == n;
      assert Link(k1, bases1[info.base].loopDev, Names(vm, info), Cows(info), i);
    }
  }

  lemma {:induction false} AllUndisturbed(k0: Kernel, bases0: Bases, active0: Devices, k1: Kernel, bases1: Bases, leaks1: map<Path, nat>,
                       k2: Kernel, bases2: Bases, vm: VmId)
    requires Accounted(k1, bases1, active0 - {vm}, leaks1)
    requires SameAttachments(k0, bases0, k1, bases1) && SameAttachments(k1, bases1, k2, bases2)
    ensures forall other :: other in active0 && other != vm ==> Undisturbed(k0, bases0, k2, bases2, active0[other])
  {
    var active1 := active0 - {vm};
    forall other | other in active0 && other != vm
      ensures Undisturbed(k0, bases0, k2, bases2, active0[other])
    {
      assert DeviceOk(k1, bases1, active1, other);
      UndisturbedTwice(k0, bases0, k1, bases1, active1, k2, bases2, other);
    }
  }

  /** The loops and bases that are left when a device is removed. */
  ghost function LoopsWithout(k: Kernel, bases: Bases, info: DeviceInfo): map<nat, Path>
    requires info.base in bases
  {
    k.loops - SetOf(Cows(info)) - (if bases[info.base].refCount == 1 then {bases[info.base].loopDev} else {})
  }

  ghost function BasesWithout(bases: Bases, info: DeviceInfo): Bases
    requires info.base in bases
  {
    if bases[info.base].refCount == 1 then bases - {info.base}
    else bases[info.base := bases[info.base].(refCount := bases[info.base].refCount - 1)]
  }

  // ------------------------------------------------------------------ what a construction does

  /** The base loops after a construction: those before it, and base's if it was new. */
  ghost function LoopsWithBase(k0: Kernel, bases0: Bases, bases: Bases, base: Path): map<nat, Path>
    requires base in bases
  {
    if base in bases0 then k0.loops else k0.loops[bases[base].loopDev := base]
  }

  /** One reference more on base, on the same loop device or on a newly attached one. */
  ghost predicate Retained(k0: Kernel, bases0: Bases, bases: Bases, base: Path) {
    && base in bases
    && bases == bases0[base := bases[base]]
    && if base in bases0 then bases[base] == bases0[base].(refCount := bases0[base].refCount + 1)
       else bases[base].refCount == 1 && bases[base].loopDev !in k0.loops
  }

  /** Success: a new device for vm that reads the chain's disk, and nothing else new. */
  ghost predicate Built(k0: Kernel, bases0: Bases, active0: Devices, k: Kernel, bases: Bases, active: Devices,
                        vm: VmId, base: Path, cowPaths: seq<Path>)
  {
    && Retained(k0, bases0, bases, base)
    && vm in active && active == active0[vm := active[vm]]
    && active[vm].base == base && |Cows(active[vm])| == |cowPaths|
    && (forall i :: 0 <= i < |cowPaths| ==>
          Cows(active[vm])[i] in k.loops && k.loops[Cows(active[vm])[i]] == cowPaths[i])
    && Live(k) && Main(vm) in k.dms && View(k, Dm(Main(vm))) == DiskOf(k.files, base, cowPaths)
    && k.dms - SetOf(Names(vm, active[vm])) == k0.dms
    && k.loops - SetOf(Cows(active[vm])) == LoopsWithBase(k0, bases0, bases, base)
  }

  /** Failure: no device and no cow loop is left; at most a reference on base was taken. */
  ghost predicate NothingBuilt(k0: Kernel, bases0: Bases, active0: Devices, k: Kernel, bases: Bases, active: Devices, base: Path) {
    && k.dms == k0.dms && active == active0
    && (|| (bases == bases0 && k.loops == k0.loops)
        || (Retained(k0, bases0, bases, base) && k.loops == LoopsWithBase(k0, bases0, bases, base)))
  }

  lemma {:induction false} BuiltKeepsAttachments(k0: Kernel, bases0: Bases, active0: Devices, k: Kernel, bases: Bases, active: Devices,
                              vm: VmId, base: Path, cowPaths: seq<Path>)
    requires Built(k0, bases0, active0, k, bases, active, vm, base, cowPaths)
    ensures SameAttachments(k0, bases0, k, bases)
  {
    var kept := k.loops - SetOf(Cows(active[vm]));
    forall n | n in k0.loops && n in k.loops
      ensures k.loops[n] == k0.loops[n]
    {
      assert n in kept && kept[n] == k0.loops[n];
    }
  }

  /** The files a construction attaches are the base and the cow files. */
  lemma {:induction false} BuiltLoops(k0: Kernel, bases0: Bases, active0: Devices, k: Kernel, bases: Bases, active: Devices,
                   vm: VmId, base: Path, cowPaths: seq<Path>)
    requires Built(k0, bases0, active0, k, bases, active, vm, base, cowPaths)
    ensures forall n :: n in k.loops ==> k.loops[n] in k0.loops.Values || k.loops[n] == base || k.loops[n] in cowPaths
  {
    var cows := Cows(active[vm]);
    var kept := k.loops - SetOf(cows);
    forall n | n in k.loops
      ensures k.loops[n] in k0.loops.Values || k.loops[n] == base || k.loops[n] in cowPaths
    {
      if n in SetOf(cows) {
        var i :| 0 <= i < |cows| && cows[i] == n;
      } else {
        assert n in kept && kept[n] == k.loops[n];
      }
    }
  }

  /** Giving back a reference just taken restores the table of bases and their loops. */
  lemma {:induction false} ReleaseUndoesRetain(k0: Kernel, bases0: Bases, bases: Bases, base: Path)
    requires Retained(k0, bases0, bases, base) && (base in bases0 ==> 0 < bases0[base].refCount)
    ensures bases[base].refCount == 1 <==> base !in bases0
    ensures base !in bases0 ==> bases - {base} == bases0
                                && LoopsWithBase(k0, bases0, bases, base) - {bases[base].loopDev} == k0.loops
    ensures base in bases0 ==> bases[base := bases[base].(refCount := bases[base].refCount - 1)] == bases0
                               && LoopsWithBase(k0, bases0, bases, base) - {} == k0.loops
  {
  }

  /** The cow file FlattenChainDevice puts beside the merged image. */
  function FreshCow(mergedPath: Path): Path { Path(mergedPath.dir, "cow.img") }

  function CowPaths(k: Kernel, info: DeviceInfo): set<Path> {
    set n | n in Cows(info) && n in k.loops :: k.loops[n]
  }

  /** Of the old stack no device and no cow loop is left; new are one device, its cow loop and base's loop. */
  ghost predicate Replaced(k0: Kernel, bases0: Bases, info: DeviceInfo, k: Kernel, bases: Bases, vm: VmId, base: Path, cow: nat) {
    && info.base in bases0 && base in bases
    && k.dms - {Main(vm)} == k0.dms - SetOf(Names(vm, info))
    && k.loops - {cow} == LoopsWithBase(k0.(loops := LoopsWithout(k0, bases0, info)), BasesWithout(bases0, info), bases, base)
  }

  lemma {:induction false} ReplacedByBuilt(k0: Kernel, bases0: Bases, info: DeviceInfo, k1: Kernel, bases1: Bases, active1: Devices,
                        k: Kernel, bases: Bases, active: Devices, vm: VmId, base: Path, cowPath: Path)
    requires info.base in bases0 && bases1 == BasesWithout(bases0, info)
    requires k1.dms == k0.dms - SetOf(Names(vm, info)) && k1.loops == LoopsWithout(k0, bases0, info)
    requires Built(k1, bases1, active1, k, bases, active, vm, base, [cowPath])
    ensures Replaced(k0, bases0, info, k, bases, vm, base, active[vm].cowLoop)
    ensures active[vm].layers == [] && active[vm].cowLoop in k.loops && k.loops[active[vm].cowLoop] == cowPath
  {
    assert Cows(active[vm]) == [active[vm].cowLoop] && Names(vm, active[vm]) == [Main(vm)];
    assert SetOf([Main(vm)]) == {Main(vm)} && SetOf([active[vm].cowLoop]) == {active[vm].cowLoop};
  }

  lemma {:induction false} MainIsGone(k0: Kernel, k: Kernel, vm: VmId, info: DeviceInfo)
    requires k.dms == k0.dms - SetOf(Names(vm, info))
    ensures Main(vm) !in k.dms
  {
    assert Names(vm, info)[|info.layers|] == Main(vm);
  }

  /** The record of a finished stack: its last layer is the VM's device itself. */
  function Finished(base: Path, layers: seq<LayerInfo>): DeviceInfo
    requires layers != []
  {
    DeviceInfo(base, layers[|layers| - 1].cowLoop, layers[..|layers| - 1])
  }

  lemma {:induction false} FinishedNames(vm: VmId, base: Path, layers: seq<LayerInfo>)
    requires layers != []
    ensures Names(vm, Finished(base, layers)) == LayerNames(layers[..|layers| - 1]) + [Main(vm)]
    ensures layers[|layers| - 1].dmName == Main(vm) ==> Names(vm, Finished(base, layers)) == LayerNames(layers)
    ensures Cows(Finished(base, layers)) == LayerCows(layers)
  {
  }

  /** A finished construction, once recorded, is accounted for. */
  lemma {:induction false} BuildingAccounted(k1: Kernel, k: Kernel, bases: Bases, active: Devices, leaks: map<Path, nat>,
                          vm: VmId, base: Path, layers: seq<LayerInfo>, cowPaths: seq<Path>)
    requires Accounted(k1, bases, active, leaks) && base in bases && vm !in active && 0 < Leaked(leaks, base)
    requires cowPaths != [] && |layers| == |cowPaths| && Building(k1, k, bases[base].loopDev, vm, layers, cowPaths)
    ensures Accounted(k, bases, active[vm := Finished(base, layers)], leaks[base := Leaked(leaks, base) - 1])
  {
    FinishedNames(vm, base, layers);
    AccountedAfterActivate(k1, k, bases, active, leaks, vm, Finished(base, layers));
  }

  /** ... and it is all that the call built. */
  lemma {:induction false} BuildingBuilt(k0: Kernel, bases0: Bases, k1: Kernel, k: Kernel, bases: Bases, active: Devices,
                      vm: VmId, base: Path, layers: seq<LayerInfo>, cowPaths: seq<Path>)
    requires Retained(k0, bases0, bases, base)
    requires k1.dms == k0.dms && k1.loops == LoopsWithBase(k0, bases0, bases, base)
    requires bases[base].loopDev in k1.loops && k1.loops[bases[base].loopDev] == base
    requires cowPaths != [] && |layers| == |cowPaths| && Building(k1, k, bases[base].loopDev, vm, layers, cowPaths)
    ensures Built(k0, bases0, active, k, bases, active[vm := Finished(base, layers)], vm, base, cowPaths)
  {
    var names, cows := LayerNames(layers), LayerCows(layers);
    FinishedNames(vm, base, layers);
    DiskOfStack(k, bases[base].loopDev, names, cows, base, cowPaths);
    assert names[|names| - 1] == Main(vm);
  }

  class Manager {
    var kernel: Kernel
    var bases: Bases
    var active: Devices
    ghost var leaks: map<Path, nat>

    ghost predicate Valid()
      reads this
    {
      Accounted(kernel, bases, active, leaks)
    }

    constructor (k: Kernel)
      requires Live(k)
      ensures Valid() && kernel == k && bases == map[] && active == map[] && leaks == map[]
    {
      kernel, bases, active, leaks := k, map[], map[], map[];
    }

    // ---------------------------------------------------------------- commands

    method FreshLoop() returns (n: nat)
      ensures n !in kernel.loops
    {
      n := 0;
      var rest := kernel.loops.Keys;
      while rest != {}
        invariant rest <= kernel.loops.Keys
        invariant forall x :: x in kernel.loops && x !in rest ==> x < n
        decreases |rest|
      {
        var x :| x in rest;
        if n <= x { n := x + 1; }
        rest := rest - {x};
      }
    }

    method Losetup(path: Path, healthy: bool) returns (loop: Option<nat>)
      modifies `kernel
      ensures loop.None? ==> kernel == old(kernel) && !(healthy && path in kernel.files)
      ensures loop.Some? ==> loop.value !in old(kernel.loops)
                             && kernel == old(kernel).(loops := old(kernel.loops)[loop.value := path])
    {
      var fails: bool := *;
      if (fails && !healthy) || path !in kernel.files { return None; }
      var n := FreshLoop();
      kernel := kernel.(loops := kernel.loops[n := path]);
      loop := Some(n);
    }

    method DmsetupCreate(name: DmName, origin: Dev, cow: nat, healthy: bool) returns (ok: bool)
      modifies `kernel
      ensures !ok ==> kernel == old(kernel) && !(healthy && name !in kernel.dms)
      ensures ok ==> name !in old(kernel.dms)
                     && kernel == old(kernel).(dms := old(kernel.dms)[name := Table(origin, cow, old(kernel.serial))],
                                               serial := old(kernel.serial) + 1)
    {
      var fails: bool := *;
      if (fails && !healthy) || name in kernel.dms { return false; }
      kernel := kernel.(dms := kernel.dms[name := Table(origin, cow, kernel.serial)], serial := kernel.serial + 1);
      ok := true;
    }

    // ---------------------------------------------------------------- base images

    /** Takes one reference on the base's loop device, attaching it on first use. */
    method SetupOrigin(base: Path, healthy: bool) returns (loop: Option<nat>)
      requires Valid()
      modifies this
      ensures Valid() && active == old(active)
      ensures kernel.files == old(kernel.files) && kernel.dms == old(kernel.dms) && kernel.serial == old(kernel.serial)
      ensures loop.None? ==> kernel == old(kernel) && bases == old(bases) && leaks == old(leaks)
      ensures healthy && HasOrigin(old(kernel), old(bases), base) ==> loop.Some?
      ensures loop.Some? ==> Retained(old(kernel), old(bases), bases, base) && bases[base].loopDev == loop.value
                             && kernel.loops == LoopsWithBase(old(kernel), old(bases), bases, base)
                             && leaks == old(leaks)[base := Leaked(old(leaks), base) + 1]
    {
      if base in bases {
        AccountedAfterRetain(kernel, bases, active, leaks, base);
        leaks := leaks[base := Leaked(leaks, base) + 1];
        bases := bases[base := bases[base].(refCount := bases[base].refCount + 1)];
        return Some(bases[base].loopDev);
      }
      ghost var k0 := kernel;
      loop := Losetup(base, healthy);
      if loop.None? { return; }
      AccountedAfterAttachBase(k0, bases, active, leaks, base, loop.value);
      leaks := leaks[base := Leaked(leaks, base) + 1];
      bases := bases[base := BaseEntry(loop.value, 1)];
    }

    // ---------------------------------------------------------------- teardown

    /** Removes layers top-down. */
    method CleanupChainLayers(layers: seq<LayerInfo>)
      modifies `kernel
      ensures kernel == TearDown(old(kernel), LayerNames(layers), LayerCows(layers))
    {
      ghost var names, cows := LayerNames(layers), LayerCows(layers);
      var i := |layers|;
      assert names[..i] == names && cows[..i] == cows;
      while i > 0
        invariant 0 <= i <= |layers|
        invariant TearDown(kernel, names[..i], cows[..i]) == TearDown(old(kernel), names, cows)
      {
        i := i - 1;
        assert names[..i + 1][..i] == names[..i] && cows[..i + 1][..i] == cows[..i];
        kernel := DmRemove(kernel, layers[i].dmName);
        kernel := Detach(kernel, layers[i].cowLoop);
      }
    }

    /**
     Frees exactly the devices and cow loops of the VM, and the base loop with the last
     reference, at which point no other VM reads through it.
     */
    method RemoveDevice(vm: VmId)
      requires Valid()
      modifies this
      ensures Valid() && leaks == old(leaks)
      ensures active == old(active) - {vm}
      ensures vm !in old(active) ==> kernel == DmRemove(old(kernel), Main(vm)) && bases == old(bases)
      ensures vm in old(active) ==>
                var info := old(active[vm]);
                && info.base in old(bases)
                && kernel.files == old(kernel.files) && kernel.serial == old(kernel.serial)
                && kernel.dms == old(kernel.dms) - SetOf(Names(vm, info))
                && kernel.loops == LoopsWithout(old(kernel), old(bases), info)
                && bases == BasesWithout(old(bases), info)
                && (old(bases[info.base].refCount) == 1 ==> forall other :: other in active ==> active[other].base != info.base)
      ensures SameAttachments(old(kernel), old(bases), kernel, bases)
    {
      if vm !in active {
        AccountedAfterOrphanRemoval(kernel, bases, active, leaks, vm);
        kernel := DmRemove(kernel, Main(vm));
        assert active - {vm} == active;
        return;
      }
      RemoveRecorded(vm);
    }

    method RemoveRecorded(vm: VmId)
      requires Valid() && vm in active
      modifies this
      ensures Valid() && leaks == old(leaks)
      ensures active == old(active) - {vm}
      ensures old(active[vm]).base in old(bases)
      ensures kernel == old(kernel).(dms := old(kernel.dms) - SetOf(Names(vm, old(active[vm]))),
                                     loops := LoopsWithout(old(kernel), old(bases), old(active[vm])))
      ensures bases == BasesWithout(old(bases), old(active[vm]))
      ensures old(bases[active[vm].base].refCount) == 1 ==> forall other :: other in active ==> active[other].base != old(active[vm].base)
      ensures SameAttachments(old(kernel), old(bases), kernel, bases)
    {
      assert DeviceOk(kernel, bases, active, vm);
      AccountedAfterDeactivate(kernel, bases, active, leaks, vm);
      assert BaseOk(kernel, bases, active, leaks, active[vm].base);
      var info := active[vm];
      ghost var names, cows := Names(vm, info), Cows(info);
      assert names[..|info.layers|] == LayerNames(info.layers) && cows[..|info.layers|] == LayerCows(info.layers);
      ghost var torn := TearDown(kernel, names, cows);
      kernel := DmRemove(kernel, Main(vm));
      kernel := Detach(kernel, info.cowLoop);
      CleanupChainLayers(info.layers);
      assert kernel == torn;
      ghost var rest := active - {vm};
      assert forall other :: other in rest && rest[other].base == info.base ==> other in Users(rest, info.base);
      active := active - {vm};
      var entry := bases[info.base];
      if entry.refCount - 1 <= 0 {
        kernel := Detach(kernel, entry.loopDev);
        bases := bases - {info.base};
      } else {
        bases := bases[info.base := entry.(refCount := entry.refCount - 1)];
      }
    }

    // ---------------------------------------------------------------- construction

    /** The node of a recorded device is there, so a recorded device is never dropped as stale. */
    lemma {:induction false} DeviceNodeExists(vm: VmId)
      requires Valid() && vm in active
      ensures Main(vm) in kernel.dms
    {
      assert DeviceOk(kernel, bases, active, vm);
      assert Link(kernel, bases[active[vm].base].loopDev, Names(vm, active[vm]), Cows(active[vm]), |active[vm].layers|);
    }

    /** Error path of a construction over kernel k1: back to k1's devices and loops. */
    method Abandon(layers: seq<LayerInfo>, ghost k1: Kernel, ghost loopDev: nat, ghost vm: VmId, ghost cowPaths: seq<Path>)
      requires Accounted(k1, bases, active, leaks) && Building(k1, kernel, loopDev, vm, layers, cowPaths)
      modifies `kernel
      ensures Valid() && kernel.dms == k1.dms && kernel.loops == k1.loops && kernel.files == k1.files
    {
      BuildingUndone(k1, kernel, loopDev, vm, layers, cowPaths);
      CleanupChainLayers(layers);
      AccountedFrame(k1, kernel, bases, active, leaks);
    }

    /** losetup and dmsetup of the next layer; if either fails the kernel is as before. */
    method AddLayer(path: Path, dmName: DmName, originDev: Dev, layers: seq<LayerInfo>, healthy: bool,
                    ghost k1: Kernel, ghost loopDev: nat, ghost vm: VmId, ghost cowPaths: seq<Path>)
      returns (added: Option<LayerInfo>)
      requires Building(k1, kernel, loopDev, vm, layers, cowPaths) && |layers| < |cowPaths|
      requires path == cowPaths[|layers|] && dmName == LayerName(vm, |layers|, |cowPaths|)
      requires originDev == TopOf(loopDev, LayerNames(layers))
      modifies `kernel
      ensures added.None? ==> kernel == old(kernel) && !(healthy && path in kernel.files && dmName !in kernel.dms)
      ensures added.Some? ==> added.value.dmName == dmName
                              && Building(k1, kernel, loopDev, vm, layers + [added.value], cowPaths)
    {
      ghost var k := kernel;
      var cow := Losetup(path, healthy);
      if cow.None? { return None; }
      var created := DmsetupCreate(dmName, originDev, cow.value, healthy);
      if !created {
        DetachFresh(k, path, cow.value);
        kernel := Detach(kernel, cow.value);
        return None;
      }
      BuildingGrows(k1, k, loopDev, vm, layers, cowPaths, cow.value);
      added := Some(LayerInfo(dmName, cow.value));
    }

    /** Enters a finished stack into activeDevices. */
    method Record(vm: VmId, base: Path, layers: seq<LayerInfo>,
                  ghost k0: Kernel, ghost bases0: Bases, ghost k1: Kernel, ghost cowPaths: seq<Path>)
      requires Accounted(k1, bases, active, leaks) && vm !in active && 0 < Leaked(leaks, base)
      requires Retained(k0, bases0, bases, base) && k1.dms == k0.dms && k1.loops == LoopsWithBase(k0, bases0, bases, base)
      requires cowPaths != [] && |layers| == |cowPaths| && Building(k1, kernel, bases[base].loopDev, vm, layers, cowPaths)
      modifies `active, `leaks
      ensures Valid() && leaks == old(leaks)[base := Leaked(old(leaks), base) - 1]
      ensures Built(k0, bases0, old(active), kernel, bases, active, vm, base, cowPaths)
    {
      assert BaseOk(k1, bases, active, leaks, base);
      BuildingAccounted(k1, kernel, bases, active, leaks, vm, base, layers, cowPaths);
      BuildingBuilt(k0, bases0, k1, kernel, bases, active, vm, base, layers, cowPaths);
      leaks := leaks[base := Leaked(leaks, base) - 1];
      active := active[vm := Finished(base, layers)];
    }

    /**
     Stacks the cow files, oldest first. A device the VM already has is returned as it is;
     if any layer fails, every cow loop and dm device made by the call is gone again.
     */
    method ReconstructChainDevice(vm: VmId, base: Path, cowPaths: seq<Path>, healthy: bool) returns (ok: bool)
      requires Valid()
      modifies this
      ensures Valid() && kernel.files == old(kernel.files)
      ensures ok && vm in old(active) ==> kernel == old(kernel) && bases == old(bases) && active == old(active) && leaks == old(leaks)
      ensures ok && vm !in old(active) ==> Built(old(kernel), old(bases), old(active), kernel, bases, active, vm, base, cowPaths)
      ensures ok ==> forall p {:trigger Leaked(leaks, p)} :: Leaked(leaks, p) == Leaked(old(leaks), p)
      ensures !ok ==> NothingBuilt(old(kernel), old(bases), old(active), kernel, bases, active, base)
      ensures SameAttachments(old(kernel), old(bases), kernel, bases)
      ensures healthy && cowPaths != [] && (vm in old(active) || old(HasOrigin(kernel, bases, base) && Startable(kernel, vm, cowPaths))) ==> ok
    {
      if cowPaths == [] { return false; }
      if |cowPaths| == 1 {
        ok := CreateCowDevice(vm, base, cowPaths[0], true, healthy);
        assert cowPaths == [cowPaths[0]];
        return;
      }
      if vm in active {
        DeviceNodeExists(vm);
        return true;
      }
      var origin := SetupOrigin(base, healthy);
      if origin.None? { return false; }
      var statFails: bool := *;
      if statFails && !healthy { return false; }
      ok := StackLayers(vm, base, origin.value, cowPaths, healthy, old(kernel), old(bases));
      if ok {
        BuiltKeepsAttachments(old(kernel), old(bases), old(active), kernel, bases, active, vm, base, cowPaths);
      }
    }

    /** The layering loop of ReconstructChainDevice. */
    method StackLayers(vm: VmId, base: Path, loopDev: nat, cowPaths: seq<Path>, healthy: bool, ghost k0: Kernel, ghost bases0: Bases)
      returns (ok: bool)
      requires Valid() && vm !in active && cowPaths != [] && 0 < Leaked(leaks, base)
      requires Retained(k0, bases0, bases, base) && bases[base].loopDev == loopDev
      requires kernel.dms == k0.dms && kernel.loops == LoopsWithBase(k0, bases0, bases, base)
      modifies `kernel, `active, `leaks
      ensures Valid() && kernel.files == old(kernel.files)
      ensures ok ==> Built(k0, bases0, old(active), kernel, bases, active, vm, base, cowPaths)
                     && leaks == old(leaks)[base := Leaked(old(leaks), base) - 1]
      ensures !ok ==> kernel.dms == old(kernel.dms) && kernel.loops == old(kernel.loops) && active == old(active) && leaks == old(leaks)
      ensures healthy && old(Startable(kernel, vm, cowPaths)) ==> ok
    {
      ghost var k1 := kernel;
      assert BaseOk(k1, bases, active, leaks, base);
      BuildingStarts(k1, loopDev, vm, cowPaths);
      var layers: seq<LayerInfo> := [];
      var originDev := Loop(loopDev);
      for i := 0 to |cowPaths|
        invariant |layers| == i && originDev == TopOf(loopDev, LayerNames(layers))
        invariant Building(k1, kernel, loopDev, vm, layers, cowPaths)
        invariant active == old(active) && leaks == old(leaks)
      {
        var dmName := LayerName(vm, i, |cowPaths|);
        var added := AddLayer(cowPaths[i], dmName, originDev, layers, healthy, k1, loopDev, vm, cowPaths);
        if added.None? {
          NextNameFree(k1, kernel, loopDev, vm, layers, cowPaths);
          Abandon(layers, k1, loopDev, vm, cowPaths);
          return false;
        }
        layers := layers + [added.value];
        originDev := Dm(dmName);
      }
      Record(vm, base, layers, k0, bases0, k1, cowPaths);
      ok := true;
    }

    /** A single layer over base; unless reused, the cow file starts out empty. */
    method CreateCowDevice(vm: VmId, base: Path, cowPath: Path, reuse: bool, healthy: bool) returns (ok: bool)
      requires Valid()
      modifies this
      ensures Valid()
      ensures kernel.files == old(kernel.files) || (!reuse && kernel.files == old(kernel.files)[cowPath := Cow(map[])])
      ensures ok && vm in old(active) ==> kernel == old(kernel) && bases == old(bases) && active == old(active) && leaks == old(leaks)
      ensures ok && vm !in old(active) ==> Built(old(kernel), old(bases), old(active), kernel, bases, active, vm, base, [cowPath])
      ensures ok && vm !in old(active) && !reuse ==> kernel.files == old(kernel.files)[cowPath := Cow(map[])]
      ensures ok ==> forall p {:trigger Leaked(leaks, p)} :: Leaked(leaks, p) == Leaked(old(leaks), p)
      ensures !ok ==> NothingBuilt(old(kernel), old(bases), old(active), kernel, bases, active, base)
      ensures SameAttachments(old(kernel), old(bases), kernel, bases)
      ensures healthy && (vm in old(active) || old(HasOrigin(kernel, bases, base) && Main(vm) !in kernel.dms && (reuse ==> cowPath in kernel.files))) ==> ok
    {
      if vm in active {
        DeviceNodeExists(vm);
        return true;
      }
      var origin := SetupOrigin(base, healthy);
      if origin.None? { return false; }
      var statOrMkdirFails: bool := *;
      if statOrMkdirFails && !healthy { return false; }
      if !reuse {
        AccountedFrame(kernel, kernel.(files := kernel.files[cowPath := Cow(map[])]), bases, active, leaks);
        kernel := kernel.(files := kernel.files[cowPath := Cow(map[])]);
      }
      ok := StackLayers(vm, base, origin.value, [cowPath], healthy, old(kernel), old(bases));
      if ok {
        BuiltKeepsAttachments(old(kernel), old(bases), old(active), kernel, bases, active, vm, base, [cowPath]);
      }
    }

    /** Building a chain device and removing it again leaves every map as it was. */
    method ReconstructThenRemove(vm: VmId, base: Path, cowPaths: seq<Path>, healthy: bool) returns (ok: bool)
      requires Valid() && vm !in active
      modifies this
      ensures Valid()
      ensures ok ==> kernel.files == old(kernel.files) && kernel.loops == old(kernel.loops) && kernel.dms == old(kernel.dms)
                     && bases == old(bases) && active == old(active)
      ensures healthy && cowPaths != [] && old(HasOrigin(kernel, bases, base) && Startable(kernel, vm, cowPaths)) ==> ok
    {
      ok := ReconstructChainDevice(vm, base, cowPaths, healthy);
      if ok {
        if base in old(bases) {
          assert old(BaseOk(kernel, bases, active, leaks, base));
        }
        ReleaseUndoesRetain(old(kernel), old(bases), bases, base);
        RemoveDevice(vm);
      }
    }

    /** flattenDmDevice on the VM's device; a failed copy leaves an arbitrary image behind. */
    method CopyDevice(vm: VmId, path: Path, healthy: bool) returns (ok: bool)
      requires Valid() && Main(vm) in kernel.dms
      modifies `kernel
      ensures Valid() && path in kernel.files
      ensures kernel == old(kernel).(files := old(kernel.files)[path := kernel.files[path]])
      ensures ok ==> kernel.files[path] == Raw(old(FlattenInto(kernel, Dm(Main(vm)), path)))
      ensures healthy ==> ok
    {
      var fails: bool, partial: seq<Block> := *, *;
      fails := fails && !healthy;
      var image := if fails then partial else FlattenInto(kernel, Dm(Main(vm)), path);
      AccountedFrame(kernel, kernel.(files := kernel.files[path := Raw(image)]), bases, active, leaks);
      kernel := kernel.(files := kernel.files[path := Raw(image)]);
      ok := !fails;
    }

    /**
     Copies the stacked view into mergedPath and puts a single empty layer over it; the old
     layers and cow loops are gone. The view is unchanged provided that no loop device is attached
     to mergedPath, which must also not be the fresh cow file beside it. Whatever fails, the
     devices of other VMs read as before unless they are on one of those two files.
     */
    method FlattenChainDevice(vm: VmId, mergedPath: Path, healthy: bool) returns (ok: bool)
      requires Valid()
      modifies this
      ensures Valid()
      ensures ok ==> vm in old(active) && vm in active && active[vm].base == mergedPath && active[vm].layers == []
                     && active == old(active)[vm := active[vm]]
      ensures ok ==> active[vm].cowLoop in kernel.loops && kernel.loops[active[vm].cowLoop] == Path(mergedPath.dir, "cow.img")
                     && Path(mergedPath.dir, "cow.img") in kernel.files && kernel.files[Path(mergedPath.dir, "cow.img")] == Cow(map[])
      ensures ok ==> Replaced(old(kernel), old(bases), old(active[vm]), kernel, bases, vm, mergedPath, active[vm].cowLoop)
      ensures ok ==> Main(vm) in old(kernel.dms) && Main(vm) in kernel.dms
      ensures ok && mergedPath.name != "cow.img" && mergedPath !in old(CowPaths(kernel, active[vm])) ==>
                View(kernel, Dm(Main(vm))) == old(FlattenInto(kernel, Dm(Main(vm)), mergedPath))
      ensures ok && mergedPath.name != "cow.img" && mergedPath !in old(kernel.loops.Values) ==>
                View(kernel, Dm(Main(vm))) == old(View(kernel, Dm(Main(vm))))
      ensures healthy && vm in old(active) ==> ok
      ensures forall p :: p != mergedPath && p != Path(mergedPath.dir, "cow.img") ==> SameFile(old(kernel), kernel, p)
      ensures forall other :: other in old(active) && other != vm ==>
                && other in active && active[other] == old(active[other])
                && (old(Apart(kernel, active[other], {mergedPath, Path(mergedPath.dir, "cow.img")})) ==>
                      DiskView(kernel, bases, active[other]) == old(DiskView(kernel, bases, active[other])))
      ensures forall other :: other in old(active) && other != vm && old(Elsewhere(kernel, active[other], mergedPath.dir)) ==>
                Main(other) in old(kernel.dms) && Main(other) in kernel.dms
                && View(kernel, Dm(Main(other))) == old(View(kernel, Dm(Main(other))))
    {
      ok := false;
      var sizeFails: bool := *;
      if vm in active && (healthy || !sizeFails) {
        DeviceNodeExists(vm);
        ok := FlattenRecorded(vm, mergedPath, healthy);
      }
      OthersKept(old(kernel), old(bases), old(active), old(leaks), kernel, bases, active, leaks, vm, {mergedPath, FreshCow(mergedPath)});
      OthersRead(old(kernel), old(bases), old(active), old(leaks), kernel, bases, active, leaks, vm, mergedPath.dir, {mergedPath, FreshCow(mergedPath)});
    }

    method FlattenRecorded(vm: VmId, mergedPath: Path, healthy: bool) returns (ok: bool)
      requires Valid() && vm in active && Main(vm) in kernel.dms
      modifies this
      ensures Valid() && (healthy ==> ok)
      ensures ok ==> vm in active && active[vm].base == mergedPath && active[vm].layers == []
                     && active[vm].cowLoop in kernel.loops && kernel.loops[active[vm].cowLoop] == FreshCow(mergedPath)
                     && FreshCow(mergedPath) in kernel.files && kernel.files[FreshCow(mergedPath)] == Cow(map[])
                     && Main(vm) in kernel.dms
      ensures ok ==> Replaced(old(kernel), old(bases), old(active[vm]), kernel, bases, vm, mergedPath, active[vm].cowLoop)
      ensures ok && mergedPath.name != "cow.img" ==>
                View(kernel, Dm(Main(vm))) == old(FlattenInto(kernel, Dm(Main(vm)), mergedPath))
      ensures ok && mergedPath.name != "cow.img" && mergedPath !in old(kernel.loops.Values) ==>
                View(kernel, Dm(Main(vm))) == old(View(kernel, Dm(Main(vm))))
      ensures active == (if vm in active then old(active)[vm := active[vm]] else old(active) - {vm})
      ensures forall p :: p != mergedPath && p != FreshCow(mergedPath) ==> SameFile(old(kernel), kernel, p)
      ensures forall other :: other in old(active) && other != vm ==>
                Undisturbed(old(kernel), old(bases), kernel, bases, old(active[other]))
    {
      ghost var k0 := kernel;
      if mergedPath !in k0.loops.Values {
        FlattenExact(k0, Dm(Main(vm)), mergedPath);
      }
      ok := CopyDevice(vm, mergedPath, healthy);
      if ok {
        ok := ReplaceWithSingleLayer(vm, mergedPath, healthy);
      }
    }

    /** Steps 3 and 4: tear the stack down, then one empty layer over the merged image. */
    method ReplaceWithSingleLayer(vm: VmId, mergedPath: Path, healthy: bool) returns (ok: bool)
      requires Valid() && vm in active
      modifies this
      ensures Valid()
      ensures ok ==> vm in active && active[vm].base == mergedPath && active[vm].layers == []
                     && active == old(active)[vm := active[vm]]
                     && active[vm].cowLoop in kernel.loops && kernel.loops[active[vm].cowLoop] == FreshCow(mergedPath)
                     && Main(vm) in kernel.dms
      ensures !ok ==> active == old(active) - {vm} && !(healthy && mergedPath in old(kernel.files))
      ensures kernel.files == old(kernel.files) || kernel.files == old(kernel.files)[FreshCow(mergedPath) := Cow(map[])]
      ensures ok ==> kernel.files == old(kernel.files)[FreshCow(mergedPath) := Cow(map[])]
      ensures ok ==> Replaced(old(kernel), old(bases), old(active[vm]), kernel, bases, vm, mergedPath, active[vm].cowLoop)
      ensures ok && mergedPath.name != "cow.img" ==>
                View(kernel, Dm(Main(vm))) == FileBlocks(old(kernel.files), mergedPath)
      ensures forall other :: other in old(active) && other != vm ==>
                Undisturbed(old(kernel), old(bases), kernel, bases, old(active[other]))
    {
      RemoveRecorded(vm);
      ghost var k1, bases1, active1, leaks1 := kernel, bases, active, leaks;
      MainIsGone(old(kernel), kernel, vm, old(active[vm]));
      ok := CreateFirstDevice(vm, mergedPath, FreshCow(mergedPath), healthy);
      AllUndisturbed(old(kernel), old(bases), old(active), k1, bases1, leaks1, kernel, bases, vm);
      if ok {
        ReplacedByBuilt(old(kernel), old(bases), old(active[vm]), k1, bases1, active1, kernel, bases, active, vm, mergedPath, FreshCow(mergedPath));
      }
    }

    /** CreateCowDevice with a fresh cow file, for a VM without a device. */
    method CreateFirstDevice(vm: VmId, base: Path, cowPath: Path, healthy: bool) returns (ok: bool)
      requires Valid() && vm !in active
      modifies this
      ensures Valid() && SameAttachments(old(kernel), old(bases), kernel, bases)
      ensures kernel.files == old(kernel.files) || kernel.files == old(kernel.files)[cowPath := Cow(map[])]
      ensures ok ==> kernel.files == old(kernel.files)[cowPath := Cow(map[])]
                     && Built(old(kernel), old(bases), old(active), kernel, bases, active, vm, base, [cowPath])
      ensures ok && base != cowPath ==> View(kernel, Dm(Main(vm))) == FileBlocks(old(kernel.files), base)
      ensures !ok ==> active == old(active) && !(healthy && old(HasOrigin(kernel, bases, base) && Main(vm) !in kernel.dms))
    {
      ok := CreateCowDevice(vm, base, cowPath, false, healthy);
      if ok {
        EmptyLayerReadsBase(kernel.files, base, cowPath);
      }
    }

    /**
     Reconstruct and flatten, twice, without a guest write in between. The second round gets the
     device over the merged image back and flattens it onto its own base: what is left of the disk
     is its size.
     */
    method FlattenTwice(vm: VmId, base: Path, cowPaths: seq<Path>, mergedPath: Path, healthy: bool) returns (ok: bool, ghost first: seq<Block>)
      requires Valid() && vm !in active && mergedPath.name != "cow.img"
      requires mergedPath !in kernel.loops.Values && mergedPath != base && mergedPath !in cowPaths
      modifies this
      ensures Valid()
      ensures ok ==> first == DiskOf(old(kernel.files), base, cowPaths)
      ensures ok ==> Main(vm) in kernel.dms && View(kernel, Dm(Main(vm))) == Zeros(|first|)
      ensures healthy && cowPaths != [] && old(HasOrigin(kernel, bases, base) && Startable(kernel, vm, cowPaths)) ==> ok
    {
      first := [];
      ok := ReconstructChainDevice(vm, base, cowPaths, healthy);
      if !ok { return; }
      BuiltLoops(old(kernel), old(bases), old(active), kernel, bases, active, vm, base, cowPaths);
      ok := FlattenChainDevice(vm, mergedPath, healthy);
      if !ok { return; }
      first := View(kernel, Dm(Main(vm)));
      ok := ReconstructChainDevice(vm, base, cowPaths, healthy);
      if !ok { return; }
      OwnBaseZeroed(vm, mergedPath);
      ok := FlattenChainDevice(vm, mergedPath, healthy);
    }

    /**
     The device of a restore from a downloaded disk image, over a fresh cow file. It reads the
     image if and only if the VM had no device, or one that reads the same: an existing device
     comes back as it is.
     */
    method RestoreFromDiskImage(vm: VmId, diskImage: Path, cowPath: Path, healthy: bool) returns (ok: bool)
      requires Valid() && diskImage != cowPath
      modifies this
      ensures Valid()
      ensures vm in old(active) ==> Main(vm) in old(kernel.dms)
      ensures ok ==> Main(vm) in kernel.dms
      ensures ok ==> (View(kernel, Dm(Main(vm))) == FileBlocks(old(kernel.files), diskImage) <==>
                        vm !in old(active) || old(View(kernel, Dm(Main(vm)))) == FileBlocks(old(kernel.files), diskImage))
      ensures ok && vm in old(active) ==> kernel == old(kernel) && active == old(active)
      ensures healthy && (vm in old(active) || old(HasOrigin(kernel, bases, diskImage) && Main(vm) !in kernel.dms)) ==> ok
    {
      if vm in active {
        DeviceNodeExists(vm);
      }
      ok := CreateCowDevice(vm, diskImage, cowPath, false, healthy);
      if ok && vm !in old(active) {
        EmptyLayerReadsBase(kernel.files, diskImage, cowPath);
      }
    }

    /**
     A VM is created, stopped, which keeps its device, and restored from a disk image: it gets the
     disk it was created with, whatever the image holds.
     */
    method CreateStopRestore(vm: VmId, base: Path, cowPath: Path, diskImage: Path, healthy: bool) returns (ok: bool)
      requires Valid() && vm !in active && base != cowPath && diskImage != cowPath
      modifies this
      ensures Valid()
      ensures ok ==> Main(vm) in kernel.dms && View(kernel, Dm(Main(vm))) == FileBlocks(old(kernel.files), base)
      ensures healthy && old(HasOrigin(kernel, bases, base) && Main(vm) !in kernel.dms) ==> ok
    {
      ok := CreateCowDevice(vm, base, cowPath, false, healthy);
      if !ok { return; }
      EmptyLayerReadsBase(kernel.files, base, cowPath);
      ok := RestoreFromDiskImage(vm, diskImage, cowPath, healthy);
    }

    /**
     Flatten a, let its guest write, flatten b into another directory: a reads its writes, and reads
     the same after b's flatten, whatever fails there.
     */
    method FlattenTwoVms(a: VmId, pathA: Path, written: map<nat, Block>, b: VmId, pathB: Path, healthy: bool)
      returns (okA: bool, okB: bool, ghost seen: seq<Block>)
      requires Valid() && a != b && pathA.dir != pathB.dir && pathA.name != "cow.img" && pathA !in kernel.loops.Values
      modifies this
      ensures Valid()
      ensures okA ==> Main(a) in old(kernel.dms) && Main(a) in kernel.dms && View(kernel, Dm(Main(a))) == seen
      ensures okA ==> seen == Overlay(written, old(View(kernel, Dm(Main(a)))))
      ensures healthy && a in old(active) ==> okA
      ensures okA && healthy && b in old(active) ==> okB
    {
      okB, seen := false, [];
      okA := FlattenChainDevice(a, pathA, healthy);
      if !okA { return; }
      GuestWrites(a, pathA, written);
      seen := View(kernel, Dm(Main(a)));
      okB := FlattenChainDevice(b, pathB, healthy);
    }

    /** The guest of a VM with a single layer over an image fills its cow file. */
    method GuestWrites(vm: VmId, image: Path, written: map<nat, Block>)
      requires Valid() && vm in active && active[vm].base == image && active[vm].layers == []
      requires active[vm].cowLoop in kernel.loops && kernel.loops[active[vm].cowLoop] == Path(image.dir, "cow.img")
      requires Path(image.dir, "cow.img") in kernel.files && kernel.files[Path(image.dir, "cow.img")] == Cow(map[]) && image.name != "cow.img"
      modifies `kernel
      ensures Valid() && kernel == old(kernel).(files := old(kernel.files)[Path(image.dir, "cow.img") := Cow(written)])
      ensures Main(vm) in old(kernel.dms) && View(kernel, Dm(Main(vm))) == Overlay(written, old(View(kernel, Dm(Main(vm)))))
    {
      DeviceReadsDiskView(kernel, bases, active, leaks, vm);
      assert BaseOk(kernel, bases, active, leaks, image) by {
        assert DeviceOk(kernel, bases, active, vm);
      }
      ghost var k0 := kernel;
      kernel := kernel.(files := kernel.files[Path(image.dir, "cow.img") := Cow(written)]);
      AccountedFrame(k0, kernel, bases, active, leaks);
      DeviceReadsDiskView(kernel, bases, active, leaks, vm);
      OneLayer(k0, active[vm]);
      OneLayer(kernel, active[vm]);
    }

    lemma {:induction false} OneLayer(k: Kernel, info: DeviceInfo)
      requires info.layers == []
      ensures DiskView(k, bases, info) == Overlay(CowAt(k, info.cowLoop), if info.base in bases then RawAt(k, bases[info.base].loopDev) else [])
    {
      var stores := CowContents(k, Cows(info));
      assert |stores| == 1 && stores[0] == CowAt(k, info.cowLoop) && stores[..0] == [];
      var base := if info.base in bases then RawAt(k, bases[info.base].loopDev) else [];
      assert Stack(base, stores) == Overlay(stores[0], Stack(base, stores[..0]));
    }

    lemma {:induction false} OwnBaseZeroed(vm: VmId, mergedPath: Path)
      requires Valid() && vm in active && active[vm].base == mergedPath && active[vm].layers == [] && mergedPath.name != "cow.img"
      requires active[vm].cowLoop in kernel.loops && kernel.loops[active[vm].cowLoop] == FreshCow(mergedPath)
      requires FreshCow(mergedPath) in kernel.files && kernel.files[FreshCow(mergedPath)] == Cow(map[])
      ensures Main(vm) in kernel.dms && FlattenInto(kernel, Dm(Main(vm)), mergedPath) == Zeros(|View(kernel, Dm(Main(vm)))|)
      ensures mergedPath !in CowPaths(kernel, active[vm])
    {
      assert DeviceOk(kernel, bases, active, vm) && BaseOk(kernel, bases, active, leaks, mergedPath);
      assert Names(vm, active[vm]) == [Main(vm)] && Cows(active[vm]) == [active[vm].cowLoop];
      FlattenOntoOwnBaseZeroes(kernel, bases[mergedPath].loopDev, Main(vm), active[vm].cowLoop, mergedPath);
    }
  }
}
