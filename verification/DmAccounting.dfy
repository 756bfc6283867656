/**
 The bookkeeping of the dm-snapshot manager against the kernel: which references on a
 base loop device are accounted for, and what each transition of the manager keeps.
 */
module DmAccounting {
  import opened DeviceMapper

  datatype BaseEntry = BaseEntry(loopDev: nat, refCount: int)

  datatype LayerInfo = LayerInfo(dmName: DmName, cowLoop: nat)

  /** The device of one VM; layers are the intermediate ones, bottom up. */
  datatype DeviceInfo = DeviceInfo(base: Path, cowLoop: nat, layers: seq<LayerInfo>)

  type Bases = map<Path, BaseEntry>
  type Devices = map<VmId, DeviceInfo>

  function Names(vm: VmId, info: DeviceInfo): (n: seq<DmName>)
    ensures |n| == |info.layers| + 1
  {
    seq(|info.layers|, i requires 0 <= i < |info.layers| => info.layers[i].dmName) + [Main(vm)]
  }

  function Cows(info: DeviceInfo): (c: seq<nat>)
    ensures |c| == |info.layers| + 1
  {
    seq(|info.layers|, i requires 0 <= i < |info.layers| => info.layers[i].cowLoop) + [info.cowLoop]
  }

  // ------------------------------------------------------------------ accounting

  ghost function Users(active: Devices, p: Path): set<VmId> {
    set vm | vm in active && active[vm].base == p
  }

  /** The bottom devices of the VMs on base p. */
  ghost function Bottoms(active: Devices, p: Path): set<DmName> {
    set vm | vm in active && active[vm].base == p :: Names(vm, active[vm])[0]
  }

  /** References taken on p by a failed step, or by a direct SetupOrigin, and never given back. */
  ghost function Leaked(leaks: map<Path, nat>, p: Path): nat {
    if p in leaks then leaks[p] else 0
  }

  ghost predicate BaseOk(k: Kernel, bases: Bases, active: Devices, leaks: map<Path, nat>, p: Path)
    requires p in bases
  {
    var e := bases[p];
    && e.loopDev in k.loops && k.loops[e.loopDev] == p
    && LoopUsers(k.dms, e.loopDev) == Bottoms(active, p)
    && e.refCount == |Users(active, p)| + Leaked(leaks, p)
    && 0 < e.refCount
    && (forall vm :: vm in active ==> e.loopDev !in Cows(active[vm]))
  }

  ghost predicate DeviceOk(k: Kernel, bases: Bases, active: Devices, vm: VmId)
    requires vm in active
  {
    var info := active[vm];
    && info.base in bases
    && (forall i :: 0 <= i < |info.layers| ==> info.layers[i].dmName == Layer(vm, i))
    && Stacked(k, bases[info.base].loopDev, Names(vm, info), Cows(info))
  }

  ghost predicate Accounted(k: Kernel, bases: Bases, active: Devices, leaks: map<Path, nat>) {
    && Live(k)
    && (forall p {:trigger BaseOk(k, bases, active, leaks, p)} :: p in bases ==> BaseOk(k, bases, active, leaks, p))
    && (forall p {:trigger Leaked(leaks, p)} :: p !in bases ==> Leaked(leaks, p) == 0)
    && (forall vm {:trigger DeviceOk(k, bases, active, vm)} :: vm in active ==> DeviceOk(k, bases, active, vm))
  }

  // ------------------------------------------------------------------ frames

  /** k0 is k without the given devices and cow loops. */
  ghost predicate Extends(k0: Kernel, k: Kernel, names: seq<DmName>, cows: seq<nat>) {
    && k0.loops == k.loops - SetOf(cows)
    && k0.dms == k.dms - SetOf(names)
  }

  lemma {:induction false} LoopUsersFrame(k0: Kernel, k: Kernel, baseLoop: nat, names: seq<DmName>, cows: seq<nat>, n: nat)
    requires Extends(k0, k, names, cows) && Stacked(k, baseLoop, names, cows) && n in k0.loops
    ensures LoopUsers(k.dms, n) ==
              LoopUsers(k0.dms, n) + (if n == baseLoop && names != [] then {names[0]} else {})
  {
    forall i | 0 <= i < |names|
      ensures names[i] in LoopUsers(k.dms, n) <==> n == baseLoop && i == 0
    {
      assert Link(k, baseLoop, names, cows, i);
      assert cows[i] in SetOf(cows);
    }
  }

  lemma {:induction false} DmUsersFrame(k0: Kernel, k: Kernel, baseLoop: nat, names: seq<DmName>, cows: seq<nat>, m: DmName)
    requires Extends(k0, k, names, cows) && Stacked(k, baseLoop, names, cows) && m in k0.dms
    ensures DmUsers(k.dms, m) == DmUsers(k0.dms, m)
  {
    forall i | 0 <= i < |names|
      ensures names[i] !in DmUsers(k.dms, m)
    {
      assert Link(k, baseLoop, names, cows, i);
      assert i > 0 ==> names[i - 1] in SetOf(names);
    }
  }

  /** Another stack of k0 stands in k as it did. */
  lemma {:induction false} StackedFrame(k0: Kernel, k: Kernel, baseLoop: nat, names: seq<DmName>, cows: seq<nat>,
                     baseLoop2: nat, names2: seq<DmName>, cows2: seq<nat>)
    requires Extends(k0, k, names, cows) && Stacked(k, baseLoop, names, cows)
    requires Stacked(k0, baseLoop2, names2, cows2) && baseLoop !in cows2
    ensures Stacked(k, baseLoop2, names2, cows2)
  {
    forall i | 0 <= i < |names2|
      ensures Link(k, baseLoop2, names2, cows2, i)
    {
      assert Link(k0, baseLoop2, names2, cows2, i);
      LoopUsersFrame(k0, k, baseLoop, names, cows, cows2[i]);
      DmUsersFrame(k0, k, baseLoop, names, cows, names2[i]);
    }
  }

  lemma {:induction false} UsersAdded(active: Devices, vm: VmId, info: DeviceInfo, p: Path)
    requires vm !in active
    ensures |Users(active[vm := info], p)| == |Users(active, p)| + (if info.base == p then 1 else 0)
  {
    assert vm !in Users(active, p);
    assert Users(active[vm := info], p) == Users(active, p) + (if info.base == p then {vm} else {});
  }

  lemma {:induction false} BottomsAdded(active: Devices, vm: VmId, info: DeviceInfo, p: Path)
    requires vm !in active
    ensures Bottoms(active[vm := info], p) == Bottoms(active, p) + (if info.base == p then {Names(vm, info)[0]} else {})
  {
    var active' := active[vm := info];
    forall a | a in Bottoms(active', p)
      ensures a in Bottoms(active, p) || (info.base == p && a == Names(vm, info)[0])
    {
      var v :| v in active' && active'[v].base == p && a == Names(v, active'[v])[0];
      assert v != vm ==> active[v] == active'[v];
    }
    forall a | a in Bottoms(active, p)
      ensures a in Bottoms(active', p)
    {
      var v :| v in active && active[v].base == p && a == Names(v, active[v])[0];
      assert active'[v] == active[v];
    }
    if info.base == p {
      assert active'[vm].base == p;
    }
  }

  // ------------------------------------------------------------------ transitions

  /** Attaching a base that had no loop device. */
  lemma {:induction false} AccountedAfterAttachBase(k: Kernel, bases: Bases, active: Devices, leaks: map<Path, nat>, p: Path, n: nat)
    requires Accounted(k, bases, active, leaks) && p !in bases && n !in k.loops
    ensures Accounted(k.(loops := k.loops[n := p]), bases[p := BaseEntry(n, 1)], active, leaks[p := Leaked(leaks, p) + 1])
  {
    var k', bases', leaks' := k.(loops := k.loops[n := p]), bases[p := BaseEntry(n, 1)], leaks[p := Leaked(leaks, p) + 1];
    forall a | a in k.dms
      ensures LiveTable(k', a) && a !in LoopUsers(k.dms, n)
    {
      assert LiveTable(k, a);
    }
    forall vm | vm in active
      ensures DeviceOk(k', bases', active, vm) && active[vm].base != p && n !in Cows(active[vm])
    {
      assert DeviceOk(k, bases, active, vm);
      var info := active[vm];
      forall i | 0 <= i < |Names(vm, info)|
        ensures Link(k', bases'[info.base].loopDev, Names(vm, info), Cows(info), i) && Cows(info)[i] != n
      {
        assert Link(k, bases[info.base].loopDev, Names(vm, info), Cows(info), i);
      }
    }
    assert Users(active, p) == {} && Bottoms(active, p) == {};
    forall q | q in bases'
      ensures BaseOk(k', bases', active, leaks', q)
    {
      if q != p {
        assert BaseOk(k, bases, active, leaks, q);
      } else {
        assert Leaked(leaks, p) == 0;
      }
    }
    forall q | q !in bases'
      ensures Leaked(leaks', q) == 0
    {
      assert Leaked(leaks, q) == 0;
    }
  }

  /** Taking one more reference on an attached base. */
  lemma {:induction false} AccountedAfterRetain(k: Kernel, bases: Bases, active: Devices, leaks: map<Path, nat>, p: Path)
    requires Accounted(k, bases, active, leaks) && p in bases
    ensures Accounted(k, bases[p := bases[p].(refCount := bases[p].refCount + 1)], active, leaks[p := Leaked(leaks, p) + 1])
  {
    var bases', leaks' := bases[p := bases[p].(refCount := bases[p].refCount + 1)], leaks[p := Leaked(leaks, p) + 1];
    forall q | q in bases'
      ensures BaseOk(k, bases', active, leaks', q)
    {
      assert BaseOk(k, bases, active, leaks, q);
    }
    forall q | q !in bases'
      ensures Leaked(leaks', q) == 0
    {
      assert Leaked(leaks, q) == 0;
    }
    forall vm | vm in active
      ensures DeviceOk(k, bases', active, vm)
    {
      assert DeviceOk(k, bases, active, vm);
    }
  }

  /** Recording the device of a newly built stack uses up one leaked reference. */
  lemma {:induction false} AccountedAfterActivate(k0: Kernel, k: Kernel, bases: Bases, active: Devices, leaks: map<Path, nat>, vm: VmId, info: DeviceInfo)
    requires Accounted(k0, bases, active, leaks) && vm !in active && info.base in bases && 0 < Leaked(leaks, info.base)
    requires forall i :: 0 <= i < |info.layers| ==> info.layers[i].dmName == Layer(vm, i)
    requires Live(k) && Extends(k0, k, Names(vm, info), Cows(info))
    requires Stacked(k, bases[info.base].loopDev, Names(vm, info), Cows(info))
    ensures Accounted(k, bases, active[vm := info], leaks[info.base := Leaked(leaks, info.base) - 1])
  {
    var p := info.base;
    var names, cows, loop := Names(vm, info), Cows(info), bases[p].loopDev;
    var active', leaks' := active[vm := info], leaks[p := Leaked(leaks, p) - 1];
    assert BaseOk(k0, bases, active, leaks, p);
    forall q | q in bases
      ensures BaseOk(k, bases, active', leaks', q)
    {
      assert BaseOk(k0, bases, active, leaks, q);
      UsersAdded(active, vm, info, q);
      BottomsAdded(active, vm, info, q);
      LoopUsersFrame(k0, k, loop, names, cows, bases[q].loopDev);
      forall v | v in active'
        ensures bases[q].loopDev !in Cows(active'[v])
      {
        assert v == vm ==> bases[q].loopDev in k0.loops;
      }
    }
    forall q | q !in bases
      ensures Leaked(leaks', q) == 0
    {
      assert Leaked(leaks, q) == 0;
    }
    forall v | v in active'
      ensures DeviceOk(k, bases, active', v)
    {
      if v != vm {
        assert DeviceOk(k0, bases, active, v);
        StackedFrame(k0, k, loop, names, cows, bases[active[v].base].loopDev, Names(v, active[v]), Cows(active[v]));
      }
    }
  }

  /** The kernel once the stack of one VM has been torn down. */
  ghost function Without(k: Kernel, names: seq<DmName>, cows: seq<nat>): Kernel {
    k.(dms := k.dms - SetOf(names), loops := k.loops - SetOf(cows))
  }

  lemma {:induction false} WithoutIsExtended(k: Kernel, baseLoop: nat, names: seq<DmName>, cows: seq<nat>)
    requires Stacked(k, baseLoop, names, cows)
    ensures Extends(Without(k, names, cows), k, names, cows)
  {
  }

  lemma {:induction false} NamesAreOwn(k: Kernel, bases: Bases, active: Devices, vm: VmId, i: nat)
    requires vm in active && DeviceOk(k, bases, active, vm) && i < |Names(vm, active[vm])|
    ensures Names(vm, active[vm])[i] == (if i < |active[vm].layers| then Layer(vm, i) else Main(vm))
  {
  }

  /** Tearing one VM's stack down leaves another VM's stack standing. */
  lemma {:induction false} OtherStackStands(k: Kernel, bases: Bases, active: Devices, leaks: map<Path, nat>, vm: VmId, other: VmId)
    requires Accounted(k, bases, active, leaks) && vm in active && other in active && vm != other
    requires DeviceOk(k, bases, active, vm) && DeviceOk(k, bases, active, other)
    ensures Stacked(Without(k, Names(vm, active[vm]), Cows(active[vm])),
                    bases[active[other].base].loopDev, Names(other, active[other]), Cows(active[other]))
  {
    var info, info2 := active[vm], active[other];
    var names, cows, loop := Names(vm, info), Cows(info), bases[info.base].loopDev;
    var names2, cows2, loop2 := Names(other, info2), Cows(info2), bases[info2.base].loopDev;
    var k' := Without(k, names, cows);
    WithoutIsExtended(k, loop, names, cows);
    assert BaseOk(k, bases, active, leaks, info.base) && BaseOk(k, bases, active, leaks, info2.base);
    forall i, j | 0 <= i < |names| && 0 <= j < |names2|
      ensures names[i] != names2[j] && cows[i] != cows2[j]
    {
      NamesAreOwn(k, bases, active, vm, i);
      NamesAreOwn(k, bases, active, other, j);
      assert Link(k, loop, names, cows, i) && Link(k, loop2, names2, cows2, j);
      assert names[i] in LoopUsers(k.dms, cows[i]);
    }
    forall j | 0 <= j < |names2|
      ensures Link(k', loop2, names2, cows2, j)
    {
      assert Link(k, loop2, names2, cows2, j);
      LoopUsersFrame(k', k, loop, names, cows, cows2[j]);
      DmUsersFrame(k', k, loop, names, cows, names2[j]);
      assert loop !in Cows(active[other]) && cows2[j] in Cows(active[other]);
    }
  }

  /** What the remaining bases and devices look like after a teardown, before the count drops. */
  lemma {:induction false} RestOfKernel(k: Kernel, bases: Bases, active: Devices, leaks: map<Path, nat>, vm: VmId)
    requires Accounted(k, bases, active, leaks) && vm in active && DeviceOk(k, bases, active, vm)
    ensures var names, cows := Names(vm, active[vm]), Cows(active[vm]);
            var k' := Without(k, names, cows);
            && TearDown(k, names, cows) == k' && Live(k')
            && (forall p :: p in bases ==>
                  && bases[p].loopDev in k'.loops && k'.loops[bases[p].loopDev] == p
                  && LoopUsers(k'.dms, bases[p].loopDev) == Bottoms(active - {vm}, p)
                  && (p != active[vm].base ==> bases[p].refCount == |Users(active - {vm}, p)| + Leaked(leaks, p))
                  && (p == active[vm].base ==> bases[p].refCount == 1 + |Users(active - {vm}, p)| + Leaked(leaks, p)))
  {
    var info := active[vm];
    var names, cows, loop := Names(vm, info), Cows(info), bases[info.base].loopDev;
    var k' := Without(k, names, cows);
    TearDownExact(k, loop, names, cows);
    WithoutIsExtended(k, loop, names, cows);
    var rest := active - {vm};
    assert active == rest[vm := info];
    forall p | p in bases
      ensures && bases[p].loopDev in k'.loops && k'.loops[bases[p].loopDev] == p
              && LoopUsers(k'.dms, bases[p].loopDev) == Bottoms(rest, p)
              && (p != info.base ==> bases[p].refCount == |Users(rest, p)| + Leaked(leaks, p))
              && (p == info.base ==> bases[p].refCount == 1 + |Users(rest, p)| + Leaked(leaks, p))
    {
      assert BaseOk(k, bases, active, leaks, p) && BaseOk(k, bases, active, leaks, info.base);
      UsersAdded(rest, vm, info, p);
      BottomsAdded(rest, vm, info, p);
      LoopUsersFrame(k', k, loop, names, cows, bases[p].loopDev);
      assert names[0] !in k'.dms by {
        assert names[0] in SetOf(names);
      }
      BottomIsNot(k, bases, rest, active, vm, p);
    }
  }

  lemma {:induction false} BottomIsNot(k: Kernel, bases: Bases, rest: Devices, active: Devices, vm: VmId, p: Path)
    requires vm in active && DeviceOk(k, bases, active, vm) && rest == active - {vm}
    requires forall v {:trigger DeviceOk(k, bases, active, v)} :: v in active ==> DeviceOk(k, bases, active, v)
    ensures Names(vm, active[vm])[0] !in Bottoms(rest, p)
  {
    forall v | v in rest
      ensures Names(v, rest[v])[0] != Names(vm, active[vm])[0]
    {
      assert DeviceOk(k, bases, active, v);
      NamesAreOwn(k, bases, active, v, 0);
      NamesAreOwn(k, bases, active, vm, 0);
    }
  }

  /** The bookkeeping of removeDeviceLocked once the stack is gone. */
  function Released(k: Kernel, bases: Bases, p: Path): (r: (Kernel, Bases))
    requires p in bases
  {
    if bases[p].refCount - 1 <= 0 then (Detach(k, bases[p].loopDev), bases - {p})
    else (k, bases[p := bases[p].(refCount := bases[p].refCount - 1)])
  }

  /** Another VM's device stands after the teardown, with or without vm's base loop. */
  lemma {:induction false} RestDevice(k: Kernel, bases: Bases, active: Devices, leaks: map<Path, nat>, vm: VmId, v: VmId)
    requires Accounted(k, bases, active, leaks) && vm in active && DeviceOk(k, bases, active, vm)
    requires v in active && v != vm
    ensures var (k', bases') := Released(Without(k, Names(vm, active[vm]), Cows(active[vm])), bases, active[vm].base);
            (active[v].base == active[vm].base ==> bases[active[vm].base].refCount > 1) ==> DeviceOk(k', bases', active - {vm}, v)
  {
    var p := active[vm].base;
    assert DeviceOk(k, bases, active, v) && BaseOk(k, bases, active, leaks, p);
    OtherStackStands(k, bases, active, leaks, vm, v);
    if active[v].base != p {
      assert BaseOk(k, bases, active, leaks, active[v].base);
      StackedWithoutLoop(Without(k, Names(vm, active[vm]), Cows(active[vm])),
                         bases[active[v].base].loopDev, Names(v, active[v]), Cows(active[v]), bases[p].loopDev);
    }
  }

  lemma {:induction false} AccountedAfterDeactivate(k: Kernel, bases: Bases, active: Devices, leaks: map<Path, nat>, vm: VmId)
    requires Accounted(k, bases, active, leaks) && vm in active && DeviceOk(k, bases, active, vm)
    ensures var p := active[vm].base;
            var (k', bases') := Released(TearDown(k, Names(vm, active[vm]), Cows(active[vm])), bases, p);
            && Accounted(k', bases', active - {vm}, leaks)
            && k' == Without(k, Names(vm, active[vm]), Cows(active[vm])).(loops := k'.loops)
            && k'.loops == k.loops - SetOf(Cows(active[vm])) - (if bases[p].refCount == 1 then {bases[p].loopDev} else {})
            && (bases[p].refCount == 1 ==> Users(active - {vm}, p) == {})
  {
    var p := active[vm].base;
    var rest := active - {vm};
    RestOfKernel(k, bases, active, leaks, vm);
    var kt := Without(k, Names(vm, active[vm]), Cows(active[vm]));
    var (k', bases') := Released(kt, bases, p);
    assert BaseOk(k, bases, active, leaks, p);
    var last := bases[p].refCount == 1;
    if last {
      assert Users(rest, p) == {};
      assert Bottoms(rest, p) == {};
    } else {
      assert kt.loops - {} == kt.loops;
    }
    forall v | v in rest
      ensures DeviceOk(k', bases', rest, v)
    {
      assert last ==> v !in Users(rest, p);
      RestDevice(k, bases, active, leaks, vm, v);
    }
    forall q | q in bases'
      ensures BaseOk(k', bases', rest, leaks, q)
    {
      assert BaseOk(k, bases, active, leaks, q);
    }
    forall q | q !in bases'
      ensures Leaked(leaks, q) == 0
    {
    }
    forall a | a in k'.dms
      ensures LiveTable(k', a)
    {
      assert LiveTable(kt, a);
      assert last ==> a !in LoopUsers(kt.dms, bases[p].loopDev);
    }
  }

  lemma {:induction false} StackedWithoutLoop(k: Kernel, baseLoop: nat, names: seq<DmName>, cows: seq<nat>, n: nat)
    requires Stacked(k, baseLoop, names, cows) && n != baseLoop && n !in cows
    ensures Stacked(k.(loops := k.loops - {n}), baseLoop, names, cows)
  {
    var k' := k.(loops := k.loops - {n});
    forall i | 0 <= i < |names|
      ensures Link(k', baseLoop, names, cows, i)
    {
      assert Link(k, baseLoop, names, cows, i);
    }
  }

  /** Removing a device of a VM the manager does not know disturbs no known one. */
  lemma {:induction false} AccountedAfterOrphanRemoval(k: Kernel, bases: Bases, active: Devices, leaks: map<Path, nat>, vm: VmId)
    requires Accounted(k, bases, active, leaks) && vm !in active
    ensures Accounted(DmRemove(k, Main(vm)), bases, active, leaks)
  {
    var k' := DmRemove(k, Main(vm));
    if k' != k {
      forall a | a in k'.dms
        ensures LiveTable(k', a)
      {
        assert LiveTable(k, a);
        assert a !in DmUsers(k.dms, Main(vm));
      }
      forall v | v in active
        ensures DeviceOk(k', bases, active, v)
      {
        assert DeviceOk(k, bases, active, v);
        var names, cows, loop := Names(v, active[v]), Cows(active[v]), bases[active[v].base].loopDev;
        forall i | 0 <= i < |names|
          ensures Link(k', loop, names, cows, i)
        {
          assert Link(k, loop, names, cows, i);
          NamesAreOwn(k, bases, active, v, i);
          assert LoopUsers(k'.dms, cows[i]) == LoopUsers(k.dms, cows[i]) - {Main(vm)};
          assert DmUsers(k'.dms, names[i]) == DmUsers(k.dms, names[i]) - {Main(vm)};
          if i + 1 < |names| {
            NamesAreOwn(k, bases, active, v, i + 1);
          }
        }
      }
      forall p | p in bases
        ensures BaseOk(k', bases, active, leaks, p)
      {
        assert BaseOk(k, bases, active, leaks, p);
        assert LoopUsers(k'.dms, bases[p].loopDev) == LoopUsers(k.dms, bases[p].loopDev) - {Main(vm)};
        forall v | v in active
          ensures Names(v, active[v])[0] != Main(vm)
        {
          assert DeviceOk(k, bases, active, v);
          NamesAreOwn(k, bases, active, v, 0);
        }
      }
    }
  }

  /** The invariant does not depend on file contents or on how many tables were ever made. */
  lemma {:induction false} AccountedFrame(k: Kernel, k': Kernel, bases: Bases, active: Devices, leaks: map<Path, nat>)
    requires Accounted(k, bases, active, leaks)
    requires k'.loops == k.loops && k'.dms == k.dms && k.serial <= k'.serial
    ensures Accounted(k', bases, active, leaks)
  {
    forall a | a in k'.dms
      ensures LiveTable(k', a)
    {
      assert LiveTable(k, a);
    }
    forall p | p in bases
      ensures BaseOk(k', bases, active, leaks, p)
    {
      assert BaseOk(k, bases, active, leaks, p);
    }
    forall vm | vm in active
      ensures DeviceOk(k', bases, active, vm)
    {
      assert DeviceOk(k, bases, active, vm);
      forall i | 0 <= i < |Names(vm, active[vm])|
        ensures Link(k', bases[active[vm].base].loopDev, Names(vm, active[vm]), Cows(active[vm]), i)
      {
        assert Link(k, bases[active[vm].base].loopDev, Names(vm, active[vm]), Cows(active[vm]), i);
      }
    }
  }
}
