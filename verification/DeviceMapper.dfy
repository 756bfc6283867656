/**
 The kernel as the device-mapper manager sees it: files, loop devices and dm-snapshot
 tables, what a stacked device reads, and the order in which a stack comes apart. A
 device that another one still uses cannot be removed, nor a loop detached.
 */
module DeviceMapper {
  type VmId = string
  type Block = int

  datatype Path = Path(dir: string, name: string)

  /** "vm_<id>", "vm_<id>_layer<i>", or a device of someone else. */
  datatype DmName = Main(vm: VmId) | Layer(vm: VmId, index: nat) | Foreign(name: string)

  datatype Dev = Loop(n: nat) | Dm(name: DmName)

  /** A snapshot table: reads fall through to origin where the cow store has no exception. */
  datatype Table = Table(origin: Dev, cow: nat, serial: nat)

  type Tables = map<DmName, Table>

  datatype File = Raw(blocks: seq<Block>) | Cow(exceptions: map<nat, Block>)

  datatype Kernel = Kernel(files: map<Path, File>, loops: map<nat, Path>, dms: Tables, serial: nat)

  // ------------------------------------------------------------------ users

  function LoopUsers(dms: Tables, n: nat): set<DmName> {
    set a | a in dms && (dms[a].cow == n || dms[a].origin == Loop(n))
  }

  function DmUsers(dms: Tables, m: DmName): set<DmName> {
    set a | a in dms && dms[a].origin == Dm(m)
  }

  function DmRemove(k: Kernel, name: DmName): Kernel {
    if name in k.dms && DmUsers(k.dms, name) == {} then k.(dms := k.dms - {name}) else k
  }

  function Detach(k: Kernel, n: nat): Kernel {
    if n in k.loops && LoopUsers(k.dms, n) == {} then k.(loops := k.loops - {n}) else k
  }

  ghost predicate LiveTable(k: Kernel, a: DmName)
    requires a in k.dms
  {
    var t := k.dms[a];
    && t.cow in k.loops && t.serial < k.serial
    && match t.origin
       case Loop(n) => n in k.loops
       case Dm(m) => m in k.dms && k.dms[m].serial < t.serial
  }

  /** Tables refer to devices that exist, and stack on older ones. */
  ghost predicate Live(k: Kernel) {
    forall a {:trigger LiveTable(k, a)} :: a in k.dms ==> LiveTable(k, a)
  }

  // ------------------------------------------------------------------ what a device reads

  function RawAt(k: Kernel, n: nat): seq<Block> {
    if n in k.loops && k.loops[n] in k.files && k.files[k.loops[n]].Raw? then k.files[k.loops[n]].blocks else []
  }

  function CowAt(k: Kernel, n: nat): map<nat, Block> {
    if n in k.loops && k.loops[n] in k.files && k.files[k.loops[n]].Cow? then k.files[k.loops[n]].exceptions else map[]
  }

  function Overlay(cow: map<nat, Block>, below: seq<Block>): (r: seq<Block>)
    ensures |r| == |below|
  {
    seq(|below|, b requires 0 <= b < |below| => if b in cow then cow[b] else below[b])
  }

  /** The kernel's reading of a device: through the tables, one exception store at a time. */
  function View(k: Kernel, d: Dev): seq<Block>
    requires Live(k) && (d.Dm? ==> d.name in k.dms)
    decreases d.Dm?, if d.Dm? then k.dms[d.name].serial else 0
  {
    match d
    case Loop(n) => RawAt(k, n)
    case Dm(m) =>
      assert LiveTable(k, m);
      Overlay(CowAt(k, k.dms[m].cow), View(k, k.dms[m].origin))
  }

  /** A base image under exception stores, oldest first. */
  function Stack(base: seq<Block>, cows: seq<map<nat, Block>>): (r: seq<Block>)
    ensures |r| == |base|
  {
    if cows == [] then base else Overlay(cows[|cows| - 1], Stack(base, cows[..|cows| - 1]))
  }

  ghost predicate NewestHolding(cows: seq<map<nat, Block>>, b: nat, k: nat) {
    k < |cows| && b in cows[k] && forall j :: k < j < |cows| ==> b !in cows[j]
  }

  /** Each block comes from the newest store that holds it ... */
  lemma {:induction false} StackReadsNewest(base: seq<Block>, cows: seq<map<nat, Block>>, b: nat, k: nat)
    requires b < |base| && NewestHolding(cows, b, k)
    ensures Stack(base, cows)[b] == cows[k][b]
    decreases |cows|
  {
    var n := |cows| - 1;
    if k < n {
      assert forall j :: k < j < n ==> cows[..n][j] == cows[j];
      StackReadsNewest(base, cows[..n], b, k);
    }
  }

  /** ... and from the base when none does. */
  lemma {:induction false} StackReadsBase(base: seq<Block>, cows: seq<map<nat, Block>>, b: nat)
    requires b < |base| && forall k :: 0 <= k < |cows| ==> b !in cows[k]
    ensures Stack(base, cows)[b] == base[b]
    decreases |cows|
  {
    if cows != [] {
      var n := |cows| - 1;
      assert forall k :: 0 <= k < n ==> cows[..n][k] == cows[k];
      StackReadsBase(base, cows[..n], b);
    }
  }

  // ------------------------------------------------------------------ stacks

  /** One link of a stack: its table, and that nothing but the link above uses it. */
  ghost predicate Link(k: Kernel, baseLoop: nat, names: seq<DmName>, cows: seq<nat>, i: nat)
    requires i < |names| == |cows|
  {
    && names[i] in k.dms && cows[i] in k.loops
    && k.dms[names[i]].cow == cows[i]
    && k.dms[names[i]].origin == (if i == 0 then Loop(baseLoop) else Dm(names[i - 1]))
    && LoopUsers(k.dms, cows[i]) == {names[i]}
    && DmUsers(k.dms, names[i]) == (if i + 1 < |names| then {names[i + 1]} else {})
  }

  /** Devices names, bottom up, stacked on a base loop with one cow loop each. */
  ghost predicate Stacked(k: Kernel, baseLoop: nat, names: seq<DmName>, cows: seq<nat>) {
    && |names| == |cows|
    && baseLoop in k.loops && baseLoop !in cows
    && (forall i, j :: 0 <= i < j < |names| ==> names[i] != names[j])
    && (forall i {:trigger Link(k, baseLoop, names, cows, i)} :: 0 <= i < |names| ==> Link(k, baseLoop, names, cows, i))
  }

  function CowContents(k: Kernel, cows: seq<nat>): (c: seq<map<nat, Block>>)
    ensures |c| == |cows|
  {
    seq(|cows|, i requires 0 <= i < |cows| => CowAt(k, cows[i]))
  }

  /** What the top of a stack reads. */
  lemma {:induction false} ViewOfStack(k: Kernel, baseLoop: nat, names: seq<DmName>, cows: seq<nat>, i: nat)
    requires Live(k) && Stacked(k, baseLoop, names, cows) && i < |names|
    ensures names[i] in k.dms
    ensures View(k, Dm(names[i])) == Stack(RawAt(k, baseLoop), CowContents(k, cows[..i + 1]))
  {
    assert Link(k, baseLoop, names, cows, i);
    var c := CowContents(k, cows[..i + 1]);
    assert c[..i] == CowContents(k, cows[..i]);
    if i > 0 {
      assert Link(k, baseLoop, names, cows, i - 1);
      ViewOfStack(k, baseLoop, names, cows, i - 1);
    }
  }

  /** Remove the top device and detach its cow loop. */
  function Pop(k: Kernel, name: DmName, cow: nat): Kernel {
    Detach(DmRemove(k, name), cow)
  }

  /** Top-down teardown of a whole stack. */
  function TearDown(k: Kernel, names: seq<DmName>, cows: seq<nat>): Kernel
    requires |names| == |cows|
    decreases |names|
  {
    if names == [] then k
    else
      var n := |names| - 1;
      TearDown(Pop(k, names[n], cows[n]), names[..n], cows[..n])
  }

  function SetOf<T>(s: seq<T>): set<T> { set x | x in s }

  lemma {:induction false} PopExact(k: Kernel, baseLoop: nat, names: seq<DmName>, cows: seq<nat>)
    requires Live(k) && Stacked(k, baseLoop, names, cows) && names != []
    ensures var n := |names| - 1;
            var k' := Pop(k, names[n], cows[n]);
            && k' == k.(dms := k.dms - {names[n]}, loops := k.loops - {cows[n]})
            && Live(k') && Stacked(k', baseLoop, names[..n], cows[..n])
  {
    var n := |names| - 1;
    var k' := k.(dms := k.dms - {names[n]}, loops := k.loops - {cows[n]});
    assert Link(k, baseLoop, names, cows, n);
    assert LoopUsers(k'.dms, cows[n]) == {};
    assert Pop(k, names[n], cows[n]) == k';
    forall a | a in k'.dms
      ensures LiveTable(k', a)
    {
      assert LiveTable(k, a);
      assert a !in LoopUsers(k.dms, cows[n]);
      assert a !in DmUsers(k.dms, names[n]);
    }
    forall i | 0 <= i < n
      ensures Link(k', baseLoop, names[..n], cows[..n], i)
    {
      assert Link(k, baseLoop, names, cows, i);
      assert cows[i] != cows[n];
      assert LoopUsers(k'.dms, cows[i]) == LoopUsers(k.dms, cows[i]) - {names[n]};
      assert DmUsers(k'.dms, names[i]) == DmUsers(k.dms, names[i]) - {names[n]};
    }
  }

  /** Teardown frees each device and each cow loop of the stack, once, and nothing else. */
  lemma {:induction false} TearDownExact(k: Kernel, baseLoop: nat, names: seq<DmName>, cows: seq<nat>)
    requires Live(k) && Stacked(k, baseLoop, names, cows)
    ensures TearDown(k, names, cows) == k.(dms := k.dms - SetOf(names), loops := k.loops - SetOf(cows))
    ensures Live(TearDown(k, names, cows))
    decreases |names|
  {
    if names == [] {
      assert k.dms - SetOf(names) == k.dms && k.loops - SetOf(cows) == k.loops;
    } else {
      var n := |names| - 1;
      PopExact(k, baseLoop, names, cows);
      TearDownExact(Pop(k, names[n], cows[n]), baseLoop, names[..n], cows[..n]);
      assert SetOf(names) == SetOf(names[..n]) + {names[n]};
      assert SetOf(cows) == SetOf(cows[..n]) + {cows[n]};
      assert k.dms - {names[n]} - SetOf(names[..n]) == k.dms - SetOf(names);
      assert k.loops - {cows[n]} - SetOf(cows[..n]) == k.loops - SetOf(cows);
    }
  }

  /** losetup of a cow file, then dmsetup create of a device over origin. */
  function Push(k: Kernel, path: Path, cow: nat, name: DmName, origin: Dev): Kernel {
    k.(loops := k.loops[cow := path], dms := k.dms[name := Table(origin, cow, k.serial)], serial := k.serial + 1)
  }

  function TopOf(baseLoop: nat, names: seq<DmName>): Dev {
    if names == [] then Loop(baseLoop) else Dm(names[|names| - 1])
  }

  ghost predicate Pushable(k: Kernel, cow: nat, name: DmName, origin: Dev) {
    && Live(k) && cow !in k.loops && name !in k.dms
    && match origin case Loop(n) => n in k.loops case Dm(m) => m in k.dms
  }

  lemma {:induction false} PushLive(k: Kernel, path: Path, cow: nat, name: DmName, origin: Dev)
    requires Pushable(k, cow, name, origin)
    ensures Live(Push(k, path, cow, name, origin))
    ensures LoopUsers(k.dms, cow) == {} == DmUsers(k.dms, name)
  {
    var k' := Push(k, path, cow, name, origin);
    forall a | a in k.dms
      ensures LiveTable(k', a) && a !in LoopUsers(k.dms, cow) && a !in DmUsers(k.dms, name)
    {
      assert LiveTable(k, a);
    }
    if origin.Dm? {
      assert LiveTable(k, origin.name);
    }
    assert LiveTable(k', name);
  }

  /** A new table adds itself to the users of its origin and of its cow, and to no others. */
  lemma {:induction false} PushLoopUsers(k: Kernel, path: Path, cow: nat, name: DmName, origin: Dev, n: nat)
    requires name !in k.dms
    ensures LoopUsers(Push(k, path, cow, name, origin).dms, n) ==
              LoopUsers(k.dms, n) + (if n == cow || origin == Loop(n) then {name} else {})
  {
  }

  lemma {:induction false} PushDmUsers(k: Kernel, path: Path, cow: nat, name: DmName, origin: Dev, m: DmName)
    requires name !in k.dms
    ensures DmUsers(Push(k, path, cow, name, origin).dms, m) ==
              DmUsers(k.dms, m) + (if origin == Dm(m) then {name} else {})
  {
  }

  /** Adding one more layer on top of a stack. */
  lemma {:induction false} PushExact(k: Kernel, baseLoop: nat, names: seq<DmName>, cows: seq<nat>, path: Path, cow: nat, name: DmName)
    requires Live(k) && Stacked(k, baseLoop, names, cows) && cow !in k.loops && name !in k.dms
    ensures var k' := Push(k, path, cow, name, TopOf(baseLoop, names));
            Live(k') && Stacked(k', baseLoop, names + [name], cows + [cow])
  {
    var n := |names|;
    var k' := Push(k, path, cow, name, TopOf(baseLoop, names));
    forall i | 0 <= i < n
      ensures names[i] in k.dms && cows[i] in k.loops
    {
      assert Link(k, baseLoop, names, cows, i);
    }
    PushLive(k, path, cow, name, TopOf(baseLoop, names));
    var names', cows' := names + [name], cows + [cow];
    forall i | 0 <= i < n + 1
      ensures Link(k', baseLoop, names', cows', i)
    {
      if i < n {
        assert Link(k, baseLoop, names, cows, i);
      }
      PushLoopUsers(k, path, cow, name, TopOf(baseLoop, names), cows'[i]);
      PushDmUsers(k, path, cow, name, TopOf(baseLoop, names), names'[i]);
    }
  }
}
