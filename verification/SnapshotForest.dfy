/**
 The snapshot table of the VM service: rows linked by their parent, how a new row is
 planned, how a restore walks from a leaf to its full root, and what pruning keeps.
 */
module SnapshotForest {
  import opened Wrappers

  type SnapshotId = string
  type VmId = string

  datatype Kind = Full | Incremental

  /** disk_snapshot_type, and the configured disk mode it comes from. */
  datatype DiskMode = FullDisk | SelfContained | IncrementalDisk | OtherDisk

  datatype Snapshot = Snapshot(id: SnapshotId, vm: VmId, parent: Option<SnapshotId>, kind: Kind,
                               disk: DiskMode, chainLength: nat, createdAt: nat)

  type Table = map<SnapshotId, Snapshot>

  datatype Config = Config(mode: DiskMode, maxChain: nat)

  /** NewService defaults: an unset mode is self-contained, a non-positive bound is five. */
  function NewConfig(mode: Option<DiskMode>, maxChain: int): (c: Config)
    ensures 0 < c.maxChain && (maxChain > 0 ==> c.maxChain == maxChain) && (maxChain <= 0 ==> c.maxChain == 5)
    ensures match mode case None => c.mode.SelfContained? case Some(m) => c.mode == m
  {
    Config(if mode.None? then SelfContained else mode.value, if maxChain <= 0 then 5 else maxChain)
  }

  // ------------------------------------------------------------------ planning a row

  function ShouldCreateFullDisk(cfg: Config, previous: Option<Snapshot>, tooOld: bool): bool {
    match cfg.mode
    case IncrementalDisk =>
      previous.None? || previous.value.chainLength + 1 >= cfg.maxChain || tooOld
    case _ => true
  }

  function ResolveChainLength(previous: Option<Snapshot>, disk: DiskMode): nat {
    if !disk.IncrementalDisk? || previous.None? then 0 else previous.value.chainLength + 1
  }

  /** The row CreateSnapshot records after the newest snapshot of the same VM. */
  function NewSnapshot(cfg: Config, previous: Option<Snapshot>, id: SnapshotId, vm: VmId,
                       diffEnabled: bool, tooOld: bool, now: nat): Snapshot
  {
    var incremental := diffEnabled && previous.Some?;
    var fullDisk := ShouldCreateFullDisk(cfg, previous, tooOld);
    var disk := if cfg.mode.IncrementalDisk? && fullDisk then FullDisk else cfg.mode;
    Snapshot(id, vm,
             if incremental then Some(previous.value.id) else None,
             if incremental then Incremental else Full,
             disk, ResolveChainLength(previous, disk), now)
  }

  // ------------------------------------------------------------------ newest first

  function OfVm(t: Table, vm: VmId): set<SnapshotId> {
    set id | id in t && t[id].vm == vm
  }

  ghost predicate IsNewest(t: Table, ids: set<SnapshotId>, n: SnapshotId)
    requires ids <= t.Keys
  {
    n in ids && forall m :: m in ids ==> t[m].createdAt <= t[n].createdAt
  }

  lemma {:induction false} NewestExists(t: Table, ids: set<SnapshotId>)
    requires ids != {} && ids <= t.Keys
    ensures exists n :: IsNewest(t, ids, n)
    decreases |ids|
  {
    var a :| a in ids;
    var rest := ids - {a};
    if rest == {} {
      assert ids == {a};
      assert IsNewest(t, ids, a);
    } else {
      NewestExists(t, rest);
      var b :| IsNewest(t, rest, b);
      assert IsNewest(t, ids, if t[a].createdAt <= t[b].createdAt then b else a);
    }
  }

  ghost function Newest(t: Table, ids: set<SnapshotId>): (n: SnapshotId)
    requires ids != {} && ids <= t.Keys
    ensures IsNewest(t, ids, n)
  {
    NewestExists(t, ids);
    var n :| IsNewest(t, ids, n);
    n
  }

  ghost function Latest(t: Table, vm: VmId): Option<Snapshot> {
    if OfVm(t, vm) == {} then None else Some(t[Newest(t, OfVm(t, vm))])
  }

  lemma {:induction false} LatestIs(t: Table, vm: VmId, n: SnapshotId)
    requires DistinctTimes(t) && n in t && t[n].vm == vm && forall m :: m in OfVm(t, vm) ==> t[m].createdAt <= t[n].createdAt
    ensures Latest(t, vm) == Some(t[n])
  {
    assert n in OfVm(t, vm);
    var m := Newest(t, OfVm(t, vm));
    assert Time(t, m) == Time(t, n);
  }

  /** The rows of one VM, newest first, as GetByVMID lists them. */
  ghost predicate IsListing(t: Table, vm: VmId, list: seq<SnapshotId>) {
    && (forall k :: 0 <= k < |list| ==> list[k] in OfVm(t, vm))
    && (forall id :: id in OfVm(t, vm) ==> id in list)
    && (forall k, l :: 0 <= k < l < |list| ==> list[k] in t && list[l] in t && t[list[k]].createdAt > t[list[l]].createdAt)
  }

  // ------------------------------------------------------------------ the invariant

  ghost predicate Row(cfg: Config, t: Table, clock: nat, id: SnapshotId)
    requires id in t
  {
    var s := t[id];
    && s.id == id
    && s.createdAt < clock
    && s.chainLength < cfg.maxChain
    && (s.kind.Full? <==> s.parent.None?)
    && (s.parent.Some? ==> s.parent.value in t && t[s.parent.value].vm == s.vm
                           && t[s.parent.value].createdAt < s.createdAt)
  }

  ghost function Time(t: Table, id: SnapshotId): nat
    requires id in t
  {
    t[id].createdAt
  }

  ghost predicate DistinctTimes(t: Table) {
    forall a, b {:trigger Time(t, a), Time(t, b)} :: a in t && b in t && Time(t, a) == Time(t, b) ==> a == b
  }

  ghost predicate Forest(cfg: Config, t: Table, clock: nat) {
    && (forall id {:trigger Row(cfg, t, clock, id)} :: id in t ==> Row(cfg, t, clock, id))
    && DistinctTimes(t)
  }

  /** Recorded parents are older: all that the chain walks need in order to stop. */
  ghost predicate Acyclic(t: Table) {
    forall id {:trigger OlderParent(t, t[id])} :: id in t ==> OlderParent(t, t[id])
  }

  ghost predicate OlderParent(t: Table, s: Snapshot) {
    s.parent.Some? && s.parent.value in t ==> t[s.parent.value].createdAt < s.createdAt
  }

  ghost predicate HasChildren(t: Table, id: SnapshotId)
    requires id in t
  {
    exists c :: c in OfVm(t, t[id].vm) && t[c].parent == Some(id)
  }

  /** A recorded row that no other row of its VM names as parent. */
  ghost predicate Deletable(t: Table, id: SnapshotId) { id in t && !HasChildren(t, id) }

  lemma {:induction false} ForestAfterCreate(cfg: Config, t: Table, clock: nat, id: SnapshotId, vm: VmId, diffEnabled: bool, tooOld: bool)
    requires Forest(cfg, t, clock) && id !in t && 0 < cfg.maxChain
    ensures Forest(cfg, t[id := NewSnapshot(cfg, Latest(t, vm), id, vm, diffEnabled, tooOld, clock)], clock + 1)
  {
    var previous := Latest(t, vm);
    var s := NewSnapshot(cfg, previous, id, vm, diffEnabled, tooOld, clock);
    var t' := t[id := s];
    if previous.Some? {
      assert Row(cfg, t, clock, Newest(t, OfVm(t, vm)));
    }
    forall x | x in t'
      ensures Row(cfg, t', clock + 1, x)
    {
      if x != id {
        assert Row(cfg, t, clock, x);
      }
    }
    forall a, b | a in t' && b in t' && Time(t', a) == Time(t', b)
      ensures a == b
    {
      if a != id && b != id {
        assert Time(t, a) == Time(t, b);
      } else {
        assert a in t ==> Row(cfg, t, clock, a);
        assert b in t ==> Row(cfg, t, clock, b);
      }
    }
  }

  lemma {:induction false} ForestAfterDelete(cfg: Config, t: Table, clock: nat, id: SnapshotId)
    requires Forest(cfg, t, clock) && id in t && !HasChildren(t, id)
    ensures Forest(cfg, t - {id}, clock)
  {
    forall x | x in t - {id}
      ensures Row(cfg, t - {id}, clock, x)
    {
      assert Row(cfg, t, clock, x);
      assert x in OfVm(t, t[x].vm);
    }
    TimesOfSubset(t, t - {id});
  }

  lemma {:induction false} TimesOfSubset(t: Table, t': Table)
    requires DistinctTimes(t) && forall x :: x in t' ==> x in t && t'[x] == t[x]
    ensures DistinctTimes(t')
  {
    forall a, b | a in t' && b in t' && Time(t', a) == Time(t', b)
      ensures a == b
    {
      assert Time(t, a) == Time(t, b);
    }
  }

  lemma {:induction false} ForestIsAcyclic(cfg: Config, t: Table, clock: nat)
    requires Forest(cfg, t, clock)
    ensures Acyclic(t)
  {
    forall id | id in t
      ensures OlderParent(t, t[id])
    {
      assert Row(cfg, t, clock, id);
    }
  }

  // ------------------------------------------------------------------ chains

  /** s and its recorded ancestors, leaf first. */
  ghost function ChainOf(t: Table, s: Snapshot): (c: seq<Snapshot>)
    requires Acyclic(t) && OlderParent(t, s)
    ensures |c| > 0 && c[0] == s
    decreases s.createdAt
  {
    [s] + (if s.parent.Some? && s.parent.value in t
           then assert OlderParent(t, t[s.parent.value]); ChainOf(t, t[s.parent.value]) else [])
  }

  /** The walk of resolveCowChain, leaf first: stops at a full parent, fails on a missing one. */
  ghost function Walk(t: Table, s: Snapshot): (c: Option<seq<Snapshot>>)
    requires Acyclic(t) && OlderParent(t, s)
    ensures c.Some? && s.parent.Some? ==> |c.value| >= 2
    decreases s.createdAt
  {
    if s.parent.None? then Some([s])
    else if s.parent.value !in t then None
    else
      var p := t[s.parent.value];
      if p.kind.Full? then Some([s, p])
      else
        assert OlderParent(t, t[s.parent.value]);
        match Walk(t, p)
        case None => None
        case Some(c) => Some([s] + c)
  }

  /** A leaf-first chain: incrementals, each the child of the next, down to one full root. */
  ghost predicate WellFormedChain(c: seq<Snapshot>) {
    && |c| > 0
    && c[|c| - 1].kind.Full? && c[|c| - 1].parent.None?
    && (forall k :: 0 <= k < |c| - 1 ==> c[k].kind.Incremental? && c[k].parent == Some(c[k + 1].id))
  }

  lemma {:induction false} ChainShape(cfg: Config, t: Table, clock: nat, s: Snapshot)
    requires Forest(cfg, t, clock) && Acyclic(t) && s.id in t && t[s.id] == s && OlderParent(t, s)
    ensures WellFormedChain(ChainOf(t, s))
    ensures forall k :: 0 <= k < |ChainOf(t, s)| ==>
              ChainOf(t, s)[k].id in t && t[ChainOf(t, s)[k].id] == ChainOf(t, s)[k]
              && ChainOf(t, s)[k].vm == s.vm && ChainOf(t, s)[k].createdAt <= s.createdAt
    ensures Walk(t, s) == Some(ChainOf(t, s))
    decreases s.createdAt
  {
    assert Row(cfg, t, clock, s.id);
    if s.parent.Some? {
      var p := t[s.parent.value];
      assert Row(cfg, t, clock, s.parent.value);
      assert OlderParent(t, t[s.parent.value]);
      ChainShape(cfg, t, clock, p);
      var c, d := ChainOf(t, s), ChainOf(t, p);
      assert c == [s] + d;
      assert forall k :: 1 <= k < |c| ==> c[k] == d[k - 1];
      if p.kind.Full? {
        assert d == [p];
        assert c == [s, p];
      }
    } else {
      assert ChainOf(t, s) == [s];
    }
  }

  /**
   Every incremental row of a forest resolves: to one full root followed, towards the
   leaf, only by incrementals, at least two members in all.
   */
  lemma {:induction false} IncrementalResolves(cfg: Config, t: Table, clock: nat, id: SnapshotId)
    requires Forest(cfg, t, clock) && Acyclic(t) && id in t && t[id].kind.Incremental? && OlderParent(t, t[id])
    ensures Walk(t, t[id]).Some?
    ensures var c := Walk(t, t[id]).value;
            |c| >= 2 && c[0] == t[id] && WellFormedChain(c)
            && forall k :: 0 <= k < |c| ==> c[k].id in t && t[c[k].id] == c[k] && c[k].vm == t[id].vm
  {
    assert Row(cfg, t, clock, id);
    ChainShape(cfg, t, clock, t[id]);
  }

  /** Removing rows outside a chain does not change it. */
  lemma {:induction false} ChainSurvives(t: Table, t': Table, s: Snapshot)
    requires Acyclic(t) && Acyclic(t') && OlderParent(t, s) && OlderParent(t', s)
    requires forall x :: x in t' ==> x in t && t'[x] == t[x]
    requires forall k :: 1 <= k < |ChainOf(t, s)| ==> ChainOf(t, s)[k].id in t'
    requires forall x :: x in t ==> t[x].id == x
    ensures ChainOf(t', s) == ChainOf(t, s) && Walk(t', s) == Walk(t, s)
    decreases s.createdAt
  {
    if s.parent.Some? && s.parent.value in t {
      var p := t[s.parent.value];
      var c, d := ChainOf(t, s), ChainOf(t, p);
      assert OlderParent(t, t[s.parent.value]);
      assert c == [s] + d;
      assert c[1] == p;
      assert OlderParent(t', t'[p.id]);
      assert forall k :: 1 <= k < |d| ==> d[k] == c[k + 1];
      ChainSurvives(t, t', p);
    }
  }

  // ------------------------------------------------------------------ garbage collection

  ghost predicate InChain(t: Table, s: Snapshot, id: SnapshotId)
    requires Acyclic(t) && OlderParent(t, s)
  {
    exists k :: 0 <= k < |ChainOf(t, s)| && ChainOf(t, s)[k].id == id
  }

  /** What GC for vm around row latest keeps: other VMs, and latest with its ancestors. */
  ghost function Kept(t: Table, vm: VmId, latest: Snapshot): Table
    requires Acyclic(t) && OlderParent(t, latest)
  {
    map id | id in t && (t[id].vm != vm || InChain(t, latest, id)) :: t[id]
  }

  lemma {:induction false} InChainParent(t: Table, s: Snapshot, c: SnapshotId)
    requires Acyclic(t) && OlderParent(t, s) && InChain(t, s, c)
    requires forall x :: x in t ==> t[x].id == x
    requires s.id in t && t[s.id] == s
    requires c in t && t[c].parent.Some? && t[c].parent.value in t
    ensures InChain(t, s, t[c].parent.value)
    decreases s.createdAt
  {
    var k :| 0 <= k < |ChainOf(t, s)| && ChainOf(t, s)[k].id == c;
    if s.parent.Some? && s.parent.value in t {
      var p := t[s.parent.value];
      assert OlderParent(t, t[s.parent.value]);
      var d := ChainOf(t, p);
      assert ChainOf(t, s) == [s] + d;
      if k == 0 {
        assert c == s.id;
        assert ChainOf(t, s)[1].id == p.id;
      } else {
        assert d[k - 1].id == c;
        InChainParent(t, p, c);
        var j :| 0 <= j < |d| && d[j].id == t[c].parent.value;
        assert ChainOf(t, s)[j + 1] == d[j];
      }
    }
  }

  /** GC keeps a restorable latest: the forest stays one, and the resolved chain is the same. */
  lemma {:induction false} KeptRestoresTheSame(cfg: Config, t: Table, clock: nat, latest: Snapshot)
    requires Forest(cfg, t, clock) && Acyclic(t) && OlderParent(t, latest)
    requires latest.id in t && t[latest.id] == latest
    ensures var t' := Kept(t, latest.vm, latest);
            && Forest(cfg, t', clock) && Acyclic(t') && OlderParent(t', latest)
            && latest.id in t' && t'[latest.id] == latest
            && ChainOf(t', latest) == ChainOf(t, latest)
            && Walk(t', latest) == Walk(t, latest)
            && (forall id :: id in OfVm(t', latest.vm) <==> InChain(t, latest, id))
  {
    var vm := latest.vm;
    var t' := Kept(t, vm, latest);
    ChainShape(cfg, t, clock, latest);
    assert forall x :: x in t ==> Row(cfg, t, clock, x);
    forall x | x in t'
      ensures Row(cfg, t', clock, x)
    {
      assert Row(cfg, t, clock, x);
      if t[x].parent.Some? {
        assert Row(cfg, t, clock, t[x].parent.value);
        if t[x].vm == vm {
          InChainParent(t, latest, x);
        }
      }
    }
    TimesOfSubset(t, t');
    ForestIsAcyclic(cfg, t', clock);
    forall k | 0 <= k < |ChainOf(t, latest)|
      ensures ChainOf(t, latest)[k].id in t'
    {
      assert InChain(t, latest, ChainOf(t, latest)[k].id);
    }
    assert ChainOf(t, latest)[0].id in t';
    ChainSurvives(t, t', latest);
  }

  /**
   Why the id handed to GC must be the newest: collecting around any recorded row of the
   VM keeps that VM's newest snapshot exactly when the row is the newest one.
   */
  lemma {:induction false} GcKeepsNewestIff(cfg: Config, t: Table, clock: nat, around: SnapshotId, newest: SnapshotId)
    requires Forest(cfg, t, clock) && Acyclic(t) && around in t && OlderParent(t, t[around])
    requires IsNewest(t, OfVm(t, t[around].vm), newest)
    ensures newest in Kept(t, t[around].vm, t[around]) <==> around == newest
  {
    assert Row(cfg, t, clock, around) && Row(cfg, t, clock, newest);
    ChainShape(cfg, t, clock, t[around]);
    var c := ChainOf(t, t[around]);
    if around == newest {
      assert c[0].id == newest;
      assert InChain(t, t[around], newest);
    } else {
      assert around in OfVm(t, t[around].vm);
      forall k | 0 <= k < |c|
        ensures c[k].id != newest
      {
        assert Time(t, around) != Time(t, newest);
      }
    }
  }

  function Reverse<T>(s: seq<T>): (r: seq<T>)
    ensures |r| == |s| && forall k :: 0 <= k < |s| ==> r[k] == s[|s| - 1 - k]
  {
    seq(|s|, k requires 0 <= k < |s| => s[|s| - 1 - k])
  }
}
