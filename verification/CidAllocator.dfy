/**
 Guest CID allocation: linear probing in uint32 arithmetic, and the provider's running
 and persisted CIDs over runs of create, restore and stop.
 */
module CidAllocator {
  import opened Wrappers

  type VmId = string

  const WORD: int := 0x1_0000_0000

  type U32 = x: int | 0 <= x < 0x1_0000_0000

  function Add(a: U32, b: U32): U32 { (a + b) % WORD }

  function Sub(a: U32, b: U32): U32 { (a - b) % WORD }

  /** Answer of the in-use callback. */
  datatype Probe = Free | Used | Broken

  /** The i-th CID probed from start, computed as the allocator computes it. */
  function Candidate(min: U32, size: U32, start: U32, i: U32): U32
    requires size > 0
  {
    Add(min, Add(Sub(start, min), i) % size)
  }

  // ------------------------------------------------------------------ the probe sequence

  lemma {:induction false} RemainderOfSmall(x: nat, size: nat)
    requires size > 0 && x < 2 * size
    ensures x % size == if x < size then x else x - size
  {
    if x >= size {
      assert x == size * 1 + (x - size);
    }
  }

  /** The i-th CID probed from start offset s. */
  function Nth(min: U32, size: U32, s: U32, i: U32): U32
    requires s < size && min + size <= WORD
  {
    Candidate(min, size, min + s, i)
  }

  /** Without uint32 wrap-around the probe walks up from s and once around. */
  lemma {:induction false} NthOffset(min: U32, size: U32, s: U32, i: U32)
    requires s < size && i < size && min + size <= WORD
    ensures s + i < WORD ==> Nth(min, size, s, i) == min + (if s + i < size then s + i else s + i - size)
    ensures s + i >= WORD ==> Nth(min, size, s, i) == min + s + i - WORD
  {
    RemainderOfSmall(s, WORD);
    assert Sub(min + s, min) == s;
    var sum := Add(s, i);
    RemainderOfSmall(s + i, WORD);
    RemainderOfSmall(sum, size);
    RemainderOfSmall(min + sum % size, WORD);
    assert Candidate(min, size, min + s, i) == Add(min, sum % size);
  }

  ghost predicate Probed(min: U32, size: U32, s: U32, c: int)
    requires s < size && min + size <= WORD
  {
    exists i: U32 :: i < size && Nth(min, size, s, i) == c
  }

  /** Every CID of the range is probed. */
  ghost predicate Covers(min: U32, size: U32, s: U32)
    requires s < size && min + size <= WORD
  {
    forall c :: min <= c < min + size ==> Probed(min, size, s, c)
  }

  /**
   The probe covers the range exactly when the start offset and the range size do not
   overflow together; then it visits no CID twice.
   */
  lemma {:induction false} CoversIff(min: U32, size: U32, s: U32)
    requires 3 <= min && s < size && min + size <= WORD
    ensures Covers(min, size, s) <==> s + size <= WORD
    ensures s + size <= WORD ==> forall i: U32, j: U32 :: i < j < size ==> Nth(min, size, s, i) != Nth(min, size, s, j)
    ensures size <= 0x8000_0000 ==> Covers(min, size, s)
  {
    if s + size <= WORD {
      forall c | min <= c < min + size
        ensures Probed(min, size, s, c)
      {
        var i: U32 := if c - min >= s then c - min - s else c - min + size - s;
        NthOffset(min, size, s, i);
      }
      forall i: U32, j: U32 | i < j < size
        ensures Nth(min, size, s, i) != Nth(min, size, s, j)
      {
        NthOffset(min, size, s, i);
        NthOffset(min, size, s, j);
      }
    } else {
      NeverProbed(min, size, s);
    }
  }

  /** On overflow the CID just below the start is never probed. */
  lemma {:induction false} NeverProbed(min: U32, size: U32, s: U32)
    requires 3 <= min && s < size && min + size <= WORD && s + size > WORD
    ensures s > 0 && !Probed(min, size, s, min + s - 1)
  {
    forall i: U32 | i < size
      ensures Nth(min, size, s, i) != min + s - 1
    {
      NthOffset(min, size, s, i);
    }
  }

  // ------------------------------------------------------------------ allocation

  function Offset(hash: U32, size: U32): (s: U32)
    requires size > 0
    ensures s < size
  {
    hash % size
  }

  ghost predicate NeverBroken(inUse: U32 -> Probe) {
    forall c: U32 :: inUse(c) != Broken
  }

  ghost predicate AllProbedUsed(inUse: U32 -> Probe, min: U32, size: U32, s: U32)
    requires s < size && min + size <= WORD
  {
    forall i: U32 :: i < size ==> inUse(Nth(min, size, s, i)) == Used
  }

  /** The first free CID in probing order; an error only if a check fails or all probed are used. */
  method AllocateDeterministicCID(vmId: VmId, min: U32, max: U32, hash: U32, inUse: Option<U32 -> Probe>) returns (r: Result<U32>)
    ensures vmId == "" || min < 3 || max < min || inUse.None? ==> r.Err?
    ensures r.Ok? ==> 3 <= min <= r.value <= max && inUse.Some? && inUse.value(r.value) == Free
    ensures r.Ok? ==> var size := max - min + 1;
                      exists n: U32 :: n < size && Nth(min, size, Offset(hash, size), n) == r.value
                        && forall i: U32 :: i < n ==> inUse.value(Nth(min, size, Offset(hash, size), i)) == Used
    ensures vmId != "" && 3 <= min <= max && inUse.Some? && inUse.value(min + hash % (max - min + 1)) == Free ==>
              r == Ok(min + hash % (max - min + 1))
    ensures vmId != "" && 3 <= min <= max && inUse.Some? && r.Err? && NeverBroken(inUse.value) ==>
              AllProbedUsed(inUse.value, min, max - min + 1, Offset(hash, max - min + 1))
  {
    if vmId == "" || min < 3 || max < min || inUse.None? { return Err; }
    var size: U32 := max - min + 1;
    var start: U32 := min + Offset(hash, size);
    ghost var s := Offset(hash, size);
    NthOffset(min, size, s, 0);
    assert Nth(min, size, s, 0) == min + hash % size;
    var i: U32 := 0;
    while i < size
      invariant i <= size
      invariant forall j: U32 :: j < i ==> inUse.value(Nth(min, size, s, j)) == Used
    {
      var candidate := Candidate(min, size, start, i);
      NthOffset(min, size, s, i);
      assert candidate == Nth(min, size, s, i);
      match inUse.value(candidate) {
        case Broken => return Err;
        case Free => return Ok(candidate);
        case Used =>
      }
      i := i + 1;
    }
    r := Err;
  }

  ghost predicate AllProbedTaken(min: U32, size: U32, s: U32, taken: set<U32>)
    requires s < size && min + size <= WORD
  {
    forall i: U32 :: i < size ==> Nth(min, size, s, i) in taken
  }

  predicate InSpan(min: U32, max: U32, c: U32) { min <= c <= max }

  ghost predicate AllTaken(min: U32, max: U32, taken: set<U32>) {
    forall c: U32 :: min <= c <= max ==> c in taken
  }

  /**
   Finding everything probed taken means that the range is full, for every set of taken
   CIDs, if and only if the start offset and the range size do not overflow.
   */
  lemma {:induction false} ExhaustedMeansFullIff(min: U32, max: U32, s: U32)
    requires 3 <= min <= max && s < max - min + 1
    ensures s + (max - min + 1) <= WORD <==>
              forall taken: set<U32> :: AllProbedTaken(min, max - min + 1, s, taken) ==> AllTaken(min, max, taken)
  {
    var size := max - min + 1;
    CoversIff(min, size, s);
    if s + size <= WORD {
      forall taken: set<U32> | AllProbedTaken(min, size, s, taken)
        ensures AllTaken(min, max, taken)
      {
        forall c: U32 | min <= c <= max
          ensures c in taken
        {
          assert Probed(min, size, s, c);
        }
      }
    } else {
      NeverProbed(min, size, s);
      var missed: U32 := min + s - 1;
      var taken := set c: U32 | InSpan(min, max, c) && c != missed;
      forall i: U32 | i < size
        ensures Nth(min, size, s, i) in taken
      {
        NthOffset(min, size, s, i);
        assert InSpan(min, max, Nth(min, size, s, i));
      }
      assert AllProbedTaken(min, size, s, taken) && missed !in taken;
      assert !AllTaken(min, max, taken);
    }
  }

  /** In particular for ranges of at most 2^31 CIDs, in terms of the callback. */
  lemma {:induction false} ExhaustedMeansFull(min: U32, max: U32, s: U32, inUse: U32 -> Probe)
    requires 3 <= min <= max && max - min < 0x8000_0000 && s < max - min + 1
    requires AllProbedUsed(inUse, min, max - min + 1, s)
    ensures forall c: U32 :: min <= c <= max ==> inUse(c) == Used
  {
    var size := max - min + 1;
    CoversIff(min, size, s);
    forall c: U32 | min <= c <= max
      ensures inUse(c) == Used
    {
      assert Probed(min, size, s, c);
      var i: U32 :| i < size && Nth(min, size, s, i) == c;
      assert inUse(Nth(min, size, s, i)) == Used;
    }
  }

  // ------------------------------------------------------------------ runs

  /** CIDs of tracked VMs, and the guest.cid files. */
  datatype Cids = Cids(running: map<VmId, U32>, files: map<VmId, U32>)

  ghost predicate Has(s: Cids, vm: VmId, c: U32) {
    (vm in s.running && s.running[vm] == c) || (vm in s.files && s.files[vm] == c)
  }

  /** No two VMs have one nonzero CID, running or persisted. */
  ghost predicate Distinct(s: Cids) {
    forall a, b, c {:trigger Has(s, a, c), Has(s, b, c)} :: c != 0 && Has(s, a, c) && Has(s, b, c) ==> a == b
  }

  /** resolveGuestCID's condition on the CID it returns. */
  ghost predicate Available(s: Cids, vm: VmId, c: U32) {
    c != 0 && forall other :: other != vm ==> !Has(s, other, c)
  }

  datatype Step =
    | Start(vm: VmId, cid: U32, wipes: bool, persistOk: bool, startOk: bool, releaseOk: bool)
    | Halt(vm: VmId, releaseOk: bool)

  /** Create wipes the VM directory on failure; restore only releases the CID file. */
  function Apply(s: Cids, step: Step): Cids {
    match step
    case Start(vm, cid, wipes, persistOk, startOk, releaseOk) =>
      if !persistOk then (if wipes then s.(files := s.files - {vm}) else s)
      else if startOk then Cids(s.running[vm := cid], s.files[vm := cid])
      else if wipes || releaseOk then s.(files := s.files - {vm})
      else s.(files := s.files[vm := cid])
    case Halt(vm, releaseOk) =>
      Cids(s.running - {vm}, if releaseOk then s.files - {vm} else s.files)
  }

  /** A CID that gets as far as the file was resolved; persistOk is also false when none could be. */
  ghost predicate Allowed(s: Cids, step: Step) {
    step.Start? && step.persistOk ==> Available(s, step.vm, step.cid)
  }

  ghost predicate ValidRun(s: Cids, steps: seq<Step>)
    decreases |steps|
  {
    steps == [] || (Allowed(s, steps[0]) && ValidRun(Apply(s, steps[0]), steps[1..]))
  }

  ghost function Run(s: Cids, steps: seq<Step>): Cids
    decreases |steps|
  {
    if steps == [] then s else Run(Apply(s, steps[0]), steps[1..])
  }

  lemma {:induction false} StepKeepsDistinct(s: Cids, step: Step)
    requires Distinct(s) && Allowed(s, step)
    ensures Distinct(Apply(s, step))
  {
    var s' := Apply(s, step);
    forall a, b, c | c != 0 && Has(s', a, c) && Has(s', b, c)
      ensures a == b
    {
      assert Has(s', a, c) ==> Has(s, a, c) || (step.Start? && step.persistOk && a == step.vm && c == step.cid);
      assert Has(s', b, c) ==> Has(s, b, c) || (step.Start? && step.persistOk && b == step.vm && c == step.cid);
    }
  }

  /** Over every sequential run of creates, restores and stops, CIDs stay distinct. */
  lemma {:induction false} EveryRunIsDistinct(s: Cids, steps: seq<Step>)
    requires Distinct(s) && ValidRun(s, steps)
    ensures Distinct(Run(s, steps))
    decreases |steps|
  {
    if steps != [] {
      StepKeepsDistinct(s, steps[0]);
      EveryRunIsDistinct(Apply(s, steps[0]), steps[1..]);
    }
  }

  predicate Succeeds(step: Step) { step.Start? && step.persistOk && step.startOk }

  /** The step stops the VM, or starts it over. */
  predicate Disturbs(step: Step, vm: VmId) { step.vm == vm && (step.Halt? || Succeeds(step)) }

  /** A VM that runs with a CID keeps it from every later start of another. */
  lemma {:induction false} LaterStartDiffers(s: Cids, steps: seq<Step>, j: nat, vm: VmId, cid: U32)
    requires vm in s.running && s.running[vm] == cid && ValidRun(s, steps)
    requires j < |steps| && Succeeds(steps[j]) && steps[j].vm != vm && forall k :: 0 <= k < j ==> !Disturbs(steps[k], vm)
    ensures steps[j].cid != cid
    decreases j
  {
    if j == 0 {
      assert Has(s, vm, cid);
    } else {
      assert !Disturbs(steps[0], vm);
      assert forall k :: 0 <= k < j - 1 ==> steps[1..][k] == steps[k + 1];
      LaterStartDiffers(Apply(s, steps[0]), steps[1..], j - 1, vm, cid);
    }
  }

  /**
   Over every run: two successful starts of different VMs, the first neither stopped nor started
   over in between, got different CIDs.
   */
  lemma {:induction false} EveryRunStartsApart(s: Cids, steps: seq<Step>, i: nat, j: nat)
    requires ValidRun(s, steps) && i < j < |steps| && Succeeds(steps[i]) && Succeeds(steps[j]) && steps[i].vm != steps[j].vm
    requires forall k :: i < k < j ==> !Disturbs(steps[k], steps[i].vm)
    ensures steps[i].cid != steps[j].cid
    decreases i
  {
    assert forall k :: 0 <= k < |steps| - 1 ==> steps[1..][k] == steps[k + 1];
    if i == 0 {
      LaterStartDiffers(Apply(s, steps[0]), steps[1..], j - 1, steps[0].vm, steps[0].cid);
    } else {
      EveryRunStartsApart(Apply(s, steps[0]), steps[1..], i - 1, j - 1);
    }
  }

  class Provider {
    const cidMin: U32
    const cidMax: U32
    var running: map<VmId, U32>
    var files: map<VmId, U32>

    ghost function State(): Cids
      reads this
    {
      Cids(running, files)
    }

    constructor (cidMin: U32, cidMax: U32)
      ensures State() == Cids(map[], map[]) && Distinct(State())
      ensures this.cidMin == cidMin && this.cidMax == cidMax
    {
      this.cidMin, this.cidMax := cidMin, cidMax;
      running, files := map[], map[];
    }

    /** The CIDs in the other VMs' guest.cid files. */
    method LoadPersistedGuestCIDs(exclude: VmId) returns (used: set<U32>)
      ensures forall c :: c in used <==> c != 0 && exists vm :: vm in files && vm != exclude && files[vm] == c
    {
      used := {};
      var rest := files.Keys;
      while rest != {}
        invariant rest <= files.Keys
        invariant forall c :: c in used ==> c != 0 && exists vm :: vm in files && vm != exclude && files[vm] == c
        invariant forall vm :: vm in files && vm !in rest && vm != exclude && files[vm] != 0 ==> files[vm] in used
        decreases |rest|
      {
        var vm :| vm in rest;
        if vm != exclude && files[vm] > 0 { used := used + {files[vm]}; }
        rest := rest - {vm};
      }
    }

    /** A CID no other VM has, running or persisted. */
    method ResolveGuestCID(vm: VmId, requested: U32, hash: U32, scanOk: bool) returns (r: Result<U32>)
      ensures r.Ok? ==> Available(State(), vm, r.value)
      ensures r.Ok? ==> r.value != 0 && forall x :: x != vm ==> (x in running ==> running[x] != r.value) && (x in files ==> files[x] != r.value)
      ensures scanOk && requested > 0 && (forall x :: x != vm ==> (x in running ==> running[x] != requested) && (x in files ==> files[x] != requested)) ==>
                r == Ok(requested)
      ensures r.Ok? && requested > 0 ==> r.value == requested
      ensures scanOk && requested > 0 && Available(State(), vm, requested) ==> r == Ok(requested)
      ensures (scanOk && requested == 0 && vm != "" && 3 <= cidMin <= cidMax && cidMax - cidMin < 0x8000_0000
               && exists c: U32 :: cidMin <= c <= cidMax && Available(State(), vm, c)) ==> r.Ok?
    {
      if !scanOk { return Err; }
      var persisted := LoadPersistedGuestCIDs(vm);
      var others := set v | v in running && v != vm :: running[v];
      var inUse := (c: U32) => if c in others || c in persisted then Used else Free;
      forall c: U32 | c != 0
        ensures inUse(c) == Free <==> Available(State(), vm, c)
      {
        if c in others {
          var v :| v in running && v != vm && running[v] == c;
          assert Has(State(), v, c);
        }
        if c in persisted {
          var v :| v in files && v != vm && files[v] == c;
          assert Has(State(), v, c);
        }
      }
      if requested > 0 {
        if inUse(requested).Used? { return Err; }
        return Ok(requested);
      }
      assert NeverBroken(inUse);
      r := AllocateDeterministicCID(vm, cidMin, cidMax, hash, Some(inUse));
      if r.Err? && vm != "" && 3 <= cidMin <= cidMax && cidMax - cidMin < 0x8000_0000 {
        ExhaustedMeansFull(cidMin, cidMax, Offset(hash, cidMax - cidMin + 1), inUse);
      }
    }

    /** The CID part of Create (wipes) and of RestoreFromSnapshot. */
    method StartVm(vm: VmId, requested: U32, hash: U32, wipes: bool, scanOk: bool, persistOk: bool, startOk: bool, releaseOk: bool)
      returns (r: Result<U32>, ghost step: Step)
      modifies this
      ensures step.Start? && step.vm == vm && Allowed(old(State()), step) && State() == Apply(old(State()), step)
      ensures r.Ok? <==> Succeeds(step)
      ensures r.Ok? ==> step.cid == r.value && Available(old(State()), vm, r.value)
      ensures r.Ok? ==> vm in running && running[vm] == r.value && vm in files && files[vm] == r.value
      ensures r.Err? ==> running == old(running) && (wipes ==> vm !in files)
      ensures forall x :: x != vm ==> (x in running <==> x in old(running)) && (x in running ==> running[x] == old(running)[x])
                                      && (x in files <==> x in old(files)) && (x in files ==> files[x] == old(files)[x])
      ensures old(Distinct(State())) ==> Distinct(State())
    {
      r := ResolveGuestCID(vm, requested, hash, scanOk);
      if r.Err? || !persistOk {
        step := Start(vm, 0, wipes, false, startOk, releaseOk);
        if old(Distinct(State())) {
          StepKeepsDistinct(State(), step);
        }
        if wipes { files := files - {vm}; }
        return Err, step;
      }
      step := Start(vm, r.value, wipes, true, startOk, releaseOk);
      if old(Distinct(State())) {
        StepKeepsDistinct(State(), step);
      }
      files := files[vm := r.value];
      if !startOk {
        if wipes || releaseOk {
          assert files - {vm} == old(files) - {vm};
          files := files - {vm};
        }
        return Err, step;
      }
      running := running[vm := r.value];
    }

    /** A VM that is not tracked is an error and keeps its file. */
    method StopVm(vm: VmId, releaseOk: bool) returns (ok: bool)
      modifies this
      ensures ok <==> vm in old(running)
      ensures State() == if ok then Apply(old(State()), Halt(vm, releaseOk)) else old(State())
      ensures ok ==> running == old(running) - {vm} && files == (if releaseOk then old(files) - {vm} else old(files))
      ensures old(Distinct(State())) ==> Distinct(State())
    {
      if vm !in running { return false; }
      if old(Distinct(State())) {
        StepKeepsDistinct(State(), Halt(vm, releaseOk));
      }
      running := running - {vm};
      if releaseOk { files := files - {vm}; }
      ok := true;
    }
  }
}
