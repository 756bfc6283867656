/**
 VM rows, leases and addresses under the lifecycle operations of the VM service. Every
 step carries which of its calls failed, so runs range over all failure patterns.
 */
module Lifecycle {
  import opened Wrappers
  import opened IpAllocator

  type VmId = string
  type ChatId = string

  datatype Status = Provisioning | Ready | Running | Idle | Terminated

  datatype Row = Row(status: Status, chat: Option<ChatId>, ip: Option<Ip>) {
    predicate IsActive() { status.Running? || status.Ready? }

    /** What the reaper and the reconciler may list: active rows, in Postgres idle ones too. */
    predicate IsListed() { IsActive() || status.Idle? }

    predicate IsAvailable() { (status.Ready? || status.Running? || status.Idle?) && chat.None? }

    function AssignTo(c: ChatId): Row { this.(chat := Some(c), status := Running) }

    function Unassign(): Row { this.(chat := None, status := Idle) }

    function Terminate(): Row { this.(chat := None, status := Terminated) }
  }

  /** The VM table and the active lease of each VM. */
  datatype Fleet = Fleet(rows: map<VmId, Row>, leases: map<VmId, ChatId>)

  const EMPTY := Fleet(map[], map[])

  datatype CreateOutcome = Done(updateOk: bool) | Failed(releaseOk: bool, updateOk: bool)

  datatype ResumeOutcome = NoSnapshot | EarlyFailure | LateFailure | Restored(updateOk: bool)

  /** ip is the address the allocator returned, if the step allocated one. */
  datatype Step =
    | Create(id: VmId, ip: Option<Ip>, created: CreateOutcome)
    | CreateWithoutIp(id: VmId, updateOk: bool)
    | Assign(id: VmId, chat: ChatId)
    | Unassign(id: VmId, leaseOk: bool, updateOk: bool)
    | Stop(id: VmId, backendOk: bool, leaseOk: bool, updateOk: bool)
    | Destroy(id: VmId, backendOk: bool, leaseOk: bool, releaseOk: bool, updateOk: bool, deleteOk: bool)
    | Resume(id: VmId, wanted: Option<ChatId>, ip: Option<Ip>, resumed: ResumeOutcome)
    | Reap(id: VmId, stopped: bool, leaseOk: bool, updateOk: bool)
    | LoseRuntime(id: VmId, updateOk: bool)
    | Refresh(id: VmId, gone: bool, updateOk: bool)

  // ------------------------------------------------------------------ addresses

  /** The address a VM keeps from others: terminated VMs keep none. */
  function Held(s: Fleet, id: VmId): Option<Ip>
    requires id in s.rows
  {
    if s.rows[id].status.Terminated? then None else s.rows[id].ip
  }

  function AllocatedIps(s: Fleet): set<Ip> {
    set id | id in s.rows && !s.rows[id].status.Terminated? && s.rows[id].ip.Some? :: s.rows[id].ip.value
  }

  predicate TakenByOther(s: Fleet, id: VmId, ip: Ip) {
    exists other :: other in s.rows && other != id && !s.rows[other].status.Terminated? && s.rows[other].ip == Some(ip)
  }

  /** No two VMs that are not terminated hold one address. */
  ghost predicate Exclusive(s: Fleet) {
    forall a, b {:trigger Held(s, a), Held(s, b)} ::
      a in s.rows && b in s.rows && Held(s, a).Some? && Held(s, a) == Held(s, b) ==> a == b
  }

  // ------------------------------------------------------------------ steps

  function Put(s: Fleet, id: VmId, row: Row): Fleet { s.(rows := s.rows[id := row]) }

  function Release(s: Fleet, id: VmId): Fleet { s.(leases := s.leases - {id}) }

  function ApplyAssign(s: Fleet, id: VmId, chat: ChatId): Fleet {
    if id in s.rows && s.rows[id].IsAvailable()
    then Fleet(s.rows[id := s.rows[id].AssignTo(chat)], s.leases[id := chat])
    else s
  }

  /** Unassign, release the lease, write the row back; each write may be the one that fails. */
  function ApplyUnassign(s: Fleet, id: VmId, leaseOk: bool, updateOk: bool): Fleet
    requires id in s.rows
  {
    if !leaseOk then s
    else if !updateOk then Release(s, id)
    else Put(Release(s, id), id, s.rows[id].Unassign())
  }

  /** The allocator is told to forget the address, but the row is then written back with it. */
  function ApplyDestroy(s: Fleet, id: VmId, leaseOk: bool, releaseOk: bool, updateOk: bool, deleteOk: bool): Fleet
    requires id in s.rows
  {
    if !leaseOk then s
    else
      var row := s.rows[id];
      var released := if releaseOk then Put(Release(s, id), id, row.(ip := None)) else Release(s, id);
      if !updateOk then released
      else if !deleteOk then Put(released, id, row.Terminate())
      else released.(rows := released.rows - {id})
  }

  /** The row ResumeVM goes on with: a fresh address if it had none, none if its own is taken. */
  function ResumeRow(net: bool, s: Fleet, id: VmId, ip: Option<Ip>): Option<Row>
    requires id in s.rows
  {
    var row := s.rows[id];
    if !net then Some(row)
    else if row.ip.None? then (if ip.None? then None else Some(row.(ip := ip)))
    else if TakenByOther(s, id, row.ip.value) then None
    else Some(row)
  }

  function ApplyAssignIf(s: Fleet, id: VmId, wanted: Option<ChatId>): Fleet {
    match wanted
    case Some(chat) => ApplyAssign(s, id, chat)
    case None => s
  }

  function ApplyResume(net: bool, s: Fleet, id: VmId, wanted: Option<ChatId>, ip: Option<Ip>, resumed: ResumeOutcome): Fleet
    requires id in s.rows
  {
    match (resumed, ResumeRow(net, s, id, ip))
    case (NoSnapshot, _) => ApplyAssignIf(s, id, wanted)
    case (EarlyFailure, _) => s
    case (_, None) => s
    case (LateFailure, Some(row)) => Put(s, id, row)
    case (Restored(updateOk), Some(row)) =>
      if updateOk then ApplyAssignIf(Put(s, id, row.(status := Running)), id, wanted) else Put(s, id, row)
  }

  function ApplyCreate(s: Fleet, id: VmId, ip: Option<Ip>, created: CreateOutcome): Fleet {
    match created
    case Done(updateOk) => Put(s, id, Row(if updateOk then Ready else Provisioning, None, ip))
    case Failed(releaseOk, updateOk) =>
      if updateOk then Put(s, id, Row(Terminated, None, None))
      else Put(s, id, Row(Provisioning, None, if releaseOk then None else ip))
  }

  function Apply(net: bool, s: Fleet, step: Step): Fleet {
    match step
    case Create(id, ip, created) => ApplyCreate(s, id, ip, created)
    case CreateWithoutIp(id, updateOk) => Put(s, id, Row(if updateOk then Terminated else Provisioning, None, None))
    case Assign(id, chat) => ApplyAssign(s, id, chat)
    case Unassign(id, leaseOk, updateOk) =>
      if id in s.rows then ApplyUnassign(s, id, leaseOk, updateOk) else s
    case Stop(id, backendOk, leaseOk, updateOk) =>
      if id in s.rows && backendOk then ApplyUnassign(s, id, leaseOk, updateOk) else s
    case Destroy(id, backendOk, leaseOk, releaseOk, updateOk, deleteOk) =>
      if id in s.rows && backendOk then ApplyDestroy(s, id, leaseOk, releaseOk, updateOk, deleteOk) else s
    case Resume(id, wanted, ip, resumed) =>
      if id in s.rows then ApplyResume(net, s, id, wanted, ip, resumed) else s
    case Reap(id, stopped, leaseOk, updateOk) =>
      if id in s.rows && s.rows[id].IsListed() && stopped then
        var released := if leaseOk then Release(s, id) else s;
        if updateOk then Put(released, id, s.rows[id].Unassign()) else released
      else s
    case LoseRuntime(id, updateOk) =>
      if id in s.rows && s.rows[id].IsListed() && updateOk then Put(s, id, s.rows[id].Unassign()) else s
    case Refresh(id, gone, updateOk) =>
      if id in s.rows && gone && !s.rows[id].status.Terminated? && updateOk then Put(s, id, s.rows[id].Unassign()) else s
  }

  /** Ids are fresh, and an allocated address is one no VM holds. */
  ghost predicate Enabled(net: bool, s: Fleet, step: Step) {
    match step
    case Create(id, ip, _) => id !in s.rows && (ip.Some? ==> ip.value !in AllocatedIps(s))
    case CreateWithoutIp(id, _) => id !in s.rows
    case Resume(id, _, ip, _) => ip.Some? ==> ip.value !in AllocatedIps(s)
    case _ => true
  }

  /** Stop and Unassign have no check against a terminated VM: one may get back an address given away since. */
  ghost predicate RevivesTaken(s: Fleet, step: Step) {
    && (step.Unassign? || (step.Stop? && step.backendOk))
    && step.leaseOk && step.updateOk && step.id in s.rows
    && s.rows[step.id].status.Terminated? && s.rows[step.id].ip.Some?
    && TakenByOther(s, step.id, s.rows[step.id].ip.value)
  }

  /** The lease of a bound VM is released, and then the row that says it is bound cannot be written. */
  ghost predicate LosesLease(s: Fleet, step: Step) {
    && step.id in s.rows && s.rows[step.id].chat.Some?
    && match step
       case Unassign(_, leaseOk, updateOk) => leaseOk && !updateOk
       case Stop(_, backendOk, leaseOk, updateOk) => backendOk && leaseOk && !updateOk
       case Destroy(_, backendOk, leaseOk, _, updateOk, _) => backendOk && leaseOk && !updateOk
       case Reap(id, stopped, leaseOk, updateOk) => s.rows[id].IsListed() && stopped && leaseOk && !updateOk
       case _ => false
  }

  ghost predicate ValidRun(net: bool, s: Fleet, steps: seq<Step>)
    decreases |steps|
  {
    steps == [] || (Enabled(net, s, steps[0]) && ValidRun(net, Apply(net, s, steps[0]), steps[1..]))
  }

  ghost function Run(net: bool, s: Fleet, steps: seq<Step>): Fleet
    decreases |steps|
  {
    if steps == [] then s else Run(net, Apply(net, s, steps[0]), steps[1..])
  }

  lemma {:induction false} RunOfOne(net: bool, s: Fleet, step: Step)
    requires Enabled(net, s, step)
    ensures ValidRun(net, s, [step]) && Run(net, s, [step]) == Apply(net, s, step)
  {
    assert [step][1..] == [];
  }

  lemma {:induction false} RunOfTwo(net: bool, s: Fleet, first: Step, second: Step)
    requires Enabled(net, s, first) && Enabled(net, Apply(net, s, first), second)
    ensures ValidRun(net, s, [first, second]) && Run(net, s, [first, second]) == Apply(net, Apply(net, s, first), second)
  {
    assert [first, second][1..] == [second];
    RunOfOne(net, Apply(net, s, first), second);
  }

  // ------------------------------------------------------------------ address exclusivity

  /** A row may be written when it keeps no address from others, or one that nobody else holds. */
  lemma {:induction false} PutKeepsExclusive(s: Fleet, id: VmId, row: Row)
    requires Exclusive(s)
    requires row.status.Terminated? || row.ip.None? || !TakenByOther(s, id, row.ip.value)
    ensures Exclusive(Put(s, id, row))
  {
    var s' := Put(s, id, row);
    forall a, b | a in s'.rows && b in s'.rows && Held(s', a).Some? && Held(s', a) == Held(s', b)
      ensures a == b
    {
      if a != id && b != id {
        assert Held(s, a) == Held(s, b);
      }
    }
  }

  lemma {:induction false} SubfleetKeepsExclusive(s: Fleet, s': Fleet)
    requires Exclusive(s) && forall x :: x in s'.rows ==> x in s.rows && s'.rows[x] == s.rows[x]
    ensures Exclusive(s')
  {
    forall a, b | a in s'.rows && b in s'.rows && Held(s', a).Some? && Held(s', a) == Held(s', b)
      ensures a == b
    {
      assert Held(s, a) == Held(s, b);
    }
  }

  /** An address outside the allocated set, and a VM's own address, are not another's. */
  lemma {:induction false} NotTaken(s: Fleet, id: VmId, ip: Ip)
    requires Exclusive(s)
    ensures ip !in AllocatedIps(s) ==> !TakenByOther(s, id, ip)
    ensures id in s.rows && Held(s, id) == Some(ip) ==> !TakenByOther(s, id, ip)
  {
    forall other | other in s.rows && other != id && !s.rows[other].status.Terminated? && s.rows[other].ip == Some(ip)
      ensures ip in AllocatedIps(s) && !(id in s.rows && Held(s, id) == Some(ip))
    {
      assert Held(s, other) == Some(ip);
    }
  }

  lemma {:induction false} ResumeKeepsExclusive(s: Fleet, id: VmId, wanted: Option<ChatId>, ip: Option<Ip>, resumed: ResumeOutcome)
    requires Exclusive(s) && id in s.rows && (ip.Some? ==> ip.value !in AllocatedIps(s))
    ensures Exclusive(ApplyResume(true, s, id, wanted, ip, resumed))
  {
    AssignKeepsExclusive(s, id, wanted);
    var r := ResumeRow(true, s, id, ip);
    if r.Some? {
      NotTaken(s, id, r.value.ip.value);
      PutKeepsExclusive(s, id, r.value);
      var up := r.value.(status := Running);
      PutKeepsExclusive(s, id, up);
      AssignKeepsExclusive(Put(s, id, up), id, wanted);
    }
  }

  lemma {:induction false} AssignKeepsExclusive(s: Fleet, id: VmId, wanted: Option<ChatId>)
    requires Exclusive(s)
    ensures Exclusive(ApplyAssignIf(s, id, wanted))
  {
    var s' := ApplyAssignIf(s, id, wanted);
    forall a, b | a in s'.rows && b in s'.rows && Held(s', a).Some? && Held(s', a) == Held(s', b)
      ensures a == b
    {
      assert Held(s, a) == Held(s, b);
    }
  }

  lemma {:induction false} UnassignKeepsExclusive(s: Fleet, s0: Fleet, id: VmId)
    requires Exclusive(s) && s0.rows == s.rows && id in s.rows && !s.rows[id].status.Terminated?
    ensures Exclusive(s0) && Exclusive(Put(s0, id, s.rows[id].Unassign()))
  {
    SubfleetKeepsExclusive(s, s0);
    if s.rows[id].ip.Some? {
      NotTaken(s0, id, s.rows[id].ip.value);
    }
    PutKeepsExclusive(s0, id, s.rows[id].Unassign());
  }

  lemma {:induction false} DestroyKeepsExclusive(s: Fleet, id: VmId, leaseOk: bool, releaseOk: bool, updateOk: bool, deleteOk: bool)
    requires Exclusive(s) && id in s.rows
    ensures Exclusive(ApplyDestroy(s, id, leaseOk, releaseOk, updateOk, deleteOk))
  {
    var lost := Release(s, id);
    SubfleetKeepsExclusive(s, lost);
    PutKeepsExclusive(lost, id, s.rows[id].(ip := None));
    var released := if releaseOk then Put(lost, id, s.rows[id].(ip := None)) else lost;
    PutKeepsExclusive(released, id, s.rows[id].Terminate());
    SubfleetKeepsExclusive(released, released.(rows := released.rows - {id}));
  }

  /** An unassign keeps addresses exclusive exactly unless it revives a taken one. */
  lemma {:induction false} UnassignExclusiveIff(s: Fleet, id: VmId)
    requires Exclusive(s) && id in s.rows
    ensures Exclusive(ApplyUnassign(s, id, true, true)) <==>
              !(s.rows[id].status.Terminated? && s.rows[id].ip.Some? && TakenByOther(s, id, s.rows[id].ip.value))
  {
    var row := s.rows[id];
    var s' := ApplyUnassign(s, id, true, true);
    if row.ip.Some? && TakenByOther(s, id, row.ip.value) {
      var other :| other in s.rows && other != id && !s.rows[other].status.Terminated? && s.rows[other].ip == row.ip;
      assert Held(s', other) == Held(s', id) == row.ip;
      if !row.status.Terminated? {
        NotTaken(s, id, row.ip.value);
      }
    } else {
      SubfleetKeepsExclusive(s, Release(s, id));
      PutKeepsExclusive(Release(s, id), id, row.Unassign());
    }
  }

  /** With networking on, a step keeps addresses exclusive exactly unless it revives a taken one. */
  lemma {:induction false} StepExclusiveIff(s: Fleet, step: Step)
    requires Exclusive(s) && Enabled(true, s, step)
    ensures Exclusive(Apply(true, s, step)) <==> !RevivesTaken(s, step)
  {
    match step {
      case Create(id, ip, created) =>
        if ip.Some? {
          NotTaken(s, id, ip.value);
        }
        PutKeepsExclusive(s, id, ApplyCreate(s, id, ip, created).rows[id]);
      case CreateWithoutIp(id, updateOk) =>
        PutKeepsExclusive(s, id, Row(if updateOk then Terminated else Provisioning, None, None));
      case Assign(id, chat) => AssignKeepsExclusive(s, id, Some(chat));
      case Destroy(id, _, leaseOk, releaseOk, updateOk, deleteOk) =>
        if id in s.rows {
          DestroyKeepsExclusive(s, id, leaseOk, releaseOk, updateOk, deleteOk);
        }
      case Resume(id, wanted, ip, resumed) =>
        if id in s.rows {
          ResumeKeepsExclusive(s, id, wanted, ip, resumed);
        }
      case _ =>
        if step.id in s.rows {
          SubfleetKeepsExclusive(s, Release(s, step.id));
          UnassignExclusiveIff(s, step.id);
          if !s.rows[step.id].status.Terminated? {
            UnassignKeepsExclusive(s, s, step.id);
            UnassignKeepsExclusive(s, Release(s, step.id), step.id);
          }
        }
    }
  }

  ghost predicate NeverRevives(s: Fleet, steps: seq<Step>)
    decreases |steps|
  {
    steps == [] || (!RevivesTaken(s, steps[0]) && NeverRevives(Apply(true, s, steps[0]), steps[1..]))
  }

  ghost predicate AlwaysExclusive(s: Fleet, steps: seq<Step>)
    decreases |steps|
  {
    Exclusive(s) && (steps != [] ==> AlwaysExclusive(Apply(true, s, steps[0]), steps[1..]))
  }

  /**
   Over every run, whatever calls fail: no two VMs that are not terminated ever share an
   address, if and only if no Stop or Unassign of the run revives a taken one.
   */
  lemma {:induction false} EveryRunIsExclusiveIff(s: Fleet, steps: seq<Step>)
    requires Exclusive(s) && ValidRun(true, s, steps)
    ensures AlwaysExclusive(s, steps) <==> NeverRevives(s, steps)
    ensures NeverRevives(s, steps) ==> Exclusive(Run(true, s, steps))
    decreases |steps|
  {
    if steps != [] {
      StepExclusiveIff(s, steps[0]);
      var s' := Apply(true, s, steps[0]);
      if Exclusive(s') {
        EveryRunIsExclusiveIff(s', steps[1..]);
      }
    }
  }

  lemma {:induction false} RunStarts(s: Fleet, steps: seq<Step>, s': Fleet)
    requires steps != [] && s' == Apply(true, s, steps[0]) && Enabled(true, s, steps[0])
    ensures Run(true, s, steps) == Run(true, s', steps[1..])
    ensures ValidRun(true, s, steps) <==> ValidRun(true, s', steps[1..])
  {
  }

  /** Such a state is reachable: destroy whose row delete fails, reuse of the address, unassign. */
  lemma {:induction false} SharedAddressIsReachable(a: VmId, b: VmId, ip: Ip)
    requires a != b
    ensures var steps := [Create(a, Some(ip), Done(true)), Destroy(a, true, true, true, true, false),
                          Create(b, Some(ip), Done(true)), Unassign(a, true, true)];
            ValidRun(true, EMPTY, steps) && !Exclusive(Run(true, EMPTY, steps))
  {
    var s1 := Apply(true, EMPTY, Create(a, Some(ip), Done(true)));
    var s2 := Apply(true, s1, Destroy(a, true, true, true, true, false));
    var s3 := Apply(true, s2, Create(b, Some(ip), Done(true)));
    var s4 := Apply(true, s3, Unassign(a, true, true));
    var t3 := [Unassign(a, true, true)];
    var t2 := [Create(b, Some(ip), Done(true))] + t3;
    var t1 := [Destroy(a, true, true, true, true, false)] + t2;
    var t0 := [Create(a, Some(ip), Done(true))] + t1;
    assert t0[1..] == t1 && t1[1..] == t2 && t2[1..] == t3 && t3[1..] == [];
    assert s2.rows == map[a := Row(Terminated, None, Some(ip))];
    assert AllocatedIps(s2) == {};
    RunStarts(s3, t3, s4);
    RunStarts(s2, t2, s3);
    RunStarts(s1, t1, s2);
    RunStarts(EMPTY, t0, s1);
    assert Run(true, s4, []) == s4;
    assert Held(s4, a) == Some(ip) == Held(s4, b);
    assert t0 == [Create(a, Some(ip), Done(true)), Destroy(a, true, true, true, true, false),
                  Create(b, Some(ip), Done(true)), Unassign(a, true, true)];
  }

  // ------------------------------------------------------------------ keeping an address

  /** The only way to lose an address: a destroy of the VM that gets as far as a write. */
  ghost predicate GivesUp(step: Step, id: VmId) {
    step.Destroy? && step.id == id && step.backendOk && step.leaseOk && (step.releaseOk || step.updateOk)
  }

  ghost predicate Holds(s: Fleet, id: VmId, ip: Ip) {
    id in s.rows && s.rows[id].status != Terminated && s.rows[id].ip == Some(ip)
  }

  /** A successful create or resume leaves the VM holding the address it was given. */
  lemma {:induction false} GrantIsHeld(s: Fleet, step: Step)
    requires Enabled(true, s, step)
    ensures step.Create? && step.created == Done(true) && step.ip.Some? ==> Holds(Apply(true, s, step), step.id, step.ip.value)
    ensures step.Resume? && step.resumed == Restored(true) && step.id in s.rows ==>
              match s.rows[step.id].ip
              case Some(own) => !TakenByOther(s, step.id, own) ==> Holds(Apply(true, s, step), step.id, own)
              case None => step.ip.Some? ==> Holds(Apply(true, s, step), step.id, step.ip.value)
  {
  }

  lemma {:induction false} StepKeepsAddressIff(s: Fleet, step: Step, id: VmId, ip: Ip)
    requires Enabled(true, s, step) && Holds(s, id, ip)
    ensures Holds(Apply(true, s, step), id, ip) <==> !GivesUp(step, id)
  {
    if step.id != id {
      StepConcernsOneVm(true, s, step, id);
    }
  }

  ghost predicate HoldsThroughout(s: Fleet, steps: seq<Step>, id: VmId, ip: Ip)
    decreases |steps|
  {
    Holds(s, id, ip) && (steps != [] ==> HoldsThroughout(Apply(true, s, steps[0]), steps[1..], id, ip))
  }

  /** Over every run, an address once held is held throughout if and only if no step destroys its VM. */
  lemma {:induction false} EveryRunKeepsAddressIff(s: Fleet, steps: seq<Step>, id: VmId, ip: Ip)
    requires Holds(s, id, ip) && ValidRun(true, s, steps)
    ensures HoldsThroughout(s, steps, id, ip) <==> forall k :: 0 <= k < |steps| ==> !GivesUp(steps[k], id)
    decreases |steps|
  {
    if steps != [] {
      StepKeepsAddressIff(s, steps[0], id, ip);
      if !GivesUp(steps[0], id) {
        EveryRunKeepsAddressIff(Apply(true, s, steps[0]), steps[1..], id, ip);
        assert forall k :: 1 <= k < |steps| ==> steps[k] == steps[1..][k - 1];
      }
    }
  }

  lemma {:induction false} NewRowAllocatesNothing(s: Fleet, id: VmId, row: Row)
    requires id !in s.rows && row.ip.None?
    ensures AllocatedIps(Put(s, id, row)) == AllocatedIps(s)
  {
    var s' := Put(s, id, row);
    forall ip | ip in AllocatedIps(s)
      ensures ip in AllocatedIps(s')
    {
      var x :| x in s.rows && !s.rows[x].status.Terminated? && s.rows[x].ip == Some(ip);
      assert s'.rows[x] == s.rows[x];
    }
  }

  // ------------------------------------------------------------------ chat bindings

  function Binding(s: Fleet, id: VmId): Option<ChatId> {
    if id in s.rows then s.rows[id].chat else None
  }

  /** A bound VM is running, and its active lease names the same chat. */
  ghost predicate Bound(s: Fleet) {
    forall id {:trigger BoundAt(s, id)} :: BoundAt(s, id)
  }

  ghost predicate BoundAt(s: Fleet, id: VmId) {
    Binding(s, id).Some? ==> s.rows[id].status.Running? && id in s.leases && s.leases[id] == Binding(s, id).value
  }

  /** A step touches the row and the lease of one VM. */
  lemma {:induction false} StepConcernsOneVm(net: bool, s: Fleet, step: Step, x: VmId)
    requires x != step.id
    ensures var s' := Apply(net, s, step);
            && (x in s'.rows <==> x in s.rows) && (x in s.rows ==> s'.rows[x] == s.rows[x])
            && (x in s'.leases <==> x in s.leases) && (x in s.leases ==> s'.leases[x] == s.leases[x])
  {
  }

  lemma {:induction false} StepBindsItsVm(net: bool, s: Fleet, step: Step)
    requires BoundAt(s, step.id) && Enabled(net, s, step)
    ensures BoundAt(Apply(net, s, step), step.id) <==> !LosesLease(s, step)
  {
  }

  /** A step keeps bound VMs running and leased if and only if it does not lose a lease. */
  lemma {:induction false} StepBoundIff(net: bool, s: Fleet, step: Step)
    requires Bound(s) && Enabled(net, s, step)
    ensures Bound(Apply(net, s, step)) <==> !LosesLease(s, step)
  {
    assert BoundAt(s, step.id);
    StepBindsItsVm(net, s, step);
    forall x | x != step.id
      ensures BoundAt(Apply(net, s, step), x)
    {
      assert BoundAt(s, x);
      StepConcernsOneVm(net, s, step, x);
    }
  }

  /** A step takes a VM from one chat to another only through none. */
  lemma {:induction false} StepRebindsThroughNone(net: bool, s: Fleet, step: Step, id: VmId)
    requires Enabled(net, s, step) && Binding(s, id).Some? && Binding(Apply(net, s, step), id).Some?
    ensures Binding(Apply(net, s, step), id) == Binding(s, id)
  {
  }

  ghost predicate NeverLosesLease(net: bool, s: Fleet, steps: seq<Step>)
    decreases |steps|
  {
    steps == [] || (!LosesLease(s, steps[0]) && NeverLosesLease(net, Apply(net, s, steps[0]), steps[1..]))
  }

  ghost predicate AlwaysBound(net: bool, s: Fleet, steps: seq<Step>)
    decreases |steps|
  {
    Bound(s) && (steps != [] ==> AlwaysBound(net, Apply(net, s, steps[0]), steps[1..]))
  }

  /**
   Over every run, whatever calls fail: every bound VM is running and leased to its chat
   throughout, if and only if no step loses a lease.
   */
  lemma {:induction false} EveryRunIsBoundIff(net: bool, s: Fleet, steps: seq<Step>)
    requires Bound(s) && ValidRun(net, s, steps)
    ensures AlwaysBound(net, s, steps) <==> NeverLosesLease(net, s, steps)
    ensures NeverLosesLease(net, s, steps) ==> Bound(Run(net, s, steps))
    decreases |steps|
  {
    if steps != [] {
      StepBoundIff(net, s, steps[0]);
      var s' := Apply(net, s, steps[0]);
      if Bound(s') {
        EveryRunIsBoundIff(net, s', steps[1..]);
      }
    }
  }

  /** A VM bound to two different chats at the ends of a run was unbound somewhere between. */
  lemma {:induction false} RebindingPassesThroughNone(net: bool, s: Fleet, steps: seq<Step>, id: VmId) returns (k: nat)
    requires ValidRun(net, s, steps)
    requires Binding(s, id).Some? && Binding(Run(net, s, steps), id).Some? && Binding(s, id) != Binding(Run(net, s, steps), id)
    ensures k <= |steps| && Binding(Run(net, s, steps[..k]), id) == None
    decreases |steps|
  {
    var s' := Apply(net, s, steps[0]);
    if Binding(s', id).None? {
      k := 1;
      assert steps[..1] == [steps[0]] && [steps[0]][1..] == [];
      assert Run(net, s', []) == s';
    } else {
      StepRebindsThroughNone(net, s, steps[0], id);
      var j := RebindingPassesThroughNone(net, s', steps[1..], id);
      k := j + 1;
      assert steps[..k][1..] == steps[1..][..j];
    }
  }
}
