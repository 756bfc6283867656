/**
 The in-memory VM repository and the lifecycle operations of the VM service over it. The
 boolean parameters say which foreign calls succeed; each operation is one step of
 Lifecycle on the repository's state.
 */
module VmService {
  import opened Wrappers
  import opened IpAllocator
  import opened Lifecycle

  class VMRepository {
    var rows: map<VmId, Row>
    var leases: map<VmId, ChatId>

    ghost function State(): Fleet
      reads this
    {
      Fleet(rows, leases)
    }

    constructor ()
      ensures State() == EMPTY
    {
      rows, leases := map[], map[];
    }

    method Create(id: VmId, row: Row)
      modifies this
      ensures State() == Put(old(State()), id, row)
    {
      rows := rows[id := row];
    }

    method Update(id: VmId, row: Row, ok: bool) returns (done: bool)
      modifies this
      ensures done == (ok && id in old(rows))
      ensures State() == if done then Put(old(State()), id, row) else old(State())
    {
      if !ok || id !in rows { return false; }
      rows := rows[id := row];
      done := true;
    }

    method AssignToChatIfAvailable(id: VmId, chat: ChatId) returns (r: Result<Row>)
      modifies this
      ensures State() == ApplyAssign(old(State()), id, chat)
      ensures r.Ok? <==> id in old(rows) && old(rows[id]).IsAvailable()
      ensures r.Ok? ==> id in rows && r.value == rows[id]
      ensures r.Ok? ==> old(rows[id]).chat == None && old(rows[id]).status in {Ready, Running, Idle}
      ensures r.Ok? ==> rows[id] == Row(Running, Some(chat), old(rows[id]).ip) && id in leases && leases[id] == chat
      ensures r.Err? ==> State() == old(State())
      ensures id in old(rows) && old(rows[id]).chat == None && old(rows[id]).status in {Ready, Running, Idle} ==> r.Ok?
    {
      if id !in rows { return Err; }
      var vm := rows[id];
      if !vm.IsAvailable() { return Err; }
      vm := vm.AssignTo(chat);
      rows := rows[id := vm];
      leases := leases[id := chat];
      r := Ok(vm);
    }

    method ReleaseActiveLeaseByVM(id: VmId)
      modifies this
      ensures State() == Release(old(State()), id)
      ensures id !in leases && rows == old(rows) && forall x :: x != id && x in old(leases) ==> x in leases && leases[x] == old(leases)[x]
    {
      if id !in leases {
        assert leases - {id} == leases;
        return;
      }
      leases := leases - {id};
    }
  }

  class Service {
    const repo: VMRepository
    const ipStart: Ip
    const ipEnd: Ip

    constructor (repo: VMRepository, ipStart: Ip, ipEnd: Ip)
      requires |ipStart| == |ipEnd|
      ensures this.repo == repo && this.ipStart == ipStart && this.ipEnd == ipEnd
    {
      this.repo, this.ipStart, this.ipEnd := repo, ipStart, ipEnd;
    }

    /** The first address of the configured range that no VM holds, persisted on the row. */
    method Allocate(id: VmId, setOk: bool) returns (ip: Option<Ip>)
      requires id in repo.rows && |ipStart| == |ipEnd|
      modifies repo
      ensures ip.Some? ==> InRange(ipStart, ipEnd, ip.value) && ip.value !in AllocatedIps(old(repo.State()))
                           && repo.State() == Put(old(repo.State()), id, old(repo.rows[id]).(ip := ip))
      ensures ip.Some? ==> forall y :: InRange(ipStart, ipEnd, y) && Distance(ipStart, y) < Distance(ipStart, ip.value) ==>
                                         y in AllocatedIps(old(repo.State()))
      ensures ip.Some? ==> forall x :: x in old(repo.rows) && old(repo.rows[x]).status != Terminated ==> old(repo.rows[x]).ip != ip
      ensures ip.None? && setOk ==> forall y :: InRange(ipStart, ipEnd, y) ==>
                exists x :: x in repo.rows && repo.rows[x].status != Terminated && repo.rows[x].ip == Some(y)
      ensures ip.None? ==> repo.State() == old(repo.State())
      ensures ip.None? <==> !setOk || forall y :: InRange(ipStart, ipEnd, y) ==> y in AllocatedIps(old(repo.State()))
    {
      var inUse := AllocatedIps(Fleet(repo.rows, repo.leases));
      var free := FirstFree(ipStart, ipEnd, inUse);
      if free.None? || !setOk { return None; }
      repo.rows := repo.rows[id := repo.rows[id].(ip := free)];
      ip := free;
    }

    method Create(id: VmId, setOk: bool, workOk: bool, releaseOk: bool, updateOk: bool) returns (ok: bool, ghost step: Step)
      requires id !in repo.rows && |ipStart| == |ipEnd|
      modifies repo
      ensures Enabled(true, old(repo.State()), step) && repo.State() == Apply(true, old(repo.State()), step)
      ensures step.id == id && (step.Create? || step.CreateWithoutIp?)
      ensures ok <==> step.Create? && step.created == Done(true)
      ensures ok ==> id in repo.rows && repo.rows[id].status == Ready && repo.rows[id].chat == None && repo.rows[id].ip.Some?
                     && InRange(ipStart, ipEnd, repo.rows[id].ip.value)
                     && forall x :: x in old(repo.rows) && old(repo.rows[x]).status != Terminated ==> old(repo.rows[x]).ip != repo.rows[id].ip
      ensures !ok && updateOk ==> id in repo.rows && repo.rows[id] == Row(Terminated, None, None)
      ensures !updateOk ==> id in repo.rows && repo.rows[id].status == Provisioning && repo.rows[id].chat == None
      ensures setOk && workOk && updateOk && (exists y :: InRange(ipStart, ipEnd, y) && y !in AllocatedIps(old(repo.State()))) ==> ok
    {
      ghost var s0 := repo.State();
      var vm := Row(Provisioning, None, None);
      repo.Create(id, vm);
      NewRowAllocatesNothing(s0, id, vm);
      var ip := Allocate(id, setOk);
      if ip.None? {
        var _ := repo.Update(id, vm.Terminate(), updateOk);
        step := CreateWithoutIp(id, updateOk);
        return false, step;
      }
      vm := vm.(ip := ip);
      if !workOk {
        Abort(id, vm, releaseOk, updateOk);
        step := Step.Create(id, ip, Failed(releaseOk, updateOk));
        return false, step;
      }
      ok := repo.Update(id, vm.(status := Ready), updateOk);
      step := Step.Create(id, ip, Done(updateOk));
    }

    /** Workspace, backend or mount failed: release the address, forget it, terminate. */
    method Abort(id: VmId, vm: Row, releaseOk: bool, updateOk: bool)
      requires id in repo.rows && repo.rows[id] == vm
      modifies repo
      ensures repo.leases == old(repo.leases)
      ensures repo.rows == old(repo.rows)[id := if updateOk then Row(Terminated, None, None) else if releaseOk then vm.(ip := None) else vm]
    {
      if releaseOk { repo.rows := repo.rows[id := repo.rows[id].(ip := None)]; }
      assert old(repo.rows)[id := vm] == old(repo.rows);
      var _ := repo.Update(id, vm.Terminate().(ip := None), updateOk);
    }

    method Unassign(id: VmId, leaseOk: bool, updateOk: bool) returns (ok: bool)
      modifies repo
      ensures repo.State() == Apply(true, old(repo.State()), Step.Unassign(id, leaseOk, updateOk))
      ensures ok <==> id in old(repo.rows) && leaseOk && updateOk
      ensures ok ==> id in repo.rows && repo.rows[id] == Row(Idle, None, old(repo.rows[id]).ip) && id !in repo.leases
      ensures !ok ==> repo.rows == old(repo.rows)
    {
      if id !in repo.rows { return false; }
      var vm := repo.rows[id].Unassign();
      if !leaseOk { return false; }
      repo.ReleaseActiveLeaseByVM(id);
      ok := repo.Update(id, vm, updateOk);
    }

    method Stop(id: VmId, backendOk: bool, leaseOk: bool, updateOk: bool) returns (ok: bool)
      modifies repo
      ensures repo.State() == Apply(true, old(repo.State()), Step.Stop(id, backendOk, leaseOk, updateOk))
      ensures ok <==> id in old(repo.rows) && backendOk && leaseOk && updateOk
      ensures ok ==> id in repo.rows && repo.rows[id] == Row(Idle, None, old(repo.rows[id]).ip) && id !in repo.leases
    {
      if id !in repo.rows || !backendOk { return false; }
      ok := Unassign(id, leaseOk, updateOk);
    }

    /** The row read at the start, address and all, is what Update writes back. */
    method Destroy(id: VmId, backendOk: bool, leaseOk: bool, releaseOk: bool, updateOk: bool, deleteOk: bool) returns (ok: bool)
      modifies repo
      ensures repo.State() == Apply(true, old(repo.State()), Step.Destroy(id, backendOk, leaseOk, releaseOk, updateOk, deleteOk))
      ensures ok <==> id in old(repo.rows) && backendOk && leaseOk && updateOk && deleteOk
      ensures ok ==> repo.rows == old(repo.rows) - {id} && repo.leases == old(repo.leases) - {id}
      ensures id in old(repo.rows) && backendOk && leaseOk && updateOk && !deleteOk ==>
                id in repo.rows && repo.rows[id] == Row(Terminated, None, old(repo.rows[id]).ip) && id !in repo.leases
      ensures id in old(repo.rows) && backendOk && leaseOk && !updateOk ==>
                id in repo.rows && repo.rows[id] == (if releaseOk then old(repo.rows[id]).(ip := None) else old(repo.rows[id])) && id !in repo.leases
    {
      if id !in repo.rows || !backendOk { return false; }
      var vm := repo.rows[id].Terminate();
      if !leaseOk { return false; }
      repo.ReleaseActiveLeaseByVM(id);
      if releaseOk { repo.rows := repo.rows[id := repo.rows[id].(ip := None)]; }
      var updated := repo.Update(id, vm, updateOk);
      if !updated { return false; }
      if !deleteOk { return false; }
      assert repo.rows - {id} == old(repo.rows) - {id};
      repo.rows := repo.rows - {id};
      assert repo.rows == (old(repo.rows)[id := old(repo.rows[id]).(ip := None)]) - {id};
      ok := true;
    }

    /**
     The VM runs, bound to the wanted chat if there is one, on the address it had or else on one of
     the range that no other VM held.
     */
    ghost predicate Resumed(before: map<VmId, Row>, now: map<VmId, Row>, id: VmId, wanted: Option<ChatId>) {
      && id in before && id in now
      && now[id].status == Running && now[id].chat == (if wanted.Some? then wanted else before[id].chat)
      && now[id].ip.Some? && (before[id].ip.Some? ==> now[id].ip == before[id].ip)
      && (before[id].ip.None? ==> InRange(ipStart, ipEnd, now[id].ip.value))
      && forall x :: x in before && x != id && before[x].status != Terminated ==> before[x].ip != now[id].ip
    }

    /** Address, restore, row write and binding of an existing VM whose chain resolved. */
    method Restore(id: VmId, wanted: Option<ChatId>, setOk: bool, restoreOk: bool, updateOk: bool)
      returns (ok: bool, addressed: bool, ghost step: Step)
      requires id in repo.rows && |ipStart| == |ipEnd|
      modifies repo
      ensures Enabled(true, old(repo.State()), step) && repo.State() == Apply(true, old(repo.State()), step)
      ensures step.Resume? && step.id == id && step.wanted == wanted
      ensures repo.rows.Keys == old(repo.rows.Keys)
      ensures addressed <==> !step.resumed.EarlyFailure?
      ensures ok ==> Resumed(old(repo.rows), repo.rows, id, wanted)
      ensures ok && wanted.Some? ==> id in repo.leases && repo.leases[id] == wanted.value
      ensures !addressed ==> !ok && repo.State() == old(repo.State())
    {
      step := Step.Resume(id, wanted, None, EarlyFailure);
      var vm := repo.rows[id];
      var newIp: Option<Ip> := None;
      if vm.ip.None? {
        newIp := Allocate(id, setOk);
        if newIp.None? { return false, false, step; }
        vm := vm.(ip := newIp);
      } else if TakenByOther(Fleet(repo.rows, repo.leases), id, vm.ip.value) {
        return false, false, step;
      }
      addressed := true;
      if !restoreOk {
        step := Step.Resume(id, wanted, newIp, LateFailure);
        assert repo.rows == old(repo.rows)[id := vm];
        return false, true, step;
      }
      step := Step.Resume(id, wanted, newIp, Restored(updateOk));
      assert repo.rows[id := vm.(status := Running)] == old(repo.rows)[id := vm.(status := Running)];
      assert repo.rows == old(repo.rows)[id := vm];
      ok := repo.Update(id, vm.(status := Running), updateOk);
      if !ok { return; }
      if wanted.Some? {
        var r := repo.AssignToChatIfAvailable(id, wanted.value);
        ok := r.Ok?;
      }
    }

    /**
     Every branch is a run of at most two enabled steps: the resume, and the create of a new VM
     when the chain does not resolve (chainOk) or its memory does not merge (mergeOk).
     */
    method ResumeVM(id: VmId, wanted: Option<ChatId>, hasSnapshot: bool, chainOk: bool, setOk: bool, mergeOk: bool, restoreOk: bool,
                    updateOk: bool, newId: VmId, newSetOk: bool, newWorkOk: bool, newReleaseOk: bool, newUpdateOk: bool)
      returns (ok: bool, ghost steps: seq<Step>)
      requires |ipStart| == |ipEnd| && newId !in repo.rows
      modifies repo
      ensures ValidRun(true, old(repo.State()), steps) && repo.State() == Run(true, old(repo.State()), steps)
      ensures forall k :: 0 <= k < |steps| ==>
                if steps[k].Resume? then steps[k].id == id else (steps[k].Create? || steps[k].CreateWithoutIp?) && steps[k].id == newId
      ensures ok && hasSnapshot && chainOk && mergeOk ==> Resumed(old(repo.rows), repo.rows, id, wanted)
      ensures ok && wanted.Some? && (!hasSnapshot || (chainOk && mergeOk)) ==>
                id in repo.rows && repo.rows[id].chat == wanted && id in repo.leases && repo.leases[id] == wanted.value
      ensures ok && hasSnapshot && !(chainOk && mergeOk) ==> newId in repo.rows && repo.rows[newId].status == Ready && repo.rows[newId].ip.Some?
    {
      steps := [];
      if id !in repo.rows { return false, steps; }
      if !hasSnapshot {
        RunOfOne(true, repo.State(), Step.Resume(id, wanted, None, NoSnapshot));
        steps := [Step.Resume(id, wanted, None, NoSnapshot)];
        ok := true;
        if wanted.Some? {
          var r := repo.AssignToChatIfAvailable(id, wanted.value);
          ok := r.Ok?;
        }
        return;
      }
      if !chainOk {
        ghost var created;
        ok, created := Create(newId, newSetOk, newWorkOk, newReleaseOk, newUpdateOk);
        RunOfOne(true, old(repo.State()), created);
        return ok, [created];
      }
      ghost var first;
      var addressed;
      ok, addressed, first := Restore(id, wanted, setOk, mergeOk && restoreOk, updateOk);
      RunOfOne(true, old(repo.State()), first);
      steps := [first];
      if !mergeOk && addressed {
        ghost var created;
        ok, created := Create(newId, newSetOk, newWorkOk, newReleaseOk, newUpdateOk);
        RunOfTwo(true, old(repo.State()), first, created);
        steps := [first, created];
      }
    }

    /** One VM of the idle reaper's pass; stopped also covers a runtime that is already gone. */
    method ReapIdle(id: VmId, stopped: bool, leaseOk: bool, updateOk: bool)
      modifies repo
      ensures repo.State() == Apply(true, old(repo.State()), Step.Reap(id, stopped, leaseOk, updateOk))
      ensures id in old(repo.rows) && old(repo.rows[id]).status in {Ready, Running, Idle} && stopped && updateOk ==>
                id in repo.rows && repo.rows[id] == Row(Idle, None, old(repo.rows[id]).ip) && (leaseOk ==> id !in repo.leases)
    {
      if id !in repo.rows || !repo.rows[id].IsListed() || !stopped { return; }
      var vm := repo.rows[id].Unassign();
      if leaseOk { repo.ReleaseActiveLeaseByVM(id); }
      var _ := repo.Update(id, vm, updateOk);
    }

    /** The lease is kept, so that the next request can find the VM. */
    method MarkColdAfterLostRuntime(id: VmId, updateOk: bool)
      modifies repo
      ensures repo.State() == Apply(true, old(repo.State()), Step.LoseRuntime(id, updateOk))
      ensures id in old(repo.rows) && old(repo.rows[id]).status in {Ready, Running, Idle} && updateOk ==>
                id in repo.rows && repo.rows[id] == Row(Idle, None, old(repo.rows[id]).ip)
      ensures repo.leases == old(repo.leases)
    {
      if id !in repo.rows || !repo.rows[id].IsListed() { return; }
      var _ := repo.Update(id, repo.rows[id].Unassign(), updateOk);
    }

    /** A runtime found gone or stopped unbinds a VM that is not terminated, and keeps the lease too. */
    method GetRuntimeSnapshot(id: VmId, gone: bool, updateOk: bool) returns (ok: bool)
      modifies repo
      ensures repo.State() == Apply(true, old(repo.State()), Step.Refresh(id, gone, updateOk))
      ensures ok <==> id in old(repo.rows) && updateOk
      ensures ok && gone && old(repo.rows[id]).status != Terminated ==> repo.rows[id] == Row(Idle, None, old(repo.rows[id]).ip)
      ensures repo.leases == old(repo.leases)
    {
      if id !in repo.rows { return false; }
      var vm := repo.rows[id];
      if gone && vm.status != Terminated { vm := vm.Unassign(); }
      assert repo.rows[id := repo.rows[id]] == repo.rows;
      ok := repo.Update(id, vm, updateOk);
    }
  }
}
