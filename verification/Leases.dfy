/** GPU leases on one machine: the device manager, the lease objects and the backend that issues them. */
module Leases {
  import opened Arith
  import opened LeaseBook

  // ---------------------------------------------------------------- idle devices

  /** Devices whose used memory is at most the limit and that nobody has reserved, in index order. */
  function FreeGpus(used: seq<nat>, occupied: set<nat>, limit: nat): seq<nat> {
    if used == [] then []
    else
      var n := |used| - 1;
      FreeGpus(used[..n], occupied, limit) + if used[n] <= limit && n !in occupied then [n] else []
  }

  predicate Idle(used: seq<nat>, occupied: set<nat>, limit: nat, d: nat) {
    d < |used| && used[d] <= limit && d !in occupied
  }

  lemma {:induction false} FreeMember(used: seq<nat>, occupied: set<nat>, limit: nat, d: nat)
    ensures d in FreeGpus(used, occupied, limit) <==> Idle(used, occupied, limit, d)
  {
    if used != [] { FreeMember(used[..|used| - 1], occupied, limit, d); }
  }

  lemma {:induction false} FreeAscending(used: seq<nat>, occupied: set<nat>, limit: nat)
    ensures Ascending(FreeGpus(used, occupied, limit))
  {
    if used != [] {
      var n := |used| - 1;
      var before := FreeGpus(used[..n], occupied, limit);
      FreeAscending(used[..n], occupied, limit);
      forall d | d in before
        ensures d < n
      {
        FreeMember(used[..n], occupied, limit, d);
      }
      AscendsOn(before, n);
      assert before + [] == before;
    }
  }

  lemma AscendsOn(s: seq<nat>, n: nat)
    requires Ascending(s) && forall d | d in s :: d < n
    ensures Ascending(s + [n])
  {
    forall i, j | 0 <= i < j < |s| + 1
      ensures (s + [n])[i] < (s + [n])[j]
    {
      assert s[i] in s;
    }
  }

  /** The list is ascending and holds exactly the idle devices. */
  lemma {:induction false} FreeGpusAre(used: seq<nat>, occupied: set<nat>, limit: nat)
    ensures var free := FreeGpus(used, occupied, limit);
      && (forall d: nat :: d in free <==> Idle(used, occupied, limit, d))
      && Ascending(free)
  {
    hide FreeGpus, Idle;
    FreeAscending(used, occupied, limit);
    forall d: nat
      ensures d in FreeGpus(used, occupied, limit) <==> Idle(used, occupied, limit, d)
    {
      FreeMember(used, occupied, limit, d);
    }
  }

  /** The first devices of the list can be granted: distinct, existing, idle and unreserved. */
  lemma {:induction false} PrefixIsGrantable(used: seq<nat>, occupied: set<nat>, limit: nat, count: nat)
    requires count <= |FreeGpus(used, occupied, limit)|
    ensures var ids := FreeGpus(used, occupied, limit)[..count];
      && NoRepeats(ids) && Elements(ids) !! occupied
      && forall d | d in ids :: Idle(used, occupied, limit, d)
  {
    FreeGpusAre(used, occupied, limit);
    var free := FreeGpus(used, occupied, limit);
    assert forall d | d in free[..count] :: d in free;
  }

  class GPUManager {
    const gpuCount: nat
    const maxIdleMem: nat
    var occupiedGpus: set<nat>

    constructor (gpuCount: nat, maxIdleMem: nat)
      ensures this.gpuCount == gpuCount && this.maxIdleMem == maxIdleMem && occupiedGpus == {}
    {
      this.gpuCount, this.maxIdleMem, occupiedGpus := gpuCount, maxIdleMem, {};
    }

    method GetFreeGpuIndices(used: seq<nat>) returns (free: seq<nat>)
      ensures free == FreeGpus(used, occupiedGpus, maxIdleMem)
    {
      free := [];
      for i := 0 to |used|
        invariant free == FreeGpus(used[..i], occupiedGpus, maxIdleMem)
      {
        assert used[..i + 1][..i] == used[..i];
        if used[i] <= maxIdleMem && i !in occupiedGpus { free := free + [i]; }
      }
      assert used[..|used|] == used;
    }

    /** Too large a request is an error; one that cannot be met now gets the empty list. */
    method Allocate(numRequired: nat, used: seq<nat>) returns (tooMany: bool, granted: seq<nat>)
      requires |used| == gpuCount
      modifies this
      ensures tooMany == (numRequired > gpuCount)
      ensures var free := FreeGpus(used, old(occupiedGpus), maxIdleMem);
        granted == if tooMany || |free| < numRequired then [] else free[..numRequired]
      ensures occupiedGpus == old(occupiedGpus) + Elements(granted)
    {
      if numRequired > gpuCount { return true, []; }
      var freeGpus := GetFreeGpuIndices(used);
      if |freeGpus| < numRequired { return false, []; }
      tooMany, granted := false, freeGpus[..numRequired];
      occupiedGpus := occupiedGpus + Elements(granted);
    }

    method Release(gpuIndices: seq<nat>)
      modifies this
      ensures occupiedGpus == old(occupiedGpus) - Elements(gpuIndices)
    {
      for i := 0 to |gpuIndices|
        invariant occupiedGpus == old(occupiedGpus) - Elements(gpuIndices[..i])
      {
        occupiedGpus := occupiedGpus - {gpuIndices[i]};
        assert gpuIndices[..i + 1] == gpuIndices[..i] + [gpuIndices[i]];
      }
      assert gpuIndices[..|gpuIndices|] == gpuIndices;
    }
  }

  class ResourceLease {
    const ids: seq<nat>
    const manager: GPUManager
    var released: bool

    constructor (ids: seq<nat>, manager: GPUManager)
      ensures this.ids == ids && this.manager == manager && !released
    {
      this.ids, this.manager, released := ids, manager, false;
    }

    method Release()
      modifies this, manager
      ensures released
      ensures manager.occupiedGpus == old(manager.occupiedGpus) - if old(released) then {} else Elements(ids)
    {
      if !released {
        manager.Release(ids);
        released := true;
      }
    }
  }

  // ---------------------------------------------------------------- the backend as a state machine

  /** A request with the memory readings at that moment, or a release of the n-th lease ever issued. */
  datatype Op = Allocate(required: nat, used: seq<nat>) | Release(lease: nat)

  predicate OpOk(op: Op, gpuCount: nat) { op.Allocate? ==> |op.used| == gpuCount }

  predicate Granted(s: State, op: Op, limit: nat) {
    op.Allocate? && 0 < op.required <= |op.used| && op.required <= |FreeGpus(op.used, s.taken, limit)|
  }

  function Step(s: State, op: Op, limit: nat): State {
    match op
    case Allocate(required, used) =>
      if Granted(s, op, limit) then
        AfterGrant(s, FreeGpus(used, s.taken, limit)[..required])
      else s
    case Release(i) => AfterRelease(s, i)
  }

  function Steps(s: State, ops: seq<Op>, limit: nat): State {
    if ops == [] then s else Step(Steps(s, ops[..|ops| - 1], limit), ops[|ops| - 1], limit)
  }

  class LocalBackend {
    const manager: GPUManager
    ghost var issued: seq<ResourceLease>

    constructor (manager: GPUManager)
      requires manager.occupiedGpus == {}
      ensures this.manager == manager && Valid() && StateOf() == EMPTY
    {
      this.manager := manager;
      issued := [];
    }

    ghost predicate Valid()
      reads this, manager, issued
    {
      && (forall i | 0 <= i < |issued| :: issued[i].manager == manager)
      && (forall i, j | 0 <= i < j < |issued| :: issued[i] != issued[j])
    }

    ghost function StateOf(): State
      reads this, manager, issued
    {
      State(manager.occupiedGpus,
            seq(|issued|, i requires 0 <= i < |issued| reads this, issued => Lease(issued[i].ids, issued[i].released)))
    }

    method Allocate(required: nat, used: seq<nat>) returns (tooMany: bool, lease: ResourceLease?)
      requires Valid() && |used| == manager.gpuCount
      modifies this, manager
      ensures Valid() && StateOf() == Step(old(StateOf()), Op.Allocate(required, used), manager.maxIdleMem)
      ensures tooMany == (required > manager.gpuCount)
      ensures (lease != null) == Granted(old(StateOf()), Op.Allocate(required, used), manager.maxIdleMem)
      ensures if lease == null then issued == old(issued) else fresh(lease) && issued == old(issued) + [lease]
    {
      hide FreeGpus;
      var ids;
      tooMany, ids := manager.Allocate(required, used);
      if tooMany || |ids| == 0 { return tooMany, null; }
      lease := new ResourceLease(ids, manager);
      issued := issued + [lease];
    }

    /** A lease may be released by its holder at any time, and any number of times. */
    method Release(i: nat, lease: ResourceLease)
      requires Valid() && i < |issued| && issued[i] == lease
      modifies lease, manager
      ensures Valid() && StateOf() == Step(old(StateOf()), Op.Release(i), manager.maxIdleMem)
    {
      ghost var before := StateOf();
      lease.Release();
      assert StateOf().leases == before.leases[i := Lease(lease.ids, true)];
    }
  }

  // ---------------------------------------------------------------- what every run keeps

  lemma StepKeeps(s: State, op: Op, limit: nat)
    requires Consistent(s.taken, s.leases)
    ensures Consistent(Step(s, op, limit).taken, Step(s, op, limit).leases)
  {
    hide Consistent, FreeGpus, NoRepeats;
    match op
    case Allocate(required, used) =>
      if Granted(s, op, limit) {
        PrefixIsGrantable(used, s.taken, limit, required);
        Grant(s.taken, s.leases, FreeGpus(used, s.taken, limit)[..required]);
      }
    case Release(i) =>
      if Outstanding(s.leases, i) { Return(s.taken, s.leases, i); }
  }

  /**
   However requests and releases interleave, outstanding leases share no device, the occupied set is
   exactly the devices they hold, and so it is empty when every lease has been released.
   */
  lemma {:induction false} EveryRunIsConsistent(ops: seq<Op>, limit: nat)
    ensures var s := Steps(EMPTY, ops, limit);
      && Consistent(s.taken, s.leases) && |s.taken| == Held(s.leases)
      && ((forall i | 0 <= i < |s.leases| :: s.leases[i].released) ==> s.taken == {})
  {
    hide Step;
    var s := Steps(EMPTY, ops, limit);
    if ops != [] {
      var init := ops[..|ops| - 1];
      EveryRunIsConsistent(init, limit);
      StepKeeps(Steps(EMPTY, init, limit), ops[|ops| - 1], limit);
    }
    TakenIsHeld(s.taken, s.leases);
  }

  /** No more devices are ever leased than the machine has: whatever is taken is one of them. */
  lemma {:induction false} OnlyExistingDevices(ops: seq<Op>, limit: nat, gpuCount: nat)
    requires forall k | 0 <= k < |ops| :: OpOk(ops[k], gpuCount)
    ensures var s := Steps(EMPTY, ops, limit); (forall d | d in s.taken :: d < gpuCount) && Held(s.leases) <= gpuCount
  {
    hide FreeGpus, Idle, Consistent;
    var s := Steps(EMPTY, ops, limit);
    if ops != [] {
      var op := ops[|ops| - 1];
      OnlyExistingDevices(ops[..|ops| - 1], limit, gpuCount);
      TakenExist(Steps(EMPTY, ops[..|ops| - 1], limit), op, limit, gpuCount);
    }
    EveryRunIsConsistent(ops, limit);
    BoundedSet(s.taken, gpuCount);
  }

  lemma TakenExist(s: State, op: Op, limit: nat, gpuCount: nat)
    requires OpOk(op, gpuCount) && forall d | d in s.taken :: d < gpuCount
    ensures forall d | d in Step(s, op, limit).taken :: d < gpuCount
  {
    hide FreeGpus;
    if Granted(s, op, limit) { PrefixIsGrantable(op.used, s.taken, limit, op.required); }
  }

  lemma {:induction false} BoundedSet(s: set<nat>, bound: nat)
    requires forall d | d in s :: d < bound
    ensures |s| <= bound
  {
    if bound == 0 {
      assert s == {};
    } else {
      BoundedSet(s - {bound - 1}, bound - 1);
      assert s <= s - {bound - 1} + {bound - 1};
      if bound - 1 in s { assert |s - {bound - 1}| == |s| - 1; } else { assert s - {bound - 1} == s; }
    }
  }

  /** A granted lease has the size asked for, and only existing idle devices that nobody held. */
  lemma GrantedLease(s: State, op: Op, limit: nat)
    requires Granted(s, op, limit)
    ensures var after := Step(s, op, limit);
      && |after.leases| == |s.leases| + 1
      && var ids := after.leases[|s.leases|].ids;
         && |ids| == op.required && NoRepeats(ids) && Elements(ids) !! s.taken
         && forall d | d in ids :: Idle(op.used, s.taken, limit, d)
  {
    hide FreeGpus, NoRepeats;
    PrefixIsGrantable(op.used, s.taken, limit, op.required);
  }

  /** A request is refused only for want of devices: too many idle ones are taken or busy. */
  lemma RefusedForWantOfDevices(s: State, op: Op, limit: nat, ids: set<nat>)
    requires op.Allocate? && op.required > 0 && |ids| == op.required
    requires forall d | d in ids :: Idle(op.used, s.taken, limit, d)
    ensures Granted(s, op, limit)
  {
    hide FreeGpus, Idle;
    var free := FreeGpus(op.used, s.taken, limit);
    FreeGpusAre(op.used, s.taken, limit);
    assert forall i, j | 0 <= i < j < |free| :: free[i] != free[j];
    CountDistinct(free);
    assert forall d | d in ids :: d in free;
    assert ids <= Elements(free);
    SubsetSize(ids, Elements(free));
    FreeAtMost(op.used, s.taken, limit);
  }

  lemma {:induction false} FreeAtMost(used: seq<nat>, occupied: set<nat>, limit: nat)
    ensures |FreeGpus(used, occupied, limit)| <= |used|
  {
    if used != [] { FreeAtMost(used[..|used| - 1], occupied, limit); }
  }

  // ---------------------------------------------------------------- leases are kept, once

  /** A lease that was released stays so, and releasing it again changes nothing, whatever came between. */
  lemma {:induction false} SecondReleaseChangesNothing(s: State, ops: seq<Op>, limit: nat, i: nat)
    requires i < |s.leases| && s.leases[i].released
    ensures var after := Steps(s, ops, limit);
      i < |after.leases| && after.leases[i] == s.leases[i] && Step(after, Release(i), limit) == after
  {
    hide FreeGpus;
    if ops != [] { SecondReleaseChangesNothing(s, ops[..|ops| - 1], limit, i); }
  }

  /** Until its holder releases it, nothing anyone does takes a device from a lease or grants it again. */
  lemma {:induction false} HeldUntilReleased(s: State, ops: seq<Op>, limit: nat, i: nat)
    requires Consistent(s.taken, s.leases) && Outstanding(s.leases, i)
    requires forall k | 0 <= k < |ops| :: ops[k] != Release(i)
    ensures var after := Steps(s, ops, limit);
      && Consistent(after.taken, after.leases) && |s.leases| <= |after.leases|
      && Outstanding(after.leases, i) && after.leases[i] == s.leases[i]
      && Elements(s.leases[i].ids) <= after.taken
      && forall j | |s.leases| <= j < |after.leases| :: Apart(after.leases[j].ids, s.leases[i].ids)
  {
    hide FreeGpus, Consistent, Apart;
    HeldIds(s.taken, s.leases, i);
    if ops != [] {
      var init, op := ops[..|ops| - 1], ops[|ops| - 1];
      HeldUntilReleased(s, init, limit, i);
      var before := Steps(s, init, limit);
      StepKeeps(before, op, limit);
      HeldIds(Step(before, op, limit).taken, Step(before, op, limit).leases, i);
      NewLeaseIsApart(before, op, limit, i);
    }
  }

  lemma NewLeaseIsApart(s: State, op: Op, limit: nat, i: nat)
    requires Consistent(s.taken, s.leases) && Outstanding(s.leases, i) && op != Release(i)
    ensures var after := Step(s, op, limit);
      && |s.leases| <= |after.leases| && Outstanding(after.leases, i)
      && (forall j | 0 <= j < |s.leases| :: after.leases[j].ids == s.leases[j].ids)
      && (forall j | |s.leases| <= j < |after.leases| :: Apart(after.leases[j].ids, s.leases[i].ids))
  {
    hide FreeGpus, Consistent, NoRepeats;
    HeldIds(s.taken, s.leases, i);
    if Granted(s, op, limit) {
      GrantedLease(s, op, limit);
      var ids := Step(s, op, limit).leases[|s.leases|].ids;
      assert forall d | d in ids :: d in Elements(ids);
      assert forall d | d in s.leases[i].ids :: d in Elements(s.leases[i].ids);
    }
  }
}
