/** Whole-node leases on a cluster: the node manager, and the backend that splits a request over nodes. */
module ClusterLeases {
  import opened Arith
  import opened LeaseBook
  import opened Wrappers

  const GPU_PER_NODE: nat := 8

  // ---------------------------------------------------------------- nodes

  function FreeNodes(count: nat, occupied: set<nat>): seq<nat> {
    if count == 0 then []
    else
      var before := FreeNodes(count - 1, occupied);
      if count - 1 in occupied then before else before + [count - 1]
  }

  lemma {:induction false} FreeNode(count: nat, occupied: set<nat>, d: nat)
    ensures d in FreeNodes(count, occupied) <==> d < count && d !in occupied
  {
    if count > 0 { FreeNode(count - 1, occupied, d); }
  }

  lemma {:induction false} FreeNodesRepeatNothing(count: nat, occupied: set<nat>)
    ensures NoRepeats(FreeNodes(count, occupied))
  {
    if count > 0 {
      FreeNodesRepeatNothing(count - 1, occupied);
      FreeNode(count - 1, occupied, count - 1);
    }
  }

  lemma {:induction false} AllNodesFree(count: nat)
    ensures FreeNodes(count, {}) == seq(count, i => i)
  {
    if count > 0 { AllNodesFree(count - 1); }
  }

  lemma {:induction false} NodesAreGrantable(count: nat, occupied: set<nat>, needed: nat)
    requires needed <= |FreeNodes(count, occupied)|
    ensures NoRepeats(FreeNodes(count, occupied)[..needed])
      && Elements(FreeNodes(count, occupied)[..needed]) !! occupied
  {
    var free := FreeNodes(count, occupied);
    FreeNodesRepeatNothing(count, occupied);
    forall d | d in free[..needed]
      ensures d !in occupied
    {
      assert d in free;
      FreeNode(count, occupied, d);
    }
  }

  function NeededNodes(required: nat): nat { (required + GPU_PER_NODE - 1) / GPU_PER_NODE }

  function GrantedNodes(count: nat, occupied: set<nat>, required: nat): seq<nat> {
    var free := FreeNodes(count, occupied);
    if required > count * GPU_PER_NODE || 0 in occupied || |free| < NeededNodes(required) then []
    else free[..NeededNodes(required)]
  }

  class MPClusterManager {
    const nodeCount: nat
    var occupiedNodes: set<nat>

    constructor (nodeCount: nat)
      ensures this.nodeCount == nodeCount && occupiedNodes == {}
    {
      this.nodeCount, occupiedNodes := nodeCount, {};
    }

    method GetFreeNodes() returns (free: seq<nat>)
      ensures free == FreeNodes(nodeCount, occupiedNodes)
    {
      free := [];
      for i := 0 to nodeCount
        invariant free == FreeNodes(i, occupiedNodes)
      {
        if i !in occupiedNodes { free := free + [i]; }
      }
    }

    method Allocate(numRequired: nat) returns (tooMany: bool, ids: seq<nat>)
      modifies this
      ensures tooMany == (numRequired > nodeCount * GPU_PER_NODE)
      ensures ids == GrantedNodes(nodeCount, old(occupiedNodes), numRequired)
      ensures occupiedNodes == old(occupiedNodes) + Elements(ids)
    {
      if numRequired > nodeCount * GPU_PER_NODE { return true, []; }
      var neededNodes := (numRequired + GPU_PER_NODE - 1) / GPU_PER_NODE;
      if 0 in occupiedNodes { return false, []; }
      var freeNodes := GetFreeNodes();
      if |freeNodes| < neededNodes { return false, []; }
      tooMany, ids := false, freeNodes[..neededNodes];
      occupiedNodes := occupiedNodes + Elements(ids);
    }

    method Release(relatedNodes: seq<nat>)
      modifies this
      ensures occupiedNodes == old(occupiedNodes) - Elements(relatedNodes)
    {
      for i := 0 to |relatedNodes|
        invariant occupiedNodes == old(occupiedNodes) - Elements(relatedNodes[..i])
      {
        occupiedNodes := occupiedNodes - {relatedNodes[i]};
        assert relatedNodes[..i + 1] == relatedNodes[..i] + [relatedNodes[i]];
      }
      assert relatedNodes[..|relatedNodes|] == relatedNodes;
    }
  }

  // ---------------------------------------------------------------- splitting a request

  /** On each of its nodes a lease uses the devices 0 .. gpus - 1. */
  datatype NodeAllocation = NodeAllocation(nodeId: nat, gpus: nat)

  function Min(a: nat, b: nat): nat { if a < b then a else b }

  function Split(ids: seq<nat>, remaining: nat): seq<NodeAllocation> {
    if ids == [] then []
    else
      var count := Min(GPU_PER_NODE, remaining);
      [NodeAllocation(ids[0], count)] + Split(ids[1..], remaining - count)
  }

  function TotalGpus(nodes: seq<NodeAllocation>): nat {
    if nodes == [] then 0 else nodes[0].gpus + TotalGpus(nodes[1..])
  }

  lemma {:induction false} SplitAppend(ids: seq<nat>, remaining: nat, last: nat)
    ensures TotalGpus(Split(ids, remaining)) <= remaining
    ensures var left := remaining - TotalGpus(Split(ids, remaining));
      Split(ids + [last], remaining) == Split(ids, remaining) + [NodeAllocation(last, Min(GPU_PER_NODE, left))]
    ensures var left := remaining - TotalGpus(Split(ids, remaining));
      TotalGpus(Split(ids + [last], remaining)) == TotalGpus(Split(ids, remaining)) + Min(GPU_PER_NODE, left)
  {
    if ids == [] {
      assert [] + [last] == [last];
    } else {
      var count := Min(GPU_PER_NODE, remaining);
      var first, rest := [NodeAllocation(ids[0], count)], Split(ids[1..], remaining - count);
      SplitAppend(ids[1..], remaining - count, last);
      assert (ids + [last])[1..] == ids[1..] + [last];
      assert Split(ids, remaining) == first + rest;
      assert Split(ids + [last], remaining) == first + Split(ids[1..] + [last], remaining - count);
    }
  }

  /** The node counts add up to the request; every node but the last is used in full, and none for nothing. */
  lemma {:induction false} SplitFillsNodes(ids: seq<nat>, required: nat)
    requires required > 0 && |ids| == NeededNodes(required)
    ensures var nodes := Split(ids, required);
      && |nodes| == |ids| && TotalGpus(nodes) == required
      && (forall k | 0 <= k < |nodes| :: nodes[k].nodeId == ids[k] && 0 < nodes[k].gpus <= GPU_PER_NODE)
      && (forall k | 0 <= k < |nodes| - 1 :: nodes[k].gpus == GPU_PER_NODE)
  {
    if required <= GPU_PER_NODE {
      assert ids == [ids[0]];
    } else {
      SplitFillsNodes(ids[1..], required - GPU_PER_NODE);
    }
  }

  // ---------------------------------------------------------------- the backend as a state machine

  /** A request, with the position of the node at which building the lease raises, if any; or a release. */
  datatype Op = Allocate(required: nat, failAt: Option<nat>) | Release(lease: nat)

  datatype Outcome = TooMany | Refused | Rank0NotLocal | BuildFailed | Leased(nodes: seq<NodeAllocation>)

  function OutcomeOf(s: State, required: nat, failAt: Option<nat>, nodeCount: nat): Outcome {
    var ids := GrantedNodes(nodeCount, s.taken, required);
    if required > nodeCount * GPU_PER_NODE then TooMany
    else if ids == [] then Refused
    else if ids[0] != 0 then Rank0NotLocal
    else if failAt.Some? && failAt.value < |ids| then BuildFailed
    else Leased(Split(ids, required))
  }

  function Step(s: State, op: Op, nodeCount: nat): State {
    match op
    case Allocate(required, failAt) =>
      if OutcomeOf(s, required, failAt, nodeCount).Leased?
      then AfterGrant(s, GrantedNodes(nodeCount, s.taken, required))
      else s
    case Release(i) => AfterRelease(s, i)
  }

  function Steps(s: State, ops: seq<Op>, nodeCount: nat): State {
    if ops == [] then s else Step(Steps(s, ops[..|ops| - 1], nodeCount), ops[|ops| - 1], nodeCount)
  }

  class ClusterLease {
    const nodes: seq<NodeAllocation>
    const ids: seq<nat>
    const manager: MPClusterManager
    var released: bool

    constructor (nodes: seq<NodeAllocation>, ids: seq<nat>, manager: MPClusterManager)
      ensures this.nodes == nodes && this.ids == ids && this.manager == manager && !released
    {
      this.nodes, this.ids, this.manager, released := nodes, ids, manager, false;
    }

    method Release()
      modifies this, manager
      ensures released
      ensures manager.occupiedNodes == old(manager.occupiedNodes) - if old(released) then {} else Elements(ids)
    {
      if !released {
        manager.Release(ids);
        released := true;
      }
    }
  }

  class ClusterBackend {
    const manager: MPClusterManager
    ghost var issued: seq<ClusterLease>

    constructor (manager: MPClusterManager)
      requires manager.occupiedNodes == {}
      ensures this.manager == manager && Valid() && StateOf() == EMPTY
    {
      this.manager := manager;
      issued := [];
    }

    ghost predicate Valid()
      reads this, manager, issued
    {
      && (forall i | 0 <= i < |issued| :: issued[i].manager == manager)
      && (forall i, j | 0 <= i < j < |issued| :: issued[i] != issued[j])
    }

    ghost function StateOf(): State
      reads this, manager, issued
    {
      State(manager.occupiedNodes,
            seq(|issued|, i requires 0 <= i < |issued| reads this, issued => Lease(issued[i].ids, issued[i].released)))
    }

    method BuildNodes(ids: seq<nat>, required: nat, failAt: Option<nat>)
      returns (raised: bool, nodes: seq<NodeAllocation>)
      ensures raised == (failAt.Some? && failAt.value < |ids|)
      ensures !raised ==> nodes == Split(ids, required)
    {
      nodes, raised := [], false;
      var remaining := required;
      for i := 0 to |ids|
        invariant failAt.Some? ==> i <= failAt.value
        invariant nodes == Split(ids[..i], required) && remaining == required - TotalGpus(nodes)
      {
        if failAt == Some(i) { return true, nodes; }
        var count := Min(GPU_PER_NODE, remaining);
        SplitAppend(ids[..i], required, ids[i]);
        assert ids[..i + 1] == ids[..i] + [ids[i]];
        nodes := nodes + [NodeAllocation(ids[i], count)];
        remaining := remaining - count;
      }
      assert ids[..|ids|] == ids;
    }

    /** Whatever is raised after the nodes were reserved, they are given back first. */
    method Allocate(required: nat, failAt: Option<nat>) returns (outcome: Outcome, lease: ClusterLease?)
      requires Valid()
      modifies this, manager
      ensures Valid() && StateOf() == Step(old(StateOf()), Op.Allocate(required, failAt), manager.nodeCount)
      ensures outcome == OutcomeOf(old(StateOf()), required, failAt, manager.nodeCount)
      ensures (lease != null) == outcome.Leased?
      ensures if lease == null then issued == old(issued)
              else fresh(lease) && lease.nodes == outcome.nodes && issued == old(issued) + [lease]
    {
      hide Elements, Split, GrantedNodes;
      ghost var before := manager.occupiedNodes;
      var tooMany, ids := manager.Allocate(required);
      if tooMany {
        TooManyGetsNothing(manager.nodeCount, before, required);
        return TooMany, null;
      }
      NothingElse(before, manager.nodeCount, required);
      if |ids| == 0 { return Refused, null; }
      if ids[0] != 0 {
        manager.Release(ids);
        return Rank0NotLocal, null;
      }
      var raised, nodes := BuildNodes(ids, required, failAt);
      if raised {
        manager.Release(ids);
        return BuildFailed, null;
      }
      lease := new ClusterLease(nodes, ids, manager);
      issued := issued + [lease];
      return Leased(nodes), lease;
    }

    method Release(i: nat, lease: ClusterLease)
      requires Valid() && i < |issued| && issued[i] == lease
      modifies lease, manager
      ensures Valid() && StateOf() == Step(old(StateOf()), Op.Release(i), manager.nodeCount)
    {
      ghost var before := StateOf();
      lease.Release();
      assert StateOf().leases == before.leases[i := Lease(lease.ids, true)];
    }
  }

  lemma TooManyGetsNothing(nodeCount: nat, occupied: set<nat>, required: nat)
    requires required > nodeCount * GPU_PER_NODE
    ensures GrantedNodes(nodeCount, occupied, required) == [] && Elements([]) == {}
  {
  }

  /** Reserving and giving back leaves the set as it was. */
  lemma NothingElse(occupied: set<nat>, nodeCount: nat, required: nat)
    ensures var ids := Elements(GrantedNodes(nodeCount, occupied, required)); occupied + ids - ids == occupied
    ensures GrantedNodes(nodeCount, occupied, required) == [] ==>
      Elements(GrantedNodes(nodeCount, occupied, required)) == {}
  {
    GrantedAreFree(occupied, nodeCount, required);
  }

  lemma GrantedAreFree(occupied: set<nat>, nodeCount: nat, required: nat)
    ensures var ids := GrantedNodes(nodeCount, occupied, required); NoRepeats(ids) && Elements(ids) !! occupied
  {
    hide FreeNodes;
    var free := FreeNodes(nodeCount, occupied);
    if NeededNodes(required) <= |free| { NodesAreGrantable(nodeCount, occupied, NeededNodes(required)); }
  }

  // ---------------------------------------------------------------- what every run keeps

  /** Every outstanding lease starts at node 0. */
  ghost predicate Inv(s: State) {
    && Consistent(s.taken, s.leases)
    && forall i: nat | Outstanding(s.leases, i) :: |s.leases[i].ids| > 0 && s.leases[i].ids[0] == 0
  }

  lemma NotApart(a: seq<nat>, b: seq<nat>)
    requires |a| > 0 && |b| > 0 && a[0] == b[0]
    ensures !Apart(a, b)
  {
    assert a[0] in a && a[0] in b;
  }

  /** So there is at most one, and without one no node is taken. */
  lemma AtMostOneLease(s: State)
    requires Inv(s)
    ensures forall i: nat, j: nat | Outstanding(s.leases, i) && Outstanding(s.leases, j) :: i == j
    ensures (0 in s.taken <==> exists i: nat :: Outstanding(s.leases, i)) && (0 !in s.taken ==> s.taken == {})
  {
    forall i: nat, j: nat | Outstanding(s.leases, i) && Outstanding(s.leases, j)
      ensures i == j
    {
      var a, b := s.leases[i].ids, s.leases[j].ids;
      NotApart(a, b);
      NotApart(b, a);
    }
    forall i: nat | Outstanding(s.leases, i)
      ensures 0 in s.taken
    {
      assert s.leases[i].ids[0] in Elements(s.leases[i].ids);
    }
  }

  lemma StepKeeps(s: State, op: Op, nodeCount: nat)
    requires Inv(s)
    ensures Inv(Step(s, op, nodeCount))
  {
    hide GrantedNodes, Split, Consistent, Elements;
    var after := Step(s, op, nodeCount);
    match op
    case Allocate(required, failAt) =>
      var ids := GrantedNodes(nodeCount, s.taken, required);
      GrantedAreFree(s.taken, nodeCount, required);
      Grant(s.taken, s.leases, ids);
      assert forall i: nat | Outstanding(after.leases, i) :: i < |s.leases| ==> Outstanding(s.leases, i);
    case Release(r) =>
      if Outstanding(s.leases, r) { Return(s.taken, s.leases, r); }
      assert forall i: nat | Outstanding(after.leases, i) :: Outstanding(s.leases, i) && after.leases[i] == s.leases[i];
  }

  /** Over every sequence of requests, failures and releases there is never a second lease. */
  lemma {:induction false} EveryRunHasOneLease(ops: seq<Op>, nodeCount: nat)
    ensures var s := Steps(EMPTY, ops, nodeCount);
      && Inv(s) && |s.taken| == Held(s.leases)
      && forall i: nat, j: nat | Outstanding(s.leases, i) && Outstanding(s.leases, j) :: i == j
  {
    hide Step, Consistent;
    var s := Steps(EMPTY, ops, nodeCount);
    if ops == [] {
      NothingTaken();
    } else {
      EveryRunHasOneLease(ops[..|ops| - 1], nodeCount);
      StepKeeps(Steps(EMPTY, ops[..|ops| - 1], nodeCount), ops[|ops| - 1], nodeCount);
    }
    AtMostOneLease(s);
    TakenIsHeld(s.taken, s.leases);
  }

  lemma NothingTaken()
    ensures Inv(EMPTY)
  {
  }

  /**
   A possible request is refused exactly while a lease is out. Otherwise it gets the nodes from 0
   upwards, so neither the check for a local rank 0 nor the one for too few nodes ever fires.
   */
  lemma RequestsGetTheFirstNodes(s: State, required: nat, failAt: Option<nat>, nodeCount: nat)
    requires Inv(s) && 0 < required <= nodeCount * GPU_PER_NODE
    ensures var outcome := OutcomeOf(s, required, failAt, nodeCount);
      && !outcome.Rank0NotLocal? && !outcome.TooMany?
      && (outcome.Refused? <==> exists i: nat :: Outstanding(s.leases, i))
      && (outcome.Leased? ==>
            && |outcome.nodes| == NeededNodes(required) && TotalGpus(outcome.nodes) == required
            && (forall k | 0 <= k < |outcome.nodes| :: outcome.nodes[k].nodeId == k && outcome.nodes[k].gpus > 0)
            && (forall k | 0 <= k < |outcome.nodes| - 1 :: outcome.nodes[k].gpus == GPU_PER_NODE))
  {
    hide Split, FreeNodes, Inv, TotalGpus, Consistent, Outstanding;
    AtMostOneLease(s);
    if 0 !in s.taken {
      AllNodesFree(nodeCount);
      var ids := GrantedNodes(nodeCount, s.taken, required);
      assert NeededNodes(required) <= nodeCount;
      assert ids == seq(nodeCount, i => i)[..NeededNodes(required)];
      assert forall k | 0 <= k < |ids| :: ids[k] == k;
      SplitFillsNodes(ids, required);
    }
  }
}
