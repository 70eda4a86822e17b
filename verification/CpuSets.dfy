/**
  CPU sets for the core roles, built from a number of cores per role and NUMA node.
 */
module CpuSets {
  import opened Options
  import opened CpuWalk

  const WORD := 0x1_0000_0000
  const ROLES := 9

  /** How many cores a role asks for on each node. */
  datatype Description = Description(role: nat, counts: seq<nat>)

  predicate ValidTopology(topo: Topology, maxNodes: nat) {
    && |topo| < WORD
    && forall c :: 0 <= c < |topo| && topo[c].Some? ==> topo[c].value < maxNodes
  }

  predicate ValidDescriptions(descs: seq<Description>, maxNodes: nat) {
    forall d :: 0 <= d < |descs| ==> descs[d].role < ROLES && |descs[d].counts| == maxNodes
  }

  /** The points met in `k` steps from `x`. */
  ghost function Visited(f: nat -> nat, x: nat, k: nat): (r: set<nat>) {
    if k == 0 then {} else Visited(f, x, k - 1) + {Iterate(f, x, k - 1)}
  }

  ghost function WalkSet(topo: Topology, cpu: nat, k: nat): (r: set<nat>) { Visited(Step(topo), cpu, k) }

  class CpuSetGenerator {
    const topo: Topology
    const firstCore: array<nat>
    var cpuSets: seq<set<nat>>

    ghost predicate Valid()
      reads this, firstCore
    {
      && |cpuSets| == ROLES
      && ValidTopology(topo, firstCore.Length)
      && forall node :: 0 <= node < firstCore.Length ==> firstCore[node] == FirstCore(topo, node)
    }

    constructor (topo: Topology, maxNodes: nat)
      requires ValidTopology(topo, maxNodes)
      ensures Valid() && this.topo == topo && firstCore.Length == maxNodes && fresh(firstCore)
      ensures forall role :: 0 <= role < ROLES ==> cpuSets[role] == {}
    {
      this.topo := topo;
      firstCore := new nat[maxNodes](_ => 0);
      cpuSets := seq(ROLES, _ => {});
      new;
      SetNumaInformation();
    }

    method SetNumaInformation()
      requires ValidTopology(topo, firstCore.Length)
      requires forall node :: 0 <= node < firstCore.Length ==> firstCore[node] == 0
      modifies firstCore
      ensures forall node :: 0 <= node < firstCore.Length ==> firstCore[node] == FirstCore(topo, node)
    {
      var found := new bool[firstCore.Length](_ => false);
      forall node: nat ensures var c := Seek(topo, node, 0); c <= |topo| && (c < |topo| ==> topo[c] == Some(node)) {
        SeekFinds(topo, node, 0);
      }
      for cpu := 0 to |topo|
        invariant forall node :: 0 <= node < firstCore.Length ==> found[node] == (Seek(topo, node, 0) < cpu)
        invariant forall node :: 0 <= node < firstCore.Length ==>
          firstCore[node] == if found[node] then Seek(topo, node, 0) else 0
      {
        if topo[cpu].Some? {
          var numa := topo[cpu].value;
          if !found[numa] {
            SeekFinds(topo, numa, 0);
            firstCore[numa] := cpu;
            found[numa] := true;
          }
        }
      }
    }

    /** The do-while search for the next core; it ends because it wraps to a core of the node. */
    method GetNextCpuFromThisNuma(cpu: nat) returns (r: nat)
      requires Valid()
      ensures r == Next(topo, cpu)
    {
      if NodeOf(topo, cpu).None? { return 0; }
      var numa := NodeOf(topo, cpu).value;
      ghost var first := Seek(topo, numa, 0);
      SeekFinds(topo, numa, 0);
      r := cpu + 1;
      if r >= |topo| { r := firstCore[numa]; }
      while NodeOf(topo, r) != Some(numa)
        invariant r < |topo|
        invariant
          || (r > cpu && Seek(topo, numa, r) == Seek(topo, numa, cpu + 1))
          || (r == first && Seek(topo, numa, cpu + 1) == |topo|)
        decreases if NodeOf(topo, r) == Some(numa) then 0 else |topo| - r
      {
        r := r + 1;
        if r >= |topo| { r := firstCore[numa]; }
      }
    }

    method CalculateCoreSet(startCore: nat, coreCount: nat) returns (cpuSet: set<nat>, nextCore: nat)
      requires Valid()
      ensures cpuSet == WalkSet(topo, startCore, coreCount) && nextCore == Walk(topo, startCore, coreCount)
    {
      cpuSet, nextCore := {}, startCore;
      for i := 0 to coreCount
        invariant cpuSet == WalkSet(topo, startCore, i) && nextCore == Walk(topo, startCore, i)
      {
        cpuSet := cpuSet + {nextCore};
        nextCore := GetNextCpuFromThisNuma(nextCore);
      }
    }

    method AddCoreSet(startCore: nat, coreCount: nat, role: nat) returns (nextCore: nat)
      requires Valid() && role < ROLES
      modifies this`cpuSets
      ensures Valid() && nextCore == Walk(topo, startCore, coreCount)
      ensures cpuSets[role] == old(cpuSets[role]) + WalkSet(topo, startCore, coreCount)
      ensures forall other :: 0 <= other < ROLES && other != role ==> cpuSets[other] == old(cpuSets[other])
    {
      var result;
      result, nextCore := CalculateCoreSet(startCore, coreCount);
      cpuSets := cpuSets[role := result + cpuSets[role]];
    }
  }

  // --- The sets built from counts --------------------------------------------------------------------------

  /** How many cores the first `d` descriptions ask for on `node`. */
  function Asked(descs: seq<Description>, node: nat, d: nat): (r: nat)
    requires d <= |descs| && forall k :: 0 <= k < |descs| ==> node < |descs[k].counts|
  {
    if d == 0 then 0 else Asked(descs, node, d - 1) + descs[d - 1].counts[node]
  }

  /** How many cores the first `d` descriptions ask for `role` on `node`. */
  function AskedFor(descs: seq<Description>, node: nat, d: nat, role: nat): (r: nat)
    requires d <= |descs| && forall k :: 0 <= k < |descs| ==> node < |descs[k].counts|
  {
    if d == 0 then 0
    else AskedFor(descs, node, d - 1, role) + if descs[d - 1].role == role then descs[d - 1].counts[node] else 0
  }

  /** The core at which description `d` starts on `node`: where the one before it stopped. */
  function Start(topo: Topology, descs: seq<Description>, node: nat, d: nat): (r: nat)
    requires d <= |descs| && forall k :: 0 <= k < |descs| ==> node < |descs[k].counts|
    decreases d
  {
    if d == 0 then FirstCore(topo, node)
    else Walk(topo, Start(topo, descs, node, d - 1), descs[d - 1].counts[node])
  }

  ghost function Portion(topo: Topology, descs: seq<Description>, node: nat, d: nat): (r: set<nat>)
    requires d < |descs| && forall k :: 0 <= k < |descs| ==> node < |descs[k].counts|
  {
    WalkSet(topo, Start(topo, descs, node, d), descs[d].counts[node])
  }

  /** The cores of `node` that the first `d` descriptions give to `role`. */
  ghost function NodeShare(topo: Topology, descs: seq<Description>, node: nat, d: nat, role: nat): (r: set<nat>)
    requires d <= |descs| && forall k :: 0 <= k < |descs| ==> node < |descs[k].counts|
  {
    if d == 0 then {}
    else if descs[d - 1].role != role then NodeShare(topo, descs, node, d - 1, role)
    else NodeShare(topo, descs, node, d - 1, role) + Portion(topo, descs, node, d - 1)
  }

  ghost function Share(topo: Topology, descs: seq<Description>, nodes: nat, role: nat): (r: set<nat>)
    requires forall k :: 0 <= k < |descs| ==> nodes <= |descs[k].counts|
  {
    if nodes == 0 then {}
    else Share(topo, descs, nodes - 1, role) + NodeShare(topo, descs, nodes - 1, |descs|, role)
  }

  method AddNode(g: CpuSetGenerator, numa: nat, descs: seq<Description>)
    requires g.Valid() && numa < g.firstCore.Length && ValidDescriptions(descs, g.firstCore.Length)
    modifies g`cpuSets
    ensures g.Valid()
    ensures forall role :: 0 <= role < ROLES ==>
      g.cpuSets[role] == old(g.cpuSets[role]) + NodeShare(g.topo, descs, numa, |descs|, role)
  {
    var startCore := g.firstCore[numa];
    for d := 0 to |descs|
      invariant g.Valid()
      invariant startCore == Start(g.topo, descs, numa, d)
      invariant forall role :: 0 <= role < ROLES ==>
        g.cpuSets[role] == old(g.cpuSets[role]) + NodeShare(g.topo, descs, numa, d, role)
    {
      var count := descs[d].counts[numa];
      ghost var was := g.cpuSets;
      startCore := g.AddCoreSet(startCore, count, descs[d].role);
      forall role | 0 <= role < ROLES
        ensures g.cpuSets[role] == old(g.cpuSets[role]) + NodeShare(g.topo, descs, numa, d + 1, role)
      {
        assert g.cpuSets[role]
            == if role == descs[d].role then was[role] + Portion(g.topo, descs, numa, d) else was[role];
      }
    }
  }

  method CountDescriptedCpuSetGenerator(topo: Topology, numaCount: nat, maxNodes: nat, descs: seq<Description>)
    returns (g: CpuSetGenerator)
    requires ValidTopology(topo, maxNodes) && ValidDescriptions(descs, maxNodes) && numaCount <= maxNodes
    ensures fresh(g) && |g.cpuSets| == ROLES
    ensures forall role :: 0 <= role < ROLES ==> g.cpuSets[role] == Share(topo, descs, numaCount, role)
  {
    g := new CpuSetGenerator(topo, maxNodes);
    for numa := 0 to numaCount
      invariant g.Valid() && fresh(g) && g.topo == topo && g.firstCore.Length == maxNodes
      invariant forall role :: 0 <= role < ROLES ==> g.cpuSets[role] == Share(topo, descs, numa, role)
    {
      AddNode(g, numa, descs);
    }
  }
}
