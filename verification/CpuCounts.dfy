/**
  When the cores suffice: the check made before sets are built from counts, and what it guarantees.
 */
module CpuCounts {
  import opened Options
  import opened CpuWalk
  import opened CpuSets
  import opened Sums

  class AffinityManager {
    const numaCount: nat
    const topo: Topology
    const totalNumaSystemCoreCount: array<nat>
    const totalNumaDescriptedCoreCount: array<nat>

    constructor (topo: Topology, numaCount: nat, maxNodes: nat, descs: seq<Description>)
      requires ValidTopology(topo, maxNodes) && ValidDescriptions(descs, maxNodes) && numaCount <= maxNodes
      ensures this.numaCount == numaCount && this.topo == topo && Counted(descs, maxNodes)
    {
      this.topo, this.numaCount := topo, numaCount;
      totalNumaSystemCoreCount := new nat[maxNodes](_ => 0);
      totalNumaDescriptedCoreCount := new nat[maxNodes](_ => 0);
      new;
      CountSystemCores(maxNodes);
      CountDescriptedCores(descs, maxNodes);
    }

    /** The 32-bit counters hold the cores of each node and, modulo 2^32, what is asked of it. */
    ghost predicate Counted(descs: seq<Description>, maxNodes: nat)
      requires ValidDescriptions(descs, maxNodes)
      reads totalNumaSystemCoreCount, totalNumaDescriptedCoreCount
    {
      && numaCount <= maxNodes == totalNumaSystemCoreCount.Length == totalNumaDescriptedCoreCount.Length
      && (forall n :: 0 <= n < maxNodes ==> totalNumaSystemCoreCount[n] == |Cores(topo, n)|)
      && forall n :: 0 <= n < maxNodes ==> totalNumaDescriptedCoreCount[n] == Asked(descs, n, |descs|) % WORD
    }

    method CountSystemCores(maxNodes: nat)
      requires ValidTopology(topo, maxNodes) && totalNumaSystemCoreCount.Length == maxNodes
      requires forall n :: 0 <= n < maxNodes ==> totalNumaSystemCoreCount[n] == 0
      modifies totalNumaSystemCoreCount
      ensures forall n :: 0 <= n < maxNodes ==> totalNumaSystemCoreCount[n] == |Cores(topo, n)|
    {
      for cpu := 0 to |topo|
        invariant forall n :: 0 <= n < maxNodes ==> totalNumaSystemCoreCount[n] == |CoresBelow(topo, n, cpu)|
      {
        if topo[cpu].Some? {
          var numa := topo[cpu].value;
          totalNumaSystemCoreCount[numa] := totalNumaSystemCoreCount[numa] + 1;
        }
      }
    }

    method CountDescriptedCores(descs: seq<Description>, maxNodes: nat)
      requires ValidDescriptions(descs, maxNodes) && totalNumaDescriptedCoreCount.Length == maxNodes
      requires forall n :: 0 <= n < maxNodes ==> totalNumaDescriptedCoreCount[n] == 0
      modifies totalNumaDescriptedCoreCount
      ensures forall n :: 0 <= n < maxNodes ==> totalNumaDescriptedCoreCount[n] == Asked(descs, n, |descs|) % WORD
    {
      for d := 0 to |descs|
        invariant forall n :: 0 <= n < maxNodes ==> totalNumaDescriptedCoreCount[n] == Asked(descs, n, d) % WORD
      {
        for numa := 0 to maxNodes
          invariant forall n :: 0 <= n < numa ==> totalNumaDescriptedCoreCount[n] == Asked(descs, n, d + 1) % WORD
          invariant forall n :: numa <= n < maxNodes ==> totalNumaDescriptedCoreCount[n] == Asked(descs, n, d) % WORD
        {
          AddWraps(Asked(descs, numa, d), descs[d].counts[numa]);
          totalNumaDescriptedCoreCount[numa] := (totalNumaDescriptedCoreCount[numa] + descs[d].counts[numa]) % WORD;
        }
      }
    }

    method IsCoreSufficient(ghost descs: seq<Description>, ghost maxNodes: nat) returns (r: bool)
      requires ValidDescriptions(descs, maxNodes) && Counted(descs, maxNodes)
      ensures r <==> FoundSufficient(topo, descs, numaCount)
    {
      for numa := 0 to numaCount
        invariant FoundSufficient(topo, descs, numa)
      {
        if totalNumaSystemCoreCount[numa] < totalNumaDescriptedCoreCount[numa] {
          assert !FoundAt(topo, descs, numa);
          return false;
        }
        assert FoundAt(topo, descs, numa);
      }
      return true;
    }
  }

  predicate Covers(descs: seq<Description>, nodes: nat) {
    forall k :: 0 <= k < |descs| ==> nodes <= |descs[k].counts|
  }

  predicate FoundAt(topo: Topology, descs: seq<Description>, node: nat)
    requires Covers(descs, node + 1)
  {
    Asked(descs, node, |descs|) % WORD <= |Cores(topo, node)|
  }

  /** What the check answers. */
  predicate FoundSufficient(topo: Topology, descs: seq<Description>, nodes: nat)
    requires Covers(descs, nodes)
  {
    forall node :: 0 <= node < nodes ==> FoundAt(topo, descs, node)
  }

  /** What the check is for: no node is asked for more cores than it has. */
  ghost predicate Sufficient(topo: Topology, descs: seq<Description>, nodes: nat)
    requires Covers(descs, nodes)
  {
    forall node :: 0 <= node < nodes ==> SufficientAt(topo, descs, node)
  }

  ghost predicate SufficientAt(topo: Topology, descs: seq<Description>, node: nat)
    requires Covers(descs, node + 1)
  {
    Asked(descs, node, |descs|) <= |Cores(topo, node)|
  }

  predicate FitsWord(descs: seq<Description>, node: nat)
    requires Covers(descs, node + 1)
  {
    Asked(descs, node, |descs|) < WORD
  }

  lemma {:induction false} AddWraps(x: nat, y: nat)
    ensures (x % WORD + y) % WORD == (x + y) % WORD
  {
    assert x + y == x / WORD * WORD + (x % WORD + y);
  }

  lemma {:induction false} FewCores(topo: Topology, node: nat, n: nat)
    requires n <= |topo|
    ensures |CoresBelow(topo, node, n)| <= n
  {
    if n > 0 { FewCores(topo, node, n - 1); }
  }

  /** The cores suffice exactly when the check says so and no node's total reaches 2^32. */
  lemma {:induction false} CheckIsExact(topo: Topology, descs: seq<Description>, nodes: nat)
    requires |topo| < WORD && Covers(descs, nodes)
    ensures Sufficient(topo, descs, nodes) <==>
            FoundSufficient(topo, descs, nodes) && forall n :: 0 <= n < nodes ==> FitsWord(descs, n)
  {
    forall n | 0 <= n < nodes
      ensures SufficientAt(topo, descs, n) <==> FoundAt(topo, descs, n) && FitsWord(descs, n)
    {
      FewCores(topo, n, |topo|);
    }
  }

  /** A role described once asks for the number its description gives. */
  lemma {:induction false} AskedForOnce(descs: seq<Description>, node: nat, n: nat, d: nat)
    requires Covers(descs, node + 1) && d < |descs| && n <= |descs|
    requires forall k :: 0 <= k < |descs| && k != d ==> descs[k].role != descs[d].role
    ensures AskedFor(descs, node, n, descs[d].role) == if d < n then descs[d].counts[node] else 0
    decreases n
  {
    if n > 0 { AskedForOnce(descs, node, n - 1, d); }
  }

  /** What is asked of a node is the sum of the numbers the descriptions give for it. */
  lemma {:induction false} AskedIsSum(descs: seq<Description>, node: nat, d: nat)
    requires Covers(descs, node + 1) && d <= |descs|
    ensures Asked(descs, node, d) == Sum(seq(d, k requires 0 <= k < d => descs[k].counts[node]))
    decreases d
  {
    var s := seq(d, k requires 0 <= k < d => descs[k].counts[node]);
    if d > 0 {
      AskedIsSum(descs, node, d - 1);
      var front := seq(d - 1, k requires 0 <= k < d - 1 => descs[k].counts[node]);
      assert s == front + [descs[d - 1].counts[node]];
      SumAppend(front, descs[d - 1].counts[node]);
    }
  }

  // --- What sufficiency guarantees -------------------------------------------------------------------------

  /** The elements of `cs` from place `lo` to place `hi`. */
  ghost function Chunk(cs: seq<nat>, lo: nat, hi: nat): (r: set<nat>)
    requires lo <= hi <= |cs|
    decreases hi
  {
    if lo == hi then {} else Chunk(cs, lo, hi - 1) + {cs[hi - 1]}
  }

  ghost predicate Increasing(cs: seq<nat>) { forall i, j :: 0 <= i < j < |cs| ==> cs[i] < cs[j] }

  lemma {:induction false} ChunkHas(cs: seq<nat>, lo: nat, hi: nat, c: nat)
    requires lo <= hi <= |cs|
    ensures c in Chunk(cs, lo, hi) <==> exists j :: lo <= j < hi && cs[j] == c
    decreases hi
  {
    if lo < hi { ChunkHas(cs, lo, hi - 1, c); }
  }

  lemma {:induction false} ChunkSize(cs: seq<nat>, lo: nat, hi: nat)
    requires lo <= hi <= |cs| && Increasing(cs)
    ensures |Chunk(cs, lo, hi)| == hi - lo
    decreases hi
  {
    if lo < hi {
      ChunkSize(cs, lo, hi - 1);
      ChunkHas(cs, lo, hi - 1, cs[hi - 1]);
    }
  }

  lemma {:induction false} ChunksMeet(cs: seq<nat>, lo: nat, mid: nat, hi: nat)
    requires lo <= mid <= hi <= |cs| && Increasing(cs)
    ensures Chunk(cs, lo, mid) !! Chunk(cs, mid, hi)
    ensures Chunk(cs, lo, mid) + Chunk(cs, mid, hi) == Chunk(cs, lo, hi)
    decreases hi
  {
    if mid < hi {
      ChunksMeet(cs, lo, mid, hi - 1);
      ChunkHas(cs, lo, mid, cs[hi - 1]);
    }
  }

  lemma {:induction false} StartIs(topo: Topology, descs: seq<Description>, node: nat, d: nat)
    requires Covers(descs, node + 1) && d <= |descs|
    ensures Start(topo, descs, node, d) == Walk(topo, FirstCore(topo, node), Asked(descs, node, d))
    decreases d
  {
    if d > 0 {
      StartIs(topo, descs, node, d - 1);
      IterateAppend(Step(topo), FirstCore(topo, node), Asked(descs, node, d - 1), descs[d - 1].counts[node]);
    }
  }

  lemma {:induction false} VisitedIs(f: nat -> nat, cs: seq<nat>, lo: nat, k: nat)
    requires 0 < |cs| && lo + k <= |cs| && forall j: nat :: j < |cs| ==> Iterate(f, cs[0], j) == cs[j]
    ensures Visited(f, Iterate(f, cs[0], lo), k) == Chunk(cs, lo, lo + k)
    decreases k
  {
    if k > 0 {
      VisitedIs(f, cs, lo, k - 1);
      IterateAppend(f, cs[0], lo, k - 1);
    }
  }

  /** Without wrapping round, the walk hands out the node's cores in order. */
  lemma {:induction false} WalkSetIs(topo: Topology, node: nat, lo: nat, k: nat)
    requires lo + k <= |Cores(topo, node)|
    ensures WalkSet(topo, Walk(topo, FirstCore(topo, node), lo), k) == Chunk(Cores(topo, node), lo, lo + k)
  {
    var cs := Cores(topo, node);
    if k > 0 {
      FirstIs(topo, node);
      forall j: nat | j < |cs| ensures Iterate(Step(topo), cs[0], j) == cs[j] {
        WalkCycles(topo, node, 0, j);
      }
      VisitedIs(Step(topo), cs, lo, k);
    }
  }

  lemma {:induction false} PortionIs(topo: Topology, descs: seq<Description>, node: nat, d: nat)
    requires Covers(descs, node + 1) && d < |descs|
    requires Asked(descs, node, d + 1) <= |Cores(topo, node)|
    ensures Portion(topo, descs, node, d)
         == Chunk(Cores(topo, node), Asked(descs, node, d), Asked(descs, node, d + 1))
  {
    StartIs(topo, descs, node, d);
    WalkSetIs(topo, node, Asked(descs, node, d), descs[d].counts[node]);
  }

  /** The chunks of `cs` that fall to `role` when the descriptions cut it up in order. */
  ghost function Cut(cs: seq<nat>, descs: seq<Description>, node: nat, d: nat, role: nat): (r: set<nat>)
    requires Covers(descs, node + 1) && d <= |descs| && Asked(descs, node, d) <= |cs|
    decreases d
  {
    if d == 0 then {}
    else if descs[d - 1].role != role then Cut(cs, descs, node, d - 1, role)
    else Cut(cs, descs, node, d - 1, role) + Chunk(cs, Asked(descs, node, d - 1), Asked(descs, node, d))
  }

  /** On one node each role gets as many cores as asked for it, all among those handed out so far. */
  lemma {:induction false} CutSize(cs: seq<nat>, descs: seq<Description>, node: nat, d: nat, role: nat)
    requires Covers(descs, node + 1) && d <= |descs| && Asked(descs, node, d) <= |cs| && Increasing(cs)
    ensures Cut(cs, descs, node, d, role) <= Chunk(cs, 0, Asked(descs, node, d))
    ensures |Cut(cs, descs, node, d, role)| == AskedFor(descs, node, d, role)
    decreases d
  {
    if d > 0 {
      var lo, hi := Asked(descs, node, d - 1), Asked(descs, node, d);
      CutSize(cs, descs, node, d - 1, role);
      ChunksMeet(cs, 0, lo, hi);
      ChunkSize(cs, lo, hi);
    }
  }

  lemma {:induction false} CutsApart(cs: seq<nat>, descs: seq<Description>, node: nat, d: nat, r: nat, s: nat)
    requires Covers(descs, node + 1) && d <= |descs| && Asked(descs, node, d) <= |cs| && Increasing(cs) && r != s
    ensures Cut(cs, descs, node, d, r) !! Cut(cs, descs, node, d, s)
    decreases d
  {
    if d > 0 {
      CutsApart(cs, descs, node, d - 1, r, s);
      CutSize(cs, descs, node, d - 1, r);
      CutSize(cs, descs, node, d - 1, s);
      ChunksMeet(cs, 0, Asked(descs, node, d - 1), Asked(descs, node, d));
    }
  }

  lemma {:induction false} NodeShareIs(topo: Topology, descs: seq<Description>, node: nat, d: nat, role: nat)
    requires Covers(descs, node + 1) && d <= |descs| && Asked(descs, node, d) <= |Cores(topo, node)|
    ensures NodeShare(topo, descs, node, d, role) == Cut(Cores(topo, node), descs, node, d, role)
    decreases d
  {
    if d > 0 {
      NodeShareIs(topo, descs, node, d - 1, role);
      PortionIs(topo, descs, node, d - 1);
    }
  }

  lemma {:induction false} NodeShareOnNode(topo: Topology, descs: seq<Description>, node: nat, role: nat)
    requires Covers(descs, node + 1) && SufficientAt(topo, descs, node)
    ensures forall c :: c in NodeShare(topo, descs, node, |descs|, role) ==> NodeOf(topo, c) == Some(node)
  {
    var cs := Cores(topo, node);
    NodeShareIs(topo, descs, node, |descs|, role);
    CutSize(cs, descs, node, |descs|, role);
    forall c | c in NodeShare(topo, descs, node, |descs|, role) ensures NodeOf(topo, c) == Some(node) {
      ChunkHas(cs, 0, Asked(descs, node, |descs|), c);
      assert c in cs;
    }
  }

  lemma {:induction false} ShareBelow(topo: Topology, descs: seq<Description>, nodes: nat, role: nat)
    requires Covers(descs, nodes) && Sufficient(topo, descs, nodes)
    ensures forall c :: c in Share(topo, descs, nodes, role) ==>
                          NodeOf(topo, c).Some? && NodeOf(topo, c).value < nodes
    decreases nodes
  {
    if nodes > 0 {
      ShareBelow(topo, descs, nodes - 1, role);
      NodeShareOnNode(topo, descs, nodes - 1, role);
    }
  }

  /** When the cores suffice, different roles get disjoint sets. */
  lemma {:induction false} RolesApart(topo: Topology, descs: seq<Description>, nodes: nat, r: nat, s: nat)
    requires Covers(descs, nodes) && Sufficient(topo, descs, nodes) && r != s
    ensures Share(topo, descs, nodes, r) !! Share(topo, descs, nodes, s)
    decreases nodes
  {
    if nodes > 0 {
      RolesApart(topo, descs, nodes - 1, r, s);
      ShareBelow(topo, descs, nodes - 1, r);
      ShareBelow(topo, descs, nodes - 1, s);
      NodeShareOnNode(topo, descs, nodes - 1, r);
      NodeShareOnNode(topo, descs, nodes - 1, s);
      NodeShareIs(topo, descs, nodes - 1, |descs|, r);
      NodeShareIs(topo, descs, nodes - 1, |descs|, s);
      CutsApart(Cores(topo, nodes - 1), descs, nodes - 1, |descs|, r, s);
    }
  }

  /** The cores of `node` in `cpus`. */
  ghost function OnNode(topo: Topology, cpus: set<nat>, node: nat): (r: set<nat>) {
    set c | c in cpus && NodeOf(topo, c) == Some(node)
  }

  /** When the cores suffice, each role has on each node exactly as many cores as were asked for it there. */
  lemma {:induction false} RoleGetsWhatItAsked(topo: Topology, descs: seq<Description>, nodes: nat, node: nat, role: nat)
    requires Covers(descs, nodes) && Sufficient(topo, descs, nodes) && node < nodes
    ensures |OnNode(topo, Share(topo, descs, nodes, role), node)| == AskedFor(descs, node, |descs|, role)
  {
    ShareOnNode(topo, descs, nodes, node, role);
    assert SufficientAt(topo, descs, node);
    NodeShareIs(topo, descs, node, |descs|, role);
    CutSize(Cores(topo, node), descs, node, |descs|, role);
  }

  lemma {:induction false} ShareOnNode(topo: Topology, descs: seq<Description>, nodes: nat, node: nat, role: nat)
    requires Covers(descs, nodes) && Sufficient(topo, descs, nodes) && node < nodes
    ensures OnNode(topo, Share(topo, descs, nodes, role), node) == NodeShare(topo, descs, node, |descs|, role)
    decreases nodes
  {
    NodeShareOnNode(topo, descs, nodes - 1, role);
    if node == nodes - 1 {
      ShareBelow(topo, descs, nodes - 1, role);
    } else {
      ShareOnNode(topo, descs, nodes - 1, node, role);
    }
  }

  function TwoRoles(count: nat): (r: seq<Description>) { [Description(0, [count]), Description(1, [count])] }

  /** Totals that wrap pass the check although the cores do not suffice, and two roles share a core. */
  lemma {:induction false} WrappedTotalsShareCores()
    ensures
      var topo, descs := [Some(0)], TwoRoles(0x8000_0000);
      FoundSufficient(topo, descs, 1) && 0 in Share(topo, descs, 1, 0) && 0 in Share(topo, descs, 1, 1)
  {
    var descs := TwoRoles(0x8000_0000);
    assert Asked(descs, 0, 1) == 0x8000_0000;
    assert FoundAt([Some(0)], descs, 0);
    BothOnOneCore(0x8000_0000);
  }

  lemma {:induction false} BothOnOneCore(count: nat)
    requires count > 0
    ensures var topo, descs := [Some(0)], TwoRoles(count);
            0 in Share(topo, descs, 1, 0) && 0 in Share(topo, descs, 1, 1)
  {
    var topo: Topology := [Some(0)];
    var descs := TwoRoles(count);
    OneCore(topo, count);
    FirstVisited(Step(topo), 0, count);
    assert Start(topo, descs, 0, 0) == 0 && Start(topo, descs, 0, 1) == 0;
    assert 0 in Portion(topo, descs, 0, 0) && 0 in Portion(topo, descs, 0, 1);
    assert 0 in NodeShare(topo, descs, 0, 1, 0);
    assert Share(topo, descs, 1, 0) == {} + NodeShare(topo, descs, 0, 2, 0);
    assert Share(topo, descs, 1, 1) == {} + NodeShare(topo, descs, 0, 2, 1);
  }

  lemma {:induction false} OneCore(topo: Topology, k: nat)
    requires topo == [Some(0)]
    ensures FirstCore(topo, 0) == 0 && Walk(topo, 0, k) == 0
  {
    var cs := Cores(topo, 0);
    assert NodeOf(topo, 0) == Some(0) && 0 in cs;
    FirstIs(topo, 0);
    WalkCycles(topo, 0, 0, k);
    assert cs[0] in cs && cs[Remainder(k, |cs|)] in cs;
  }

  lemma {:induction false} FirstVisited(f: nat -> nat, x: nat, k: nat)
    requires k > 0
    ensures x in Visited(f, x, k)
  {
    if k > 1 { FirstVisited(f, x, k - 1); }
  }
}
