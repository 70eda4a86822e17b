/**
  The cores of each NUMA node and the walk that hands them out: from a core to the next enabled core of the
  same node, and back to the node's first core at the end.
 */
module CpuWalk {
  import opened Options

  /** The NUMA node of every configured cpu; None marks a disabled one. */
  type Topology = seq<Option<nat>>

  function NodeOf(topo: Topology, cpu: nat): (r: Option<nat>) {
    if cpu < |topo| then topo[cpu] else None
  }

  /** The cores of `node` below `n`, in increasing order. */
  function CoresBelow(topo: Topology, node: nat, n: nat): (r: seq<nat>)
    requires n <= |topo|
    ensures forall c: nat :: c in r <==> c < n && topo[c] == Some(node)
    ensures forall i, j :: 0 <= i < j < |r| ==> r[i] < r[j]
  {
    if n == 0 then []
    else
      var below := CoresBelow(topo, node, n - 1);
      assert forall i :: 0 <= i < |below| ==> below[i] in below;
      if topo[n - 1] == Some(node) then below + [n - 1] else below
  }

  function Cores(topo: Topology, node: nat): (r: seq<nat>)
    ensures forall c: nat :: c in r <==> NodeOf(topo, c) == Some(node)
    ensures forall i, j :: 0 <= i < j < |r| ==> r[i] < r[j]
  {
    CoresBelow(topo, node, |topo|)
  }

  /** The first core of `node` at or after `c`, or the number of cpus when there is none. */
  function Seek(topo: Topology, node: nat, c: nat): (r: nat)
    requires c <= |topo|
    decreases |topo| - c
  {
    if c == |topo| || topo[c] == Some(node) then c else Seek(topo, node, c + 1)
  }

  lemma {:induction false} SeekFinds(topo: Topology, node: nat, c: nat)
    requires c <= |topo|
    ensures var r := Seek(topo, node, c); c <= r <= |topo| && (r < |topo| ==> topo[r] == Some(node))
    ensures forall d :: c <= d < Seek(topo, node, c) ==> topo[d] != Some(node)
    decreases |topo| - c
  {
    if c < |topo| && topo[c] != Some(node) { SeekFinds(topo, node, c + 1); }
  }

  /** The first core of `node`, and 0 for a node without cores. */
  function FirstCore(topo: Topology, node: nat): (r: nat) {
    var c := Seek(topo, node, 0);
    if c < |topo| then c else 0
  }

  /** The next larger core of the same node, or else the node's first; core 0 when `cpu` is disabled. */
  function Next(topo: Topology, cpu: nat): (r: nat) {
    match NodeOf(topo, cpu)
    case None => 0
    case Some(node) =>
      var c := Seek(topo, node, cpu + 1);
      if c < |topo| then c else FirstCore(topo, node)
  }

  function Iterate(f: nat -> nat, x: nat, k: nat): (r: nat) {
    if k == 0 then x else f(Iterate(f, x, k - 1))
  }

  function Step(topo: Topology): (f: nat -> nat) { (cpu: nat) => Next(topo, cpu) }

  /** The core reached by `k` next-core searches. */
  function Walk(topo: Topology, cpu: nat, k: nat): (r: nat) { Iterate(Step(topo), cpu, k) }

  function Remainder(x: nat, n: nat): (r: nat)
    requires n > 0
    ensures r < n
  {
    if x < n then x else Remainder(x - n, n)
  }

  /** The place after `i` on a circle of `n` places. */
  function Successor(i: nat, n: nat): (r: nat)
    requires i < n
    ensures r < n
  {
    if i + 1 < n then i + 1 else 0
  }

  lemma {:induction false} RemainderStep(x: nat, n: nat)
    requires n > 0
    ensures Remainder(x + 1, n) == Successor(Remainder(x, n), n)
  {
    if x >= n { RemainderStep(x - n, n); }
  }

  lemma {:induction false} FirstIs(topo: Topology, node: nat)
    requires Cores(topo, node) != []
    ensures FirstCore(topo, node) == Cores(topo, node)[0]
  {
    var cs := Cores(topo, node);
    var c := Seek(topo, node, 0);
    SeekFinds(topo, node, 0);
    assert cs[0] in cs && c in cs;
  }

  /** A node without cores counts as starting at core 0, and a disabled core is followed by core 0. */
  lemma {:induction false} NothingThere(topo: Topology, node: nat, cpu: nat)
    ensures Cores(topo, node) == [] ==> FirstCore(topo, node) == 0
    ensures NodeOf(topo, cpu).None? ==> Next(topo, cpu) == 0
  {
    SeekFinds(topo, node, 0);
    var c := Seek(topo, node, 0);
    assert c < |topo| ==> c in Cores(topo, node);
  }

  /** The next core is the one at the next place of the node's circle. */
  lemma {:induction false} NextIs(topo: Topology, node: nat, i: nat)
    requires i < |Cores(topo, node)|
    ensures var cs := Cores(topo, node); Next(topo, cs[i]) == cs[Successor(i, |cs|)]
  {
    var cs := Cores(topo, node);
    assert cs[i] in cs;
    var c := Seek(topo, node, cs[i] + 1);
    SeekFinds(topo, node, cs[i] + 1);
    if i + 1 < |cs| {
      assert cs[i + 1] in cs && cs[i] < cs[i + 1];
      assert c < |topo| && NodeOf(topo, c) == Some(node);
      var j :| 0 <= j < |cs| && cs[j] == c;
      assert !(j < i) && !(i + 1 < j);
    } else {
      FirstIs(topo, node);
      assert c < |topo| ==> c in cs;
    }
  }

  lemma {:induction false} IterateCycles(f: nat -> nat, cs: seq<nat>, i: nat, k: nat)
    requires i < |cs| && forall j :: 0 <= j < |cs| ==> f(cs[j]) == cs[Successor(j, |cs|)]
    ensures Iterate(f, cs[i], k) == cs[Remainder(i + k, |cs|)]
  {
    if k > 0 {
      IterateCycles(f, cs, i, k - 1);
      RemainderStep(i + k - 1, |cs|);
    }
  }

  /** `k` steps from the core at place `i` of its node lead to the core at place `i + k` modulo the node's size. */
  lemma {:induction false} WalkCycles(topo: Topology, node: nat, i: nat, k: nat)
    requires i < |Cores(topo, node)|
    ensures var cs := Cores(topo, node); Walk(topo, cs[i], k) == cs[Remainder(i + k, |cs|)]
  {
    var cs := Cores(topo, node);
    forall j | 0 <= j < |cs| ensures Step(topo)(cs[j]) == cs[Successor(j, |cs|)] {
      NextIs(topo, node, j);
    }
    IterateCycles(Step(topo), cs, i, k);
  }

  /**
    The walk is a single cycle through exactly the node's cores: it never leaves the node, reaches every
    core of the node in fewer steps than the node has cores, and is back at its start after that many.
   */
  lemma {:induction false} SingleCycle(topo: Topology, node: nat, cpu: nat, other: nat) returns (k: nat)
    requires NodeOf(topo, cpu) == Some(node) && NodeOf(topo, other) == Some(node)
    ensures forall m: nat :: NodeOf(topo, Walk(topo, cpu, m)) == Some(node)
    ensures k < |Cores(topo, node)| && Walk(topo, cpu, k) == other
    ensures Walk(topo, cpu, |Cores(topo, node)|) == cpu
  {
    var cs := Cores(topo, node);
    var n := |cs|;
    var i :| 0 <= i < n && cs[i] == cpu;
    var j :| 0 <= j < n && cs[j] == other;
    forall m: nat ensures NodeOf(topo, Walk(topo, cpu, m)) == Some(node) {
      WalkCycles(topo, node, i, m);
      assert cs[Remainder(i + m, n)] in cs;
    }
    k := if i <= j then j - i else n - i + j;
    WalkCycles(topo, node, i, k);
    assert Remainder(i + k, n) == j;
    WalkCycles(topo, node, i, n);
    assert Remainder(i + n, n) == i;
  }

  lemma {:induction false} IterateAppend(f: nat -> nat, x: nat, a: nat, b: nat)
    ensures Iterate(f, Iterate(f, x, a), b) == Iterate(f, x, a + b)
  {
    if b > 0 { IterateAppend(f, x, a, b - 1); }
  }
}
