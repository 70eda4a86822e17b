/**
  Mounting and unmounting of an array: its components are initialised in order, rolled back in reverse
  order when one fails, and disposed in reverse order when the array is unmounted.
 */
module MountSequence {

  /** The calls the sequence makes on its components, which are named by their position. */
  datatype Call = Init(i: nat, ok: bool) | Dispose(i: nat) | Flush(i: nat) | DetachVolumes

  /** The positions whose Init has not been undone, after one more call. */
  ghost function After(up: set<nat>, c: Call): (r: set<nat>) {
    match c
    case Init(i, ok) => if ok then up + {i} else up
    case Dispose(i) => up - {i}
    case Flush(_) => up
    case DetachVolumes => up
  }

  ghost function Replay(up: set<nat>, log: seq<Call>): (r: set<nat>)
    decreases |log|
  {
    if log == [] then up else Replay(After(up, log[0]), log[1..])
  }

  ghost function Prefix(m: nat): (r: set<nat>)
    ensures forall i: nat :: i in r <==> i < m
  {
    if m == 0 then {} else Prefix(m - 1) + {m - 1}
  }

  ghost predicate IsPrefix(up: set<nat>) { exists m :: up == Prefix(m) }

  /** At every point of the log the positions not undone are a prefix of the sequence. */
  ghost predicate AlwaysPrefix(up: set<nat>, log: seq<Call>)
    decreases |log|
  {
    && IsPrefix(up)
    && (log != [] ==> AlwaysPrefix(After(up, log[0]), log[1..]))
  }

  // --- The calls of one Mount and one Unmount -------------------------------------------------------------

  function Inits(m: nat): (r: seq<Call>) { seq(m, (i: nat) => Init(i, true)) }

  /** Disposals from position `hi - 1` down to position `lo`. */
  function Disposals(hi: nat, lo: nat): (r: seq<Call>)
    requires lo <= hi
  {
    seq(hi - lo, (k: nat) requires k < hi - lo => Dispose(hi - 1 - k))
  }

  /** The first component whose Init fails, or the number of components. */
  function FirstFailure(results: seq<bool>): (f: nat)
    ensures f <= |results| && (f < |results| ==> !results[f])
    ensures forall i :: 0 <= i < f ==> results[i]
  {
    if results == [] || !results[0] then 0 else 1 + FirstFailure(results[1..])
  }

  /** What a Mount does when `waited` says whether its state was reached and `results` what each Init returns. */
  function MountCalls(waited: bool, results: seq<bool>): (r: seq<Call>)
    requires results != []
  {
    var f := FirstFailure(results);
    if !waited then [Dispose(0)]
    else if f == |results| then Inits(f)
    else Inits(f) + [Init(f, false)] + Disposals(f + 1, 0)
  }

  predicate MountSucceeds(waited: bool, results: seq<bool>) { waited && FirstFailure(results) == |results| }

  /** The last position that holds the first component. */
  function LastFront(sequence: seq<nat>): (j: nat)
    requires sequence != []
    ensures j < |sequence| && sequence[j] == sequence[0]
    ensures forall k :: j < k < |sequence| ==> sequence[k] != sequence[0]
  {
    LastBefore(sequence, |sequence|)
  }

  function LastBefore(sequence: seq<nat>, n: nat): (j: nat)
    requires 0 < n <= |sequence|
    ensures j < n && sequence[j] == sequence[0]
    ensures forall k :: j < k < n ==> sequence[k] != sequence[0]
  {
    if sequence[n - 1] == sequence[0] then n - 1 else LastBefore(sequence, n - 1)
  }

  /** Disposal stops at the last occurrence of the first component, which is then flushed and disposed. */
  function UnmountCalls(sequence: seq<nat>): (r: seq<Call>)
    requires sequence != []
  {
    [DetachVolumes] + (Disposals(|sequence|, LastFront(sequence) + 1) + [Flush(0), Dispose(0)])
  }

  datatype Result = Success | AlreadyMounted | AlreadyUnmounted | PriorityError | InitFailed

  class ArrayMountSequence {
    const sequence: seq<nat>
    var mounted: bool
    var log: seq<Call>

    constructor (sequence: seq<nat>)
      ensures this.sequence == sequence && !mounted && log == []
    {
      this.sequence, mounted, log := sequence, false, [];
    }

    method Mount(waited: bool, results: seq<bool>) returns (r: Result)
      requires |results| == |sequence| > 0
      modifies this`mounted, this`log
      ensures old(mounted) ==> r == AlreadyMounted && mounted && log == old(log)
      ensures !old(mounted) ==> log == old(log) + MountCalls(waited, results)
      ensures !old(mounted) ==> mounted == MountSucceeds(waited, results)
      ensures !old(mounted) ==> r == (if !waited then PriorityError else if mounted then Success else InitFailed)
    {
      if mounted { return AlreadyMounted; }
      if !waited {
        RollBack(0);
        assert Disposals(1, 0) == [Dispose(0)];
        return PriorityError;
      }
      var i := 0;
      while i < |sequence| && results[i]
        invariant i <= |sequence| && !mounted
        invariant forall k :: 0 <= k < i ==> results[k]
        invariant log == old(log) + Inits(i)
      {
        log := log + [Init(i, true)];
        i := i + 1;
        assert Inits(i) == Inits(i - 1) + [Init(i - 1, true)];
      }
      FirstFailureIs(results, i);
      if i < |sequence| {
        log := log + [Init(i, false)];
        RollBack(i);
        return InitFailed;
      }
      mounted := true;
      r := Success;
    }

    /** Disposes the component at `it` and all before it, last one first. */
    method RollBack(it: nat)
      modifies this`log
      ensures log == old(log) + Disposals(it + 1, 0)
    {
      var i: nat := it;
      log := log + [Dispose(i)];
      while i != 0
        invariant i <= it && log == old(log) + Disposals(it + 1, i)
      {
        i := i - 1;
        log := log + [Dispose(i)];
        assert Disposals(it + 1, i) == Disposals(it + 1, i + 1) + [Dispose(i)];
      }
    }

    method Unmount(waited: bool) returns (r: Result)
      requires sequence != []
      modifies this`mounted, this`log
      ensures !old(mounted) ==> r == AlreadyUnmounted && !mounted && log == old(log)
      ensures old(mounted) && !waited ==> r == PriorityError && mounted && log == old(log)
      ensures old(mounted) && waited ==> r == Success && !mounted && log == old(log) + UnmountCalls(sequence)
    {
      if !mounted { return AlreadyUnmounted; }
      if !waited { return PriorityError; }
      var n, j := |sequence|, |sequence|;
      log := log + [DetachVolumes];
      assert Disposals(n, n) == [];
      while sequence[j - 1] != sequence[0]
        invariant 0 < j <= n
        invariant LastBefore(sequence, n) == LastBefore(sequence, j)
        invariant log == old(log) + ([DetachVolumes] + Disposals(n, j))
        decreases j
      {
        j := j - 1;
        log := log + [Dispose(j)];
        assert Disposals(n, j) == Disposals(n, j + 1) + [Dispose(j)];
      }
      log := log + [Flush(0)] + [Dispose(0)];
      mounted := false;
      r := Success;
    }
  }

  lemma {:induction false} FirstFailureIs(results: seq<bool>, f: nat)
    requires f <= |results| && (f < |results| ==> !results[f])
    requires forall i :: 0 <= i < f ==> results[i]
    ensures FirstFailure(results) == f
  {
    if f > 0 { FirstFailureIs(results[1..], f - 1); }
  }

  // --- Every run --------------------------------------------------------------------------------------------

  datatype Op = OpMount(waited: bool, results: seq<bool>) | OpUnmount(waited: bool)

  /** The mounted flag and all calls made so far. */
  datatype State = State(mounted: bool, log: seq<Call>)

  predicate IsOp(n: nat, op: Op) { op.OpMount? ==> |op.results| == n }

  function Apply(sequence: seq<nat>, s: State, op: Op): (r: State)
    requires sequence != [] && IsOp(|sequence|, op)
  {
    match op
    case OpMount(waited, results) =>
      if s.mounted then s else State(MountSucceeds(waited, results), s.log + MountCalls(waited, results))
    case OpUnmount(waited) =>
      if s.mounted && waited then State(false, s.log + UnmountCalls(sequence)) else s
  }

  ghost function Run(sequence: seq<nat>, ops: seq<Op>): (s: State)
    requires sequence != [] && forall k :: 0 <= k < |ops| ==> IsOp(|sequence|, ops[k])
  {
    if ops == [] then State(false, []) else Apply(sequence, Run(sequence, ops[..|ops| - 1]), ops[|ops| - 1])
  }

  lemma {:induction false} ReplayAppend(up: set<nat>, a: seq<Call>, b: seq<Call>)
    ensures Replay(up, a + b) == Replay(Replay(up, a), b)
    ensures AlwaysPrefix(up, a) && AlwaysPrefix(Replay(up, a), b) ==> AlwaysPrefix(up, a + b)
    decreases |a|
  {
    if a == [] {
      assert a + b == b;
    } else {
      assert (a + b)[1..] == a[1..] + b;
      ReplayAppend(After(up, a[0]), a[1..], b);
    }
  }

  lemma {:induction false} ReplayOne(up: set<nat>, c: Call)
    ensures Replay(up, [c]) == After(up, c)
    ensures AlwaysPrefix(up, [c]) <==> IsPrefix(up) && IsPrefix(After(up, c))
  {
    assert [c][0] == c && [c][1..] == [];
    assert AlwaysPrefix(After(up, c), []) <==> IsPrefix(After(up, c));
  }

  lemma {:induction false} InitsGrow(m: nat)
    ensures Replay({}, Inits(m)) == Prefix(m) && AlwaysPrefix({}, Inits(m))
  {
    if m == 0 {
      assert Prefix(0) == {};
    } else {
      InitsGrow(m - 1);
      assert Inits(m) == Inits(m - 1) + [Init(m - 1, true)];
      assert After(Prefix(m - 1), Init(m - 1, true)) == Prefix(m);
      ReplayOne(Prefix(m - 1), Init(m - 1, true));
      ReplayAppend({}, Inits(m - 1), [Init(m - 1, true)]);
    }
  }

  /** Disposing from the top down to `lo` shrinks the prefix to `lo`, also when the top one was never up. */
  lemma {:induction false} DisposalsShrink(hi: nat, lo: nat, m: nat)
    requires lo <= hi && (m == hi || m + 1 == hi) && lo <= m
    ensures Replay(Prefix(m), Disposals(hi, lo)) == Prefix(lo) && AlwaysPrefix(Prefix(m), Disposals(hi, lo))
    decreases hi - lo
  {
    if hi == lo {
      assert Disposals(hi, lo) == [];
    } else {
      var d := Disposals(hi, lo);
      assert d[0] == Dispose(hi - 1) && d[1..] == Disposals(hi - 1, lo);
      assert After(Prefix(m), d[0]) == Prefix(hi - 1);
      DisposalsShrink(hi - 1, lo, hi - 1);
    }
  }

  lemma {:induction false} MountReplay(waited: bool, results: seq<bool>)
    requires results != []
    ensures Replay({}, MountCalls(waited, results)) == if MountSucceeds(waited, results) then Prefix(|results|) else {}
    ensures AlwaysPrefix({}, MountCalls(waited, results))
  {
    var f := FirstFailure(results);
    assert Prefix(0) == {};
    if !waited {
      assert Disposals(1, 0) == [Dispose(0)];
      DisposalsShrink(1, 0, 0);
    } else {
      InitsGrow(f);
      if f < |results| {
        var fail := [Init(f, false)];
        ReplayOne(Prefix(f), Init(f, false));
        ReplayAppend({}, Inits(f), fail);
        DisposalsShrink(f + 1, 0, f);
        ReplayAppend({}, Inits(f) + fail, Disposals(f + 1, 0));
      }
    }
  }

  predicate FrontOnce(sequence: seq<nat>) {
    forall k :: 0 < k < |sequence| ==> sequence[k] != sequence[0]
  }

  lemma {:induction false} TailReplay(up: set<nat>)
    ensures Replay(up, [Flush(0), Dispose(0)]) == up - {0}
    ensures IsPrefix(up) && IsPrefix(up - {0}) ==>
              AlwaysPrefix(up, [Flush(0), Dispose(0)])
  {
    ReplayOne(up, Flush(0));
    ReplayOne(up, Dispose(0));
    ReplayAppend(up, [Flush(0)], [Dispose(0)]);
    assert [Flush(0)] + [Dispose(0)] == [Flush(0), Dispose(0)];
  }

  /** From a mounted array, unmounting undoes every Init with a call of its own exactly when the first component occurs once. */
  lemma {:induction false} UnmountReplay(sequence: seq<nat>)
    requires sequence != []
    ensures Replay(Prefix(|sequence|), UnmountCalls(sequence)) == Prefix(LastFront(sequence) + 1) - {0}
    ensures Replay(Prefix(|sequence|), UnmountCalls(sequence)) == {} <==> FrontOnce(sequence)
    ensures FrontOnce(sequence) ==> AlwaysPrefix(Prefix(|sequence|), UnmountCalls(sequence))
  {
    var n, j := |sequence|, LastFront(sequence);
    var down, tail := Disposals(n, j + 1), [Flush(0), Dispose(0)];
    var up := Prefix(j + 1);
    DisposalsShrink(n, j + 1, n);
    TailReplay(up);
    ReplayAppend(Prefix(n), down, tail);
    var calls := UnmountCalls(sequence);
    assert calls[0] == DetachVolumes && calls[1..] == down + tail;
    assert FrontOnce(sequence) <==> j == 0;
    if j == 0 {
      assert up - {0} == Prefix(0) == {};
    } else {
      assert j in up - {0};
    }
  }

  /**
    In every run of Mount and Unmount the positions whose Init has not been undone are a prefix of the
    sequence at every point, all of them while the array is mounted and none while it is not.
   */
  lemma {:induction false} RunsKeepPrefix(sequence: seq<nat>, ops: seq<Op>)
    requires sequence != [] && FrontOnce(sequence) && forall k :: 0 <= k < |ops| ==> IsOp(|sequence|, ops[k])
    ensures AlwaysPrefix({}, Run(sequence, ops).log)
    ensures Replay({}, Run(sequence, ops).log) == if Run(sequence, ops).mounted then Prefix(|sequence|) else {}
  {
    if ops == [] {
      assert Prefix(0) == {};
    } else {
      var op := ops[|ops| - 1];
      RunsKeepPrefix(sequence, ops[..|ops| - 1]);
      var s := Run(sequence, ops[..|ops| - 1]);
      if op.OpMount? && !s.mounted {
        MountReplay(op.waited, op.results);
        ReplayAppend({}, s.log, MountCalls(op.waited, op.results));
      } else if op.OpUnmount? && s.mounted && op.waited {
        UnmountReplay(sequence);
        ReplayAppend({}, s.log, UnmountCalls(sequence));
      }
    }
  }

  lemma {:induction false} AtEveryPoint(up: set<nat>, log: seq<Call>, k: nat)
    requires AlwaysPrefix(up, log) && k <= |log|
    ensures IsPrefix(Replay(up, log[..k]))
    decreases k
  {
    if k > 0 {
      AtEveryPoint(After(up, log[0]), log[1..], k - 1);
      assert log[..k][1..] == log[1..][..k - 1];
    }
  }

  // --- The components themselves ------------------------------------------------------------------------------

  /** The component at a position. */
  ghost function At(sequence: seq<nat>, i: nat): (r: set<nat>) { if i < |sequence| then {sequence[i]} else {} }

  /** The initialised components after one more call; a component may stand at several positions. */
  ghost function LiveAfter(sequence: seq<nat>, up: set<nat>, c: Call): (r: set<nat>) {
    match c
    case Init(i, ok) => if ok then up + At(sequence, i) else up
    case Dispose(i) => up - At(sequence, i)
    case Flush(_) => up
    case DetachVolumes => up
  }

  ghost function Live(sequence: seq<nat>, up: set<nat>, log: seq<Call>): (r: set<nat>)
    decreases |log|
  {
    if log == [] then up else Live(sequence, LiveAfter(sequence, up, log[0]), log[1..])
  }

  /** The components at the positions from `lo` to `hi`. */
  ghost function Components(sequence: seq<nat>, lo: nat, hi: nat): (r: set<nat>)
    requires lo <= hi <= |sequence|
    ensures forall x :: x in r <==> x in sequence[lo..hi]
    decreases hi
  {
    if lo == hi then {}
    else
      assert sequence[lo..hi] == sequence[lo..hi - 1] + [sequence[hi - 1]];
      Components(sequence, lo, hi - 1) + {sequence[hi - 1]}
  }

  lemma {:induction false} LiveAppend(sequence: seq<nat>, up: set<nat>, a: seq<Call>, b: seq<Call>)
    ensures Live(sequence, up, a + b) == Live(sequence, Live(sequence, up, a), b)
    decreases |a|
  {
    if a == [] {
      assert a + b == b;
    } else {
      assert (a + b)[1..] == a[1..] + b;
      LiveAppend(sequence, LiveAfter(sequence, up, a[0]), a[1..], b);
    }
  }

  lemma {:induction false} LiveOne(sequence: seq<nat>, up: set<nat>, c: Call)
    ensures Live(sequence, up, [c]) == LiveAfter(sequence, up, c)
  {
    assert [c][0] == c && [c][1..] == [];
  }

  lemma {:induction false} LiveInits(sequence: seq<nat>, m: nat)
    requires m <= |sequence|
    ensures Live(sequence, {}, Inits(m)) == Components(sequence, 0, m)
  {
    if m > 0 {
      LiveInits(sequence, m - 1);
      assert Inits(m) == Inits(m - 1) + [Init(m - 1, true)];
      LiveOne(sequence, Components(sequence, 0, m - 1), Init(m - 1, true));
      LiveAppend(sequence, {}, Inits(m - 1), [Init(m - 1, true)]);
    }
  }

  lemma {:induction false} LiveDisposals(sequence: seq<nat>, up: set<nat>, hi: nat, lo: nat)
    requires lo <= hi <= |sequence|
    ensures Live(sequence, up, Disposals(hi, lo)) == up - Components(sequence, lo, hi)
    decreases hi
  {
    var d := Disposals(hi, lo);
    if lo < hi {
      assert d[0] == Dispose(hi - 1) && d[1..] == Disposals(hi - 1, lo);
      LiveDisposals(sequence, up - {sequence[hi - 1]}, hi - 1, lo);
    }
  }

  lemma {:induction false} LiveMount(sequence: seq<nat>, waited: bool, results: seq<bool>)
    requires |results| == |sequence| > 0
    ensures Live(sequence, {}, MountCalls(waited, results))
         == if MountSucceeds(waited, results) then Components(sequence, 0, |sequence|) else {}
  {
    var f := FirstFailure(results);
    if !waited {
      LiveOne(sequence, {}, Dispose(0));
    } else {
      LiveInits(sequence, f);
      if f < |results| {
        var fail := [Init(f, false)];
        LiveOne(sequence, Components(sequence, 0, f), Init(f, false));
        LiveAppend(sequence, {}, Inits(f), fail);
        LiveDisposals(sequence, Components(sequence, 0, f), f + 1, 0);
        LiveAppend(sequence, {}, Inits(f) + fail, Disposals(f + 1, 0));
      }
    }
  }

  /**
    Every component before the last occurrence of the first one is the first one, or stands after it too.
    Disposal stops there, so these are the components it may miss.
   */
  predicate NothingMissed(sequence: seq<nat>)
    requires sequence != []
  {
    var j := LastFront(sequence);
    forall k :: 0 <= k < j ==> sequence[k] == sequence[0] || sequence[k] in sequence[j + 1..]
  }

  /** What stays initialised when a mounted array is unmounted, and exactly when that is nothing. */
  lemma {:induction false} LiveUnmount(sequence: seq<nat>)
    requires sequence != []
    ensures var j, left := LastFront(sequence), Live(sequence, Components(sequence, 0, |sequence|), UnmountCalls(sequence));
            && left == Components(sequence, 0, |sequence|) - Components(sequence, j + 1, |sequence|) - {sequence[0]}
            && (left == {} <==> NothingMissed(sequence))
  {
    var n, j := |sequence|, LastFront(sequence);
    var all := Components(sequence, 0, n);
    var down, tail := Disposals(n, j + 1), [Flush(0)] + [Dispose(0)];
    var calls := UnmountCalls(sequence);
    assert tail == [Flush(0), Dispose(0)];
    assert calls == [DetachVolumes] + (down + tail);
    LiveOne(sequence, all, DetachVolumes);
    LiveAppend(sequence, all, [DetachVolumes], down + tail);
    LiveDisposals(sequence, all, n, j + 1);
    LiveAppend(sequence, all, down, tail);
    var rest := all - Components(sequence, j + 1, n);
    LiveOne(sequence, rest, Flush(0));
    LiveOne(sequence, rest, Dispose(0));
    LiveAppend(sequence, rest, [Flush(0)], [Dispose(0)]);
    MissedIs(sequence);
  }

  lemma {:induction false} MissedIs(sequence: seq<nat>)
    requires sequence != []
    ensures var n, j := |sequence|, LastFront(sequence);
            Components(sequence, 0, n) - Components(sequence, j + 1, n) - {sequence[0]} == {} <==> NothingMissed(sequence)
  {
    var n, j := |sequence|, LastFront(sequence);
    var left := Components(sequence, 0, n) - Components(sequence, j + 1, n) - {sequence[0]};
    assert sequence[0..n] == sequence;
    assert sequence[j + 1..n] == sequence[j + 1..];
    if NothingMissed(sequence) {
      forall k | 0 <= k < n ensures sequence[k] == sequence[0] || sequence[k] in sequence[j + 1..] {
        if k > j { assert sequence[j + 1..][k - j - 1] == sequence[k]; }
      }
    } else {
      var k :| 0 <= k < j && sequence[k] != sequence[0] && sequence[k] !in sequence[j + 1..];
      assert sequence[k] in left;
    }
  }

  ghost function Expected(sequence: seq<nat>, s: State): (r: set<nat>) {
    if s.mounted then Components(sequence, 0, |sequence|) else {}
  }

  /** If nothing is missed, in every run all components are initialised while mounted and none while not. */
  lemma {:induction false} RunsKeepComponents(sequence: seq<nat>, ops: seq<Op>)
    requires sequence != [] && NothingMissed(sequence) && forall k :: 0 <= k < |ops| ==> IsOp(|sequence|, ops[k])
    ensures Live(sequence, {}, Run(sequence, ops).log) == Expected(sequence, Run(sequence, ops))
  {
    if ops != [] {
      var op := ops[|ops| - 1];
      RunsKeepComponents(sequence, ops[..|ops| - 1]);
      var s := Run(sequence, ops[..|ops| - 1]);
      if op.OpMount? && !s.mounted {
        LiveMount(sequence, op.waited, op.results);
        LiveAppend(sequence, {}, s.log, MountCalls(op.waited, op.results));
      } else if op.OpUnmount? && s.mounted && op.waited {
        LiveUnmount(sequence);
        LiveAppend(sequence, {}, s.log, UnmountCalls(sequence));
      }
    }
  }

  ghost function MountAndUnmount(n: nat): (ops: seq<Op>) { [OpMount(true, seq(n, _ => true)), OpUnmount(true)] }

  /** If something is missed, mounting and unmounting leaves it initialised. */
  lemma {:induction false} MissedLeaks(sequence: seq<nat>)
    requires sequence != [] && !NothingMissed(sequence)
    ensures var s := Run(sequence, MountAndUnmount(|sequence|));
            !s.mounted && Live(sequence, {}, s.log) != {}
  {
    var ops := MountAndUnmount(|sequence|);
    var results := ops[0].results;
    FirstFailureIs(results, |results|);
    var one := ops[..1];
    assert one[0] == ops[0] && one[..|one| - 1] == [] && ops[..|ops| - 1] == one;
    assert Run(sequence, one[..|one| - 1]) == State(false, []);
    assert Run(sequence, one) == Apply(sequence, State(false, []), ops[0]);
    var up := Run(sequence, one);
    assert up.mounted && up.log == MountCalls(true, results);
    LiveMount(sequence, true, results);
    LiveUnmount(sequence);
    LiveAppend(sequence, {}, up.log, UnmountCalls(sequence));
  }

  /** Over all runs: the components match the state at the end of every run exactly when disposal misses none. */
  lemma {:induction false} ComponentsMatchIff(sequence: seq<nat>)
    requires sequence != []
    ensures NothingMissed(sequence) <==>
            forall ops: seq<Op> | forall k :: 0 <= k < |ops| ==> IsOp(|sequence|, ops[k]) ::
              Live(sequence, {}, Run(sequence, ops).log) == Expected(sequence, Run(sequence, ops))
  {
    if NothingMissed(sequence) {
      forall ops: seq<Op> | forall k :: 0 <= k < |ops| ==> IsOp(|sequence|, ops[k])
        ensures Live(sequence, {}, Run(sequence, ops).log) == Expected(sequence, Run(sequence, ops))
      {
        RunsKeepComponents(sequence, ops);
      }
    } else {
      MissedLeaks(sequence);
      var ops := MountAndUnmount(|sequence|);
      assert forall k :: 0 <= k < |ops| ==> IsOp(|sequence|, ops[k]);
      assert Live(sequence, {}, Run(sequence, ops).log) != Expected(sequence, Run(sequence, ops));
    }
  }

  /** A first component listed twice in a row is no harm; with another one in between, that one is missed. */
  lemma {:induction false} RepeatedFronts(a: nat, b: nat)
    requires a != b
    ensures NothingMissed([a, a]) && NothingMissed([a, b, a, b]) && !NothingMissed([a, b, a])
  {
    assert LastBefore([a, b, a, b], 3) == 2;
    assert LastFront([a, a]) == 1 && LastFront([a, b, a]) == 2 && LastFront([a, b, a, b]) == 2;
    assert [a, b, a][3..] == [] && [a, b, a, b][3..] == [b];
    assert [a, b, a][1] == b;
  }

  // --- Components that stand at one position each ---------------------------------------------------------------

  ghost predicate Distinct(sequence: seq<nat>) {
    forall i, j :: 0 <= i < j < |sequence| ==> sequence[i] != sequence[j]
  }

  ghost predicate InRange(n: nat, c: Call) { !c.DetachVolumes? ==> c.i < n }

  ghost predicate AllInRange(n: nat, log: seq<Call>) { forall k :: 0 <= k < |log| ==> InRange(n, log[k]) }

  /** The components at a set of positions. */
  ghost function Image(sequence: seq<nat>, up: set<nat>): (r: set<nat>)
    requires forall i :: i in up ==> i < |sequence|
  {
    set i | i in up :: sequence[i]
  }

  lemma {:induction false} ImageStep(sequence: seq<nat>, up: set<nat>, c: Call)
    requires Distinct(sequence) && InRange(|sequence|, c) && forall i :: i in up ==> i < |sequence|
    ensures forall i :: i in After(up, c) ==> i < |sequence|
    ensures LiveAfter(sequence, Image(sequence, up), c) == Image(sequence, After(up, c))
  {
    if c.Dispose? {
      forall x | x in Image(sequence, up) - {sequence[c.i]} ensures x in Image(sequence, up - {c.i}) {
        var i :| i in up && sequence[i] == x;
        assert i in up - {c.i};
      }
    } else if c.Init? && c.ok {
      assert c.i in up + {c.i};
      forall x | x in Image(sequence, up) ensures x in Image(sequence, up + {c.i}) {
        var i :| i in up && sequence[i] == x;
        assert i in up + {c.i};
      }
    }
  }

  /** Then the initialised components are those at the positions not undone. */
  lemma {:induction false} LiveIsImage(sequence: seq<nat>, up: set<nat>, log: seq<Call>)
    requires Distinct(sequence) && (forall i :: i in up ==> i < |sequence|)
    requires AllInRange(|sequence|, log)
    ensures forall i :: i in Replay(up, log) ==> i < |sequence|
    ensures Live(sequence, Image(sequence, up), log) == Image(sequence, Replay(up, log))
    decreases |log|
  {
    if log != [] {
      ImageStep(sequence, up, log[0]);
      LiveIsImage(sequence, After(up, log[0]), log[1..]);
    }
  }

  lemma {:induction false} RunInRange(sequence: seq<nat>, ops: seq<Op>)
    requires sequence != [] && forall k :: 0 <= k < |ops| ==> IsOp(|sequence|, ops[k])
    ensures AllInRange(|sequence|, Run(sequence, ops).log)
  {
    if ops != [] {
      RunInRange(sequence, ops[..|ops| - 1]);
      var op := ops[|ops| - 1];
      assert IsOp(|sequence|, op);
      if op.OpMount? { MountInRange(op.waited, op.results); } else { UnmountInRange(sequence); }
    }
  }

  lemma {:induction false} UnmountInRange(sequence: seq<nat>)
    requires sequence != []
    ensures AllInRange(|sequence|, UnmountCalls(sequence))
  {
  }

  lemma {:induction false} MountInRange(waited: bool, results: seq<bool>)
    requires results != []
    ensures AllInRange(|results|, MountCalls(waited, results))
  {
  }

  /** With distinct components, the initialised ones are those of a prefix of the sequence at every point of every run. */
  lemma {:induction false} ComponentsArePrefix(sequence: seq<nat>, ops: seq<Op>, k: nat) returns (m: nat)
    requires sequence != [] && Distinct(sequence) && forall i :: 0 <= i < |ops| ==> IsOp(|sequence|, ops[i])
    requires k <= |Run(sequence, ops).log|
    ensures m <= |sequence| && Live(sequence, {}, Run(sequence, ops).log[..k]) == Components(sequence, 0, m)
  {
    var log := Run(sequence, ops).log;
    RunsKeepPrefix(sequence, ops);
    AtEveryPoint({}, log, k);
    m :| Replay({}, log[..k]) == Prefix(m);
    RunInRange(sequence, ops);
    assert Image(sequence, {}) == {};
    LiveIsImage(sequence, {}, log[..k]);
    assert |sequence| !in Prefix(m);
    PrefixImage(sequence, m);
  }

  lemma {:induction false} PrefixImage(sequence: seq<nat>, m: nat)
    requires m <= |sequence|
    ensures Image(sequence, Prefix(m)) == Components(sequence, 0, m)
  {
    forall x | x in Components(sequence, 0, m) ensures x in Image(sequence, Prefix(m)) {
      var i :| 0 <= i < m && sequence[0..m][i] == x;
      assert i in Prefix(m);
    }
  }

  // --- The order of disposal ---------------------------------------------------------------------------------

  function InitOrder(log: seq<Call>): (r: seq<nat>) {
    if log == [] then []
    else if log[0].Init? then [log[0].i] + InitOrder(log[1..])
    else InitOrder(log[1..])
  }

  function DisposeOrder(log: seq<Call>): (r: seq<nat>) {
    if log == [] then []
    else if log[0].Dispose? then [log[0].i] + DisposeOrder(log[1..])
    else DisposeOrder(log[1..])
  }

  function Reverse(s: seq<nat>): (r: seq<nat>) {
    if s == [] then [] else Reverse(s[1..]) + [s[0]]
  }

  lemma {:induction false} OrderAppend(a: seq<Call>, b: seq<Call>)
    ensures InitOrder(a + b) == InitOrder(a) + InitOrder(b)
    ensures DisposeOrder(a + b) == DisposeOrder(a) + DisposeOrder(b)
  {
    if a == [] {
      assert a + b == b;
    } else {
      assert (a + b)[1..] == a[1..] + b;
      OrderAppend(a[1..], b);
    }
  }

  lemma {:induction false} ReverseAppend(s: seq<nat>, x: nat)
    ensures Reverse(s + [x]) == [x] + Reverse(s)
  {
    if s == [] {
      assert s + [x] == [x] && [x][1..] == [];
    } else {
      assert (s + [x])[1..] == s[1..] + [x];
      ReverseAppend(s[1..], x);
    }
  }

  function Up(m: nat): (r: seq<nat>) { seq(m, (i: nat) => i) }

  lemma {:induction false} UpStep(m: nat)
    ensures Up(m + 1) == Up(m) + [m] && Reverse(Up(m + 1)) == [m] + Reverse(Up(m))
  {
    assert Up(m + 1) == Up(m) + [m];
    ReverseAppend(Up(m), m);
  }

  lemma {:induction false} OrderOne(c: Call)
    ensures InitOrder([c]) == if c.Init? then [c.i] else []
    ensures DisposeOrder([c]) == if c.Dispose? then [c.i] else []
  {
    assert [c][1..] == [];
  }

  lemma {:induction false} InitsInOrder(m: nat)
    ensures InitOrder(Inits(m)) == Up(m) && DisposeOrder(Inits(m)) == []
  {
    if m > 0 {
      InitsInOrder(m - 1);
      UpStep(m - 1);
      var last := Init(m - 1, true);
      assert Inits(m) == Inits(m - 1) + [last];
      OrderOne(last);
      OrderAppend(Inits(m - 1), [last]);
    }
  }

  lemma {:induction false} DisposalsInOrder(m: nat)
    ensures InitOrder(Disposals(m, 0)) == [] && DisposeOrder(Disposals(m, 0)) == Reverse(Up(m))
  {
    if m > 0 {
      DisposalsInOrder(m - 1);
      UpStep(m - 1);
      var d := Disposals(m, 0);
      assert d[0] == Dispose(m - 1) && d[1..] == Disposals(m - 1, 0);
    }
  }

  /** A Mount that fails at a component disposes everything it tried to initialise, in reverse order. */
  lemma {:induction false} RollBackReverses(results: seq<bool>)
    requires results != [] && FirstFailure(results) < |results|
    ensures DisposeOrder(MountCalls(true, results)) == Reverse(InitOrder(MountCalls(true, results)))
  {
    var f := FirstFailure(results);
    var fail := Init(f, false);
    InitsInOrder(f);
    DisposalsInOrder(f + 1);
    OrderOne(fail);
    UpStep(f);
    OrderAppend(Inits(f), [fail]);
    OrderAppend(Inits(f) + [fail], Disposals(f + 1, 0));
    assert InitOrder(MountCalls(true, results)) == Up(f) + [f];
  }

  /** Unmounting disposes the components in the reverse of the order in which mounting initialised them. */
  lemma {:induction false} UnmountReverses(sequence: seq<nat>, results: seq<bool>)
    requires sequence != [] && FrontOnce(sequence) && |results| == |sequence| && FirstFailure(results) == |results|
    ensures DisposeOrder(UnmountCalls(sequence)) == Reverse(InitOrder(MountCalls(true, results)))
  {
    var n := |sequence|;
    assert LastFront(sequence) == 0;
    InitsInOrder(n);
    DisposalsInOrder(n);
    OrderOne(DetachVolumes);
    OrderOne(Flush(0));
    assert Disposals(n, 0) == Disposals(n, 1) + [Dispose(0)];
    var tail := [Flush(0)] + [Dispose(0)];
    assert tail == [Flush(0), Dispose(0)];
    OrderAppend([DetachVolumes], Disposals(n, 1) + tail);
    OrderAppend(Disposals(n, 1), tail);
    OrderAppend([Flush(0)], [Dispose(0)]);
    OrderAppend(Disposals(n, 1), [Dispose(0)]);
  }

  /**
    A mount that reached its state calls Init on the components in order, up to the first that fails. One that
    did not only disposes the first component, which it never initialised.
   */
  lemma {:induction false} MountInitsInOrder(results: seq<bool>)
    requires results != []
    ensures MountCalls(false, results) == [Dispose(0)]
    ensures var f := FirstFailure(results);
            InitOrder(MountCalls(true, results)) == Up(if f < |results| then f + 1 else f)
  {
    var f := FirstFailure(results);
    InitsInOrder(f);
    if f < |results| {
      var fail := Init(f, false);
      DisposalsInOrder(f + 1);
      OrderOne(fail);
      UpStep(f);
      OrderAppend(Inits(f), [fail]);
      OrderAppend(Inits(f) + [fail], Disposals(f + 1, 0));
    }
  }

  /** Each Init call answers what its component does. */
  lemma {:induction false} MountInitResults(results: seq<bool>, k: nat)
    requires results != [] && k < |MountCalls(true, results)| && MountCalls(true, results)[k].Init?
    ensures var c := MountCalls(true, results)[k]; c.i < |results| && c.ok == results[c.i]
  {
  }

  /**
    Unmounting detaches the volumes before any component is disposed, and flushes the first component once,
    after the others are disposed and right before its own disposal, which is the last call.
   */
  lemma {:induction false} UnmountFlushes(sequence: seq<nat>)
    requires sequence != []
    ensures var calls := UnmountCalls(sequence);
            && |calls| == |sequence| - LastFront(sequence) + 2
            && calls[0] == DetachVolumes
            && calls[|calls| - 2] == Flush(0) && calls[|calls| - 1] == Dispose(0)
            && forall k :: 0 < k < |calls| - 2 ==> calls[k].Dispose? && calls[k].i < |sequence| && sequence[calls[k].i] != sequence[0]
  {
    var n, j, calls := |sequence|, LastFront(sequence), UnmountCalls(sequence);
    forall k | 0 < k < |calls| - 2 ensures calls[k].Dispose? && calls[k].i < n && sequence[calls[k].i] != sequence[0] {
      assert calls[k] == Disposals(n, j + 1)[k - 1] == Dispose(n - k);
    }
  }

  /** In general the components after the last occurrence of the first are disposed, last first, and then the first. */
  lemma {:induction false} UnmountDisposes(sequence: seq<nat>, k: nat)
    requires sequence != [] && 0 < k <= |sequence| - LastFront(sequence) - 1
    ensures UnmountCalls(sequence)[k] == Dispose(|sequence| - k)
  {
    assert UnmountCalls(sequence)[k] == Disposals(|sequence|, LastFront(sequence) + 1)[k - 1];
  }
}
