/**
  The stripe counting of `FlushIo`. A scanner counts the stripes that still have to be flushed and then
  declares its scan complete; every counted stripe is taken off the count when it is flushed. Whoever sees
  the count at zero after the scan sets the flush complete flag.
 */
module FlushIo {
  import opened Sums

  datatype Flags = Flags(stripeCnt: int, scanComplete: bool, flushComplete: bool)

  function Increased(f: Flags): (r: Flags) { f.(stripeCnt := f.stripeCnt + 1) }

  function Decreased(f: Flags): (r: Flags) {
    f.(stripeCnt := f.stripeCnt - 1, flushComplete := f.flushComplete || (f.stripeCnt == 1 && f.scanComplete))
  }

  function Scanned(f: Flags): (r: Flags) {
    f.(scanComplete := true, flushComplete := f.flushComplete || f.stripeCnt == 0)
  }

  class FlushRequest {
    var stripeCnt: int
    var stripesScanComplete: bool
    var stripesFlushComplete: bool

    ghost function View(): (f: Flags)
      reads this
    {
      Flags(stripeCnt, stripesScanComplete, stripesFlushComplete)
    }

    constructor ()
      ensures View() == Flags(0, false, false)
    {
      stripeCnt, stripesScanComplete, stripesFlushComplete := 0, false, false;
    }

    method IncreaseStripeCnt()
      modifies this`stripeCnt
      ensures View() == Increased(old(View()))
    {
      stripeCnt := stripeCnt + 1;
    }

    method DecreaseStripeCnt()
      modifies this`stripeCnt, this`stripesFlushComplete
      ensures View() == Decreased(old(View()))
    {
      stripeCnt := stripeCnt - 1;
      if stripeCnt == 0 && stripesScanComplete { stripesFlushComplete := true; }
    }

    method StripesScanComplete()
      modifies this`stripesScanComplete, this`stripesFlushComplete
      ensures View() == Scanned(old(View()))
    {
      stripesScanComplete := true;
      if stripeCnt == 0 { stripesFlushComplete := true; }
    }
  }

  // --- Every single atomic access as a step ------------------------------------------------------------

  /** Where one stripe stands: from being counted to the end of its DecreaseStripeCnt call. */
  datatype StripePc = Fresh | Counted | Dropped | SawZero | SawScan | Over

  /** Where the scanner stands in StripesScanComplete. */
  datatype ScanPc = Scanning | Marked | ScanSawZero | Ended

  datatype State = State(flags: Flags, stripes: seq<StripePc>, scan: ScanPc)

  datatype Step =
    | Increase(k: nat)      // stripeCnt++
    | Drop(k: nat)          // stripeCnt--
    | ReadCount(k: nat)     // stripeCnt == 0 ?
    | ReadScan(k: nat)      // stripesScanComplete == true ?
    | Write(k: nat)         // stripesFlushComplete = true
    | Mark                  // stripesScanComplete = true
    | ScanReadCount         // stripeCnt == 0 ?
    | ScanWrite             // stripesFlushComplete = true

  function Init(n: nat): (s: State) {
    State(Flags(0, false, false), seq(n, _ => Fresh), Scanning)
  }

  /** Stripes are only counted before the scan ends, and every counted stripe is dropped at most once. */
  predicate Enabled(s: State, step: Step) {
    match step
    case Increase(k) => k < |s.stripes| && s.stripes[k].Fresh? && s.scan.Scanning?
    case Drop(k) => k < |s.stripes| && s.stripes[k].Counted?
    case ReadCount(k) => k < |s.stripes| && s.stripes[k].Dropped?
    case ReadScan(k) => k < |s.stripes| && s.stripes[k].SawZero?
    case Write(k) => k < |s.stripes| && s.stripes[k].SawScan?
    case Mark => s.scan.Scanning?
    case ScanReadCount => s.scan.Marked?
    case ScanWrite => s.scan.ScanSawZero?
  }

  function Apply(s: State, step: Step): (t: State)
    requires Enabled(s, step)
  {
    var f := s.flags;
    match step
    case Increase(k) => s.(flags := f.(stripeCnt := f.stripeCnt + 1), stripes := s.stripes[k := Counted])
    case Drop(k) => s.(flags := f.(stripeCnt := f.stripeCnt - 1), stripes := s.stripes[k := Dropped])
    case ReadCount(k) => s.(stripes := s.stripes[k := if f.stripeCnt == 0 then SawZero else Over])
    case ReadScan(k) => s.(stripes := s.stripes[k := if f.scanComplete then SawScan else Over])
    case Write(k) => s.(flags := f.(flushComplete := true), stripes := s.stripes[k := Over])
    case Mark => s.(flags := f.(scanComplete := true), scan := Marked)
    case ScanReadCount => s.(scan := if f.stripeCnt == 0 then ScanSawZero else Ended)
    case ScanWrite => s.(flags := f.(flushComplete := true), scan := Ended)
  }

  ghost predicate IsRun(n: nat, steps: seq<Step>, tr: seq<State>) {
    && |tr| == |steps| + 1 && tr[0] == Init(n)
    && (forall k :: 0 <= k < |steps| ==> Enabled(tr[k], steps[k]) && tr[k + 1] == Apply(tr[k], steps[k]))
  }

  ghost function CountedTerms(stripes: seq<StripePc>): (r: seq<nat>) {
    seq(|stripes|, k requires 0 <= k < |stripes| => if stripes[k].Counted? then 1 else 0)
  }

  /** Some thread has still to look at the count, or to act on having seen it at zero. */
  ghost predicate SomeoneLooks(s: State) {
    || s.scan.Marked? || s.scan.ScanSawZero?
    || exists k :: 0 <= k < |s.stripes| && (s.stripes[k].Dropped? || s.stripes[k].SawZero? || s.stripes[k].SawScan?)
  }

  ghost predicate Inv(s: State) {
    && s.flags.stripeCnt == Sum(CountedTerms(s.stripes))
    && (s.flags.scanComplete <==> !s.scan.Scanning?)
    && (s.flags.scanComplete && s.flags.stripeCnt == 0 && !s.flags.flushComplete ==> SomeoneLooks(s))
  }

  lemma {:induction false} InvStep(s: State, step: Step)
    requires Enabled(s, step) && Inv(s)
    ensures Inv(Apply(s, step))
  {
    var t := Apply(s, step);
    var a := CountedTerms(s.stripes);
    match step
    case Increase(k) =>
      SumUpdate(a, k, 1);
      assert CountedTerms(t.stripes) == a[k := 1];
    case Drop(k) =>
      SumUpdate(a, k, 0);
      assert CountedTerms(t.stripes) == a[k := 0];
      assert t.stripes[k].Dropped?;
    case ReadCount(k) =>
      assert CountedTerms(t.stripes) == a;
      assert t.stripes[k].SawZero? || t.flags.stripeCnt != 0;
    case ReadScan(k) =>
      assert CountedTerms(t.stripes) == a;
      assert t.stripes[k].SawScan? || !t.flags.scanComplete;
    case Write(k) => assert CountedTerms(t.stripes) == a;
    case _ =>
  }

  lemma {:induction false} RunInv(n: nat, steps: seq<Step>, tr: seq<State>, k: nat)
    requires IsRun(n, steps, tr) && k < |tr|
    ensures Inv(tr[k]) && |tr[k].stripes| == n
  {
    if k == 0 {
      SumZero(CountedTerms(tr[0].stripes));
    } else {
      RunInv(n, steps, tr, k - 1);
      InvStep(tr[k - 1], steps[k - 1]);
    }
  }

  /** No thread is inside one of the three methods and the scan has ended. */
  ghost predicate Quiet(s: State) {
    s.scan.Ended? && forall k :: 0 <= k < |s.stripes| ==> s.stripes[k].Fresh? || s.stripes[k].Over? || s.stripes[k].Counted?
  }

  /** In every interleaving of the single accesses, no completion is lost. */
  lemma {:induction false} NoLostCompletion(n: nat, steps: seq<Step>, tr: seq<State>, k: nat)
    requires IsRun(n, steps, tr) && k < |tr| && Quiet(tr[k]) && tr[k].flags.stripeCnt == 0
    ensures tr[k].flags.flushComplete
  {
    RunInv(n, steps, tr, k);
  }

  // --- The other half: completion means that nothing is left ------------------------------------------

  /** The schedules in which no stripe is counted between the two reads of a DecreaseStripeCnt call. */
  ghost predicate ReadsUndisturbed(steps: seq<Step>, tr: seq<State>) {
    |tr| == |steps| + 1 &&
    forall m :: 0 <= m < |steps| && steps[m].Increase? ==>
      forall j :: 0 <= j < |tr[m].stripes| ==> !tr[m].stripes[j].SawZero?
  }

  ghost predicate CompleteIsEmpty(s: State) {
    s.flags.flushComplete ==> s.flags.scanComplete && s.flags.stripeCnt == 0
  }

  /** Whoever has seen zero, or zero after the scan, is still right. */
  ghost predicate StillZero(s: State) {
    && CompleteIsEmpty(s)
    && (s.scan.ScanSawZero? ==> s.flags.stripeCnt == 0)
    && (forall k :: 0 <= k < |s.stripes| ==>
          && (s.stripes[k].SawZero? ==> s.flags.stripeCnt == 0)
          && (s.stripes[k].SawScan? ==> s.flags.stripeCnt == 0 && s.flags.scanComplete))
  }

  lemma {:induction false} StillZeroStep(s: State, step: Step)
    requires Enabled(s, step) && Inv(s) && StillZero(s)
    requires step.Increase? ==> forall j :: 0 <= j < |s.stripes| ==> !s.stripes[j].SawZero?
    ensures StillZero(Apply(s, step))
  {
    if step.Drop? { SumAtLeast(CountedTerms(s.stripes), step.k, step.k); }
  }

  /** When the two reads are not torn apart by an increase, completion implies scan done and count zero. */
  lemma {:induction false} CompleteImpliesEmpty(n: nat, steps: seq<Step>, tr: seq<State>, k: nat)
    requires IsRun(n, steps, tr) && ReadsUndisturbed(steps, tr) && k < |tr|
    ensures StillZero(tr[k])
  {
    if k > 0 {
      CompleteImpliesEmpty(n, steps, tr, k - 1);
      RunInv(n, steps, tr, k - 1);
      StillZeroStep(tr[k - 1], steps[k - 1]);
    }
  }

  /** Once a stripe is counted between the two reads of another, completion can be declared too early. */
  lemma {:induction false} TornReadsCompleteEarly(s: State, j: nat)
    requires j < |s.stripes| && s.stripes[j].SawZero? && s.scan.Scanning? && s.flags.stripeCnt > 0
    ensures Enabled(s, Mark) && Enabled(Apply(s, Mark), ReadScan(j))
    ensures Enabled(Apply(Apply(s, Mark), ReadScan(j)), Write(j))
    ensures !CompleteIsEmpty(Apply(Apply(Apply(s, Mark), ReadScan(j)), Write(j)))
  {
    assert Apply(s, Mark).flags.scanComplete;
  }

  /** Every run in which an increase does fall between the two reads has a continuation that completes too early. */
  lemma {:induction false} DisturbedRunsFail(n: nat, steps: seq<Step>, tr: seq<State>, m: nat, j: nat)
    returns (longer: seq<Step>, states: seq<State>)
    requires IsRun(n, steps, tr) && m < |steps| && steps[m].Increase?
    requires j < |tr[m].stripes| && tr[m].stripes[j].SawZero?
    ensures |longer| > m && longer[..m + 1] == steps[..m + 1]
    ensures IsRun(n, longer, states) && !CompleteIsEmpty(states[|longer|])
  {
    RunInv(n, steps, tr, m);
    var s := tr[m + 1];
    TornReadsCompleteEarly(s, j);
    var t1 := Apply(s, Mark);
    var t2 := Apply(t1, ReadScan(j));
    longer := steps[..m + 1] + [Mark, ReadScan(j), Write(j)];
    states := tr[..m + 2] + [t1, t2, Apply(t2, Write(j))];
    assert states[m + 1] == s && states[m + 4] == Apply(t2, Write(j));
  }

  /** Such a run exists with two stripes: the flush is declared complete while one is still counted. */
  lemma {:induction false} TornReadsExist()
    ensures exists steps, tr :: IsRun(2, steps, tr) && !CompleteIsEmpty(tr[|steps|])
  {
    var s0 := Init(2);
    var s1 := Apply(s0, Increase(0));
    var s2 := Apply(s1, Drop(0));
    var s3 := Apply(s2, ReadCount(0));
    assert s3.stripes[0].SawZero?;
    var s4 := Apply(s3, Increase(1));
    var steps := [Increase(0), Drop(0), ReadCount(0), Increase(1)];
    var tr := [s0, s1, s2, s3, s4];
    assert IsRun(2, steps, tr);
    var longer, states := DisturbedRunsFail(2, steps, tr, 3, 0);
  }

  // --- Whole methods as steps -------------------------------------------------------------------------

  datatype Call = CallIncrease | CallDecrease | CallScanComplete

  /** The flags and how many stripes are counted, when each method runs without interruption. */
  ghost predicate CallOk(f: Flags, c: Call) {
    match c
    case CallIncrease => !f.scanComplete
    case CallDecrease => f.stripeCnt > 0
    case CallScanComplete => !f.scanComplete
  }

  function After(f: Flags, c: Call): (r: Flags) {
    match c
    case CallIncrease => Increased(f)
    case CallDecrease => Decreased(f)
    case CallScanComplete => Scanned(f)
  }

  ghost predicate IsHistory(calls: seq<Call>, fs: seq<Flags>) {
    && |fs| == |calls| + 1 && fs[0] == Flags(0, false, false)
    && (forall k :: 0 <= k < |calls| ==> CallOk(fs[k], calls[k]) && fs[k + 1] == After(fs[k], calls[k]))
  }

  /** In every history the count is the number of increases minus the number of decreases. */
  lemma {:induction false} CountIsExact(calls: seq<Call>, fs: seq<Flags>, k: nat)
    requires IsHistory(calls, fs) && k < |fs|
    ensures var m := multiset(calls[..k]); fs[k].stripeCnt + m[CallDecrease] == m[CallIncrease]
    ensures fs[k].scanComplete <==> CallScanComplete in calls[..k]
  {
    if k > 0 {
      CountIsExact(calls, fs, k - 1);
      assert calls[..k] == calls[..k - 1] + [calls[k - 1]];
    }
  }

  /** With uninterrupted methods the flag says exactly that the scan was declared complete and every stripe taken off. */
  lemma {:induction false} FlagIsExact(calls: seq<Call>, fs: seq<Flags>, k: nat)
    requires IsHistory(calls, fs) && k < |fs|
    ensures fs[k].stripeCnt >= 0
    ensures fs[k].flushComplete <==> fs[k].scanComplete && fs[k].stripeCnt == 0
    ensures var m := multiset(calls[..k]);
            fs[k].flushComplete <==> CallScanComplete in calls[..k] && m[CallIncrease] == m[CallDecrease]
  {
    CountIsExact(calls, fs, k);
    if k > 0 { FlagIsExact(calls, fs, k - 1); }
  }

  /** The accesses of one DecreaseStripeCnt call for stripe `k`, without interruption. */
  ghost function DecreaseAlone(s: State, k: nat): (t: State)
    requires Enabled(s, Drop(k))
  {
    var dropped := Apply(s, Drop(k));
    var counted := Apply(dropped, ReadCount(k));
    var read := if counted.stripes[k].SawZero? then Apply(counted, ReadScan(k)) else counted;
    if read.stripes[k].SawScan? then Apply(read, Write(k)) else read
  }

  /** The accesses of one StripesScanComplete call, without interruption. */
  ghost function ScanAlone(s: State): (t: State)
    requires Enabled(s, Mark)
  {
    var read := Apply(Apply(s, Mark), ScanReadCount);
    if read.scan.ScanSawZero? then Apply(read, ScanWrite) else read
  }

  /** Uninterrupted, the accesses have exactly the effect of the methods. */
  lemma {:induction false} StepsRefineMethods(s: State, k: nat)
    ensures Enabled(s, Increase(k)) ==> Apply(s, Increase(k)).flags == Increased(s.flags)
    ensures Enabled(s, Drop(k)) ==> DecreaseAlone(s, k).flags == Decreased(s.flags) && DecreaseAlone(s, k).stripes[k].Over?
    ensures Enabled(s, Mark) ==> ScanAlone(s).flags == Scanned(s.flags) && ScanAlone(s).scan.Ended?
  {
    if Enabled(s, Drop(k)) {
      var dropped := Apply(s, Drop(k));
      assert dropped.flags.stripeCnt == s.flags.stripeCnt - 1;
    }
  }
}
