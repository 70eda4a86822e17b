/**
  The completion protocol of `Callback` as a transition system.

  Any number of callbacks form a forest through their callee pointers. Each atomic action of
  `InformError`, `Execute`, `_InvokeCallee` and `_RecordCallerCompletionAndCheckOkToCall` is one
  step, and the steps of different callbacks interleave freely.
 */
module CallbackTree {
  import opened Options
  import opened Sums
  import opened Callbacks

  /** Where one callback stands between construction and the end of `_InvokeCallee`. */
  datatype Phase =
    | Idle                     // Execute has not been called
    | Running                  // inside _DoSpecificJob
    | Queued                   // the job returned false and waits in the event queue
    | Merging(errors: nat)     // about to merge its bitmap into the callee's
    | Counting(errors: nat)    // about to add its error count to the callee's
    | Weighing                 // about to add its weight to the callee's completion count
    | Comparing(count: nat)    // holds the count its own addition produced
    | Reported                 // _InvokeCallee is past the comparison
  {
    predicate PastJob() { !Idle? && !Running? && !Queued? }
    predicate Merged() { Counting? || Counted() }
    predicate Counted() { Weighing? || Weighed() }
    predicate Weighed() { Comparing? || Reported? }
  }

  /** The wiring fixed by `SetCallee`, `SetWaitingCount` and the constructors. `depth` witnesses that it is a forest. */
  datatype Wiring = Wiring(callee: seq<Option<nat>>, weight: seq<nat>, waiting: seq<nat>, depth: seq<nat>) {

    predicate HasCaller(p: nat) {
      exists c :: 0 <= c < |callee| && callee[c] == Some(p)
    }

    ghost function Weights(p: nat): (r: seq<nat>)
      requires |weight| == |callee|
    {
      seq(|callee|, c requires 0 <= c < |callee| => if callee[c] == Some(p) then weight[c] else 0)
    }

    /** The callee of `c` exists and is nearer to its root. */
    predicate Link(c: nat)
      requires c < |callee| == |weight| == |depth|
    {
      && 0 < weight[c]
      && (callee[c].Some? ==> callee[c].value < |callee| && depth[callee[c].value] < depth[c])
    }

    /** The weights of the callers of `p` add up to its waiting count. */
    ghost predicate Balanced(p: nat)
      requires p < |callee| == |weight| == |waiting|
    {
      HasCaller(p) ==> waiting[p] == Sum(Weights(p)) < WORD
    }

    ghost predicate Valid() {
      && |weight| == |waiting| == |depth| == |callee|
      && (forall c :: 0 <= c < |callee| ==> Link(c))
      && (forall p :: 0 <= p < |callee| ==> Balanced(p))
    }

    /** Callback `j` is `r` or reports, directly or not, to `r`. */
    ghost predicate InSub(j: nat, r: nat)
      requires Valid() && j < |callee|
      decreases depth[j]
    {
      j == r || (Link(j) && callee[j].Some? && InSub(callee[j].value, r))
    }
  }

  /** One finished call of a job: which callback, and what it returned. */
  datatype JobRun = JobRun(who: nat, done: bool)

  /**
    The shared fields of every callback, and the history the theorems speak about: the errors each
    callback was told, the bits its unfinished InformError calls still have to set, the caller whose
    addition completed each count, the callers told that it is ok to call, and all job runs in order.
   */
  datatype State = State(
    errorCount: seq<nat>, bits: seq<set<nat>>, completion: seq<nat>, phase: seq<Phase>,
    pending: seq<multiset<nat>>, informed: seq<seq<nat>>,
    closer: seq<Option<nat>>, oks: seq<seq<nat>>, jobs: seq<JobRun>)
  {
    predicate Sized(n: nat) {
      && |errorCount| == |bits| == |completion| == |phase| == n
      && |pending| == |informed| == |closer| == |oks| == n
    }
  }

  datatype Step =
    | Inform(i: nat, e: nat) | SetBit(i: nat, e: nat)
    | Start(i: nat) | Retry(i: nat) | JobFails(i: nat) | JobDone(i: nat)
    | Merge(i: nat) | Count(i: nat) | Weigh(i: nat) | Compare(i: nat)

  function Init(n: nat): (s: State) {
    State(seq(n, _ => 0), seq(n, _ => {}), seq(n, _ => 0), seq(n, _ => Idle),
          seq(n, _ => multiset{}), seq(n, _ => []), seq(n, _ => None), seq(n, _ => []), [])
  }

  predicate Reports(w: Wiring, i: nat)
    requires i < |w.callee|
  {
    w.callee[i].Some? && w.callee[i].value < |w.callee|
  }

  predicate Enabled(w: Wiring, s: State, step: Step) {
    && s.Sized(|w.callee|) && step.i < |w.callee|
    && match step
       case Inform(i, e) => e <= ERROR_KINDS && !s.phase[i].PastJob()
       case SetBit(i, e) => e in s.pending[i]
       case Start(i) => s.phase[i].Idle? && !w.HasCaller(i)
       case Retry(i) => s.phase[i].Queued?
       case JobFails(i) => s.phase[i].Running?
       case JobDone(i) => s.phase[i].Running? && s.pending[i] == multiset{}
       case Merge(i) => s.phase[i].Merging? && Reports(w, i)
       case Count(i) => s.phase[i].Counting? && Reports(w, i)
       case Weigh(i) => s.phase[i].Weighing? && Reports(w, i)
       case Compare(i) => s.phase[i].Comparing? && Reports(w, i)
  }

  ghost function Apply(w: Wiring, s: State, step: Step): (t: State)
    requires |w.weight| == |w.waiting| == |w.callee| && Enabled(w, s, step)
  {
    match step
    case Inform(i, e) =>
      if e == SUCCESS then s else
        s.(errorCount := s.errorCount[i := Add32(s.errorCount[i], 1)],
           pending := s.pending[i := s.pending[i] + multiset{e}],
           informed := s.informed[i := s.informed[i] + [e]])
    case SetBit(i, e) =>
      s.(bits := s.bits[i := WithBit(s.bits[i], e)], pending := s.pending[i := s.pending[i] - multiset{e}])
    case Start(i) => s.(phase := s.phase[i := Running])
    case Retry(i) => s.(phase := s.phase[i := Running])
    case JobFails(i) => s.(phase := s.phase[i := Queued], jobs := s.jobs + [JobRun(i, false)])
    case JobDone(i) =>
      s.(phase := s.phase[i := if w.callee[i].None? then Reported else Merging(s.errorCount[i])],
         jobs := s.jobs + [JobRun(i, true)])
    case Merge(i) =>
      var p := w.callee[i].value;
      if s.phase[i].errors > 0 then
        s.(bits := s.bits[p := s.bits[p] + s.bits[i]], phase := s.phase[i := Counting(s.phase[i].errors)])
      else
        s.(phase := s.phase[i := Weighing])
    case Count(i) =>
      var p := w.callee[i].value;
      s.(errorCount := s.errorCount[p := Add32(s.errorCount[p], s.phase[i].errors)],
         phase := s.phase[i := Weighing])
    case Weigh(i) =>
      var p := w.callee[i].value;
      var increased := Add32(s.completion[p], w.weight[i]);
      s.(completion := s.completion[p := increased], phase := s.phase[i := Comparing(increased)],
         closer := if increased == w.waiting[p] then s.closer[p := Some(i)] else s.closer)
    case Compare(i) =>
      var p := w.callee[i].value;
      if s.phase[i].count == w.waiting[p] then
        s.(phase := s.phase[i := Reported][p := Running], oks := s.oks[p := s.oks[p] + [i]])
      else
        s.(phase := s.phase[i := Reported])
  }

  /** `tr` lists the states of a run that takes the given steps from the initial state. */
  ghost predicate IsRun(w: Wiring, steps: seq<Step>, tr: seq<State>) {
    && w.Valid()
    && |tr| == |steps| + 1 && tr[0] == Init(|w.callee|)
    && (forall k :: 0 <= k < |steps| ==> Enabled(w, tr[k], steps[k]) && tr[k + 1] == Apply(w, tr[k], steps[k]))
  }

  // --- The completion count and the gate it controls ---------------------------------------------

  ghost function WeighedTerms(w: Wiring, s: State, p: nat): (r: seq<nat>)
    requires w.Valid() && s.Sized(|w.callee|)
  {
    seq(|w.callee|, c requires 0 <= c < |w.callee| =>
      if w.callee[c] == Some(p) && s.phase[c].Weighed() then w.weight[c] else 0)
  }

  /** The completion count of `p` is the total weight of the callers that added theirs. */
  ghost predicate CountAt(w: Wiring, s: State, p: nat)
    requires w.Valid() && s.Sized(|w.callee|) && p < |w.callee|
  {
    w.HasCaller(p) ==> s.completion[p] == Sum(WeighedTerms(w, s, p))
  }

  /** The callee `p` opens exactly when the caller that completed its count has compared. */
  ghost predicate GateAt(w: Wiring, s: State, p: nat)
    requires w.Valid() && s.Sized(|w.callee|) && p < |w.callee|
  {
    match s.closer[p]
    case None =>
      s.oks[p] == [] && (w.HasCaller(p) ==> s.completion[p] < w.waiting[p] && s.phase[p].Idle?)
    case Some(c) =>
      && c < |w.callee| && w.callee[c] == Some(p) && s.completion[p] == w.waiting[p]
      && (s.phase[c] == Comparing(w.waiting[p]) || s.phase[c].Reported?)
      && (s.phase[p].Idle? <==> s.phase[c] != Reported)
      && s.oks[p] == if s.phase[p].Idle? then [] else [c]
  }

  /** A caller about to compare holds the waiting count exactly when its addition completed it. */
  ghost predicate CompareAt(w: Wiring, s: State, c: nat)
    requires w.Valid() && s.Sized(|w.callee|) && c < |w.callee|
  {
    s.phase[c].Comparing? && Reports(w, c) ==>
      && s.phase[c].count <= s.completion[w.callee[c].value]
      && (s.phase[c].count == w.waiting[w.callee[c].value] <==> s.closer[w.callee[c].value] == Some(c))
  }

  ghost predicate GateInv(w: Wiring, s: State)
    requires w.Valid() && s.Sized(|w.callee|)
  {
    && (forall p :: 0 <= p < |w.callee| ==> CountAt(w, s, p))
    && (forall p :: 0 <= p < |w.callee| ==> GateAt(w, s, p))
    && (forall c :: 0 <= c < |w.callee| ==> CompareAt(w, s, c))
  }

  lemma {:induction false} WeighedBound(w: Wiring, s: State, p: nat, c: nat)
    requires w.Valid() && s.Sized(|w.callee|) && p < |w.callee| && c < |w.callee| && w.callee[c] == Some(p)
    ensures Sum(WeighedTerms(w, s, p)) <= w.waiting[p] < WORD
    ensures !s.phase[c].Weighed() ==> Sum(WeighedTerms(w, s, p)) + w.weight[c] <= w.waiting[p]
  {
    assert w.Balanced(p);
    var a, b := WeighedTerms(w, s, p), w.Weights(p);
    SumBound(a, b);
    if !s.phase[c].Weighed() {
      SumUpdate(a, c, w.weight[c]);
      SumBound(a[c := w.weight[c]], b);
    }
  }

  /** A callback that has been executed has heard from all its callers. */
  lemma {:induction false} OpenIsFull(w: Wiring, s: State, c: nat)
    requires w.Valid() && s.Sized(|w.callee|) && GateInv(w, s)
    requires c < |w.callee| && Reports(w, c) && !s.phase[w.callee[c].value].Idle?
    ensures s.phase[c].Weighed()
  {
    var p := w.callee[c].value;
    assert CountAt(w, s, p) && GateAt(w, s, p) && w.Link(c);
    WeighedBound(w, s, p, c);
  }

  /** Steps of callback `i` that leave its callee's count, and whether it was executed, alone. */
  lemma {:induction false} PhaseFrame(w: Wiring, s: State, t: State, i: nat)
    requires w.Valid() && s.Sized(|w.callee|) && t.Sized(|w.callee|) && i < |w.callee| && GateInv(w, s)
    requires t.completion == s.completion && t.closer == s.closer && t.oks == s.oks
    requires t.phase == s.phase[i := t.phase[i]]
    requires w.callee[i].Some? ==> !t.phase[i].Weighed() && !s.phase[i].Weighed()
    requires w.HasCaller(i) ==> !t.phase[i].Idle? && !s.phase[i].Idle?
    ensures GateInv(w, t)
  {
    forall p | 0 <= p < |w.callee| ensures CountAt(w, t, p) {
      assert CountAt(w, s, p);
      assert WeighedTerms(w, t, p) == WeighedTerms(w, s, p);
    }
    forall p | 0 <= p < |w.callee| ensures GateAt(w, t, p) { assert GateAt(w, s, p); }
    forall c | 0 <= c < |w.callee| ensures CompareAt(w, t, c) { assert CompareAt(w, s, c); }
  }

  lemma {:induction false} WeighKeepsGate(w: Wiring, s: State, i: nat)
    requires w.Valid() && Enabled(w, s, Weigh(i)) && GateInv(w, s)
    ensures GateInv(w, Apply(w, s, Weigh(i)))
  {
    var t, p := Apply(w, s, Weigh(i)), w.callee[i].value;
    assert CountAt(w, s, p) && GateAt(w, s, p) && w.Link(i);
    WeighedBound(w, s, p, i);
    forall q | 0 <= q < |w.callee| ensures CountAt(w, t, q) {
      assert CountAt(w, s, q);
      var a, b := WeighedTerms(w, s, q), WeighedTerms(w, t, q);
      if q == p {
        assert b == a[i := w.weight[i]];
        SumUpdate(a, i, w.weight[i]);
      } else {
        assert b == a;
      }
    }
    forall q | 0 <= q < |w.callee| ensures GateAt(w, t, q) { assert GateAt(w, s, q); }
    forall c | 0 <= c < |w.callee| ensures CompareAt(w, t, c) { assert CompareAt(w, s, c); }
  }

  lemma {:induction false} CompareKeepsGate(w: Wiring, s: State, i: nat)
    requires w.Valid() && Enabled(w, s, Compare(i)) && GateInv(w, s)
    ensures GateInv(w, Apply(w, s, Compare(i)))
  {
    var t, p := Apply(w, s, Compare(i)), w.callee[i].value;
    assert CompareAt(w, s, i) && GateAt(w, s, p) && w.Link(i);
    forall q | 0 <= q < |w.callee| ensures CountAt(w, t, q) {
      assert CountAt(w, s, q);
      assert WeighedTerms(w, t, q) == WeighedTerms(w, s, q);
    }
    forall q | 0 <= q < |w.callee| ensures GateAt(w, t, q) { assert GateAt(w, s, q); }
    forall c | 0 <= c < |w.callee| ensures CompareAt(w, t, c) { assert CompareAt(w, s, c); }
  }

  lemma {:induction false} GateStep(w: Wiring, s: State, step: Step)
    requires w.Valid() && Enabled(w, s, step) && GateInv(w, s)
    ensures GateInv(w, Apply(w, s, step))
  {
    var t := Apply(w, s, step);
    match step
    case Weigh(i) => WeighKeepsGate(w, s, i);
    case Compare(i) => CompareKeepsGate(w, s, i);
    case Inform(i, e) => SameGate(w, s, t);
    case SetBit(i, e) => SameGate(w, s, t);
    case _ => PhaseFrame(w, s, t, step.i);
  }

  /** The comparison only ever lets a caller through to a callee that was not executed yet. */
  lemma {:induction false} OpensIdle(w: Wiring, s: State, step: Step)
    requires w.Valid() && Enabled(w, s, step) && GateInv(w, s)
    ensures step.Compare? && s.phase[step.i].count == w.waiting[w.callee[step.i].value] ==>
              s.phase[w.callee[step.i].value].Idle?
  {
    if step.Compare? { assert CompareAt(w, s, step.i) && GateAt(w, s, w.callee[step.i].value); }
  }

  lemma {:induction false} SameGate(w: Wiring, s: State, t: State)
    requires w.Valid() && s.Sized(|w.callee|) && t.Sized(|w.callee|) && GateInv(w, s)
    requires t.completion == s.completion && t.closer == s.closer && t.oks == s.oks && t.phase == s.phase
    ensures GateInv(w, t)
  {
    forall p | 0 <= p < |w.callee| ensures CountAt(w, t, p) {
      assert CountAt(w, s, p);
      assert WeighedTerms(w, t, p) == WeighedTerms(w, s, p);
    }
    forall p | 0 <= p < |w.callee| ensures GateAt(w, t, p) { assert GateAt(w, s, p); }
    forall c | 0 <= c < |w.callee| ensures CompareAt(w, t, c) { assert CompareAt(w, s, c); }
  }

  // --- Descendants ---------------------------------------------------------------------------------

  lemma {:induction false} SubDepth(w: Wiring, j: nat, r: nat)
    requires w.Valid() && j < |w.callee| && r < |w.callee| && w.InSub(j, r)
    ensures j == r || w.depth[r] < w.depth[j]
    decreases w.depth[j]
  {
    if j != r { SubDepth(w, w.callee[j].value, r); }
  }

  /** Once a callback has been executed, every callback below it has added its weight. */
  lemma {:induction false} BelowIsDone(w: Wiring, s: State, j: nat, r: nat)
    requires w.Valid() && s.Sized(|w.callee|) && GateInv(w, s)
    requires j < |w.callee| && r < |w.callee| && w.InSub(j, r) && j != r && !s.phase[r].Idle?
    ensures s.phase[j].Weighed()
    decreases w.depth[j]
  {
    var q := w.callee[j].value;
    if q != r { BelowIsDone(w, s, q, r); }
    OpenIsFull(w, s, j);
  }

  // --- Conservation of the error counts --------------------------------------------------------------

  /** The errors below `r` that no callee strictly below `r` has taken over yet, callback by callback. */
  ghost function HeldTerms(w: Wiring, s: State, r: nat): (t: seq<nat>)
    requires w.Valid() && s.Sized(|w.callee|)
  {
    seq(|w.callee|, j requires 0 <= j < |w.callee| =>
      if w.InSub(j, r) && (j == r || !s.phase[j].Counted()) then s.errorCount[j] else 0)
  }

  /** How many errors each callback below `r` was told. */
  ghost function ToldTerms(w: Wiring, s: State, r: nat): (t: seq<nat>)
    requires w.Valid() && s.Sized(|w.callee|)
  {
    seq(|w.callee|, j requires 0 <= j < |w.callee| => if w.InSub(j, r) then |s.informed[j]| else 0)
  }

  /** All errors told to `r` or below it. */
  ghost function Told(w: Wiring, s: State, r: nat): (t: nat)
    requires w.Valid() && s.Sized(|w.callee|)
  {
    Sum(ToldTerms(w, s, r))
  }

  ghost predicate Bounded(w: Wiring, s: State)
    requires w.Valid() && s.Sized(|w.callee|)
  {
    forall r :: 0 <= r < |w.callee| ==> Told(w, s, r) < WORD
  }

  ghost predicate ConservedAt(w: Wiring, s: State, r: nat)
    requires w.Valid() && s.Sized(|w.callee|)
  {
    Sum(HeldTerms(w, s, r)) == Told(w, s, r)
  }

  /** The error count handed to the record call is still the callback's own. */
  ghost predicate FrozenAt(w: Wiring, s: State, i: nat)
    requires s.Sized(|w.callee|) && i < |w.callee|
  {
    s.phase[i].Merging? || s.phase[i].Counting? ==> s.phase[i].errors == s.errorCount[i]
  }

  ghost predicate ErrorInv(w: Wiring, s: State)
    requires w.Valid() && s.Sized(|w.callee|)
  {
    && (forall r :: 0 <= r < |w.callee| ==> ConservedAt(w, s, r))
    && (forall i :: 0 <= i < |w.callee| ==> FrozenAt(w, s, i))
  }

  /** An executed callback holds every error told below it. */
  lemma {:induction false} OpenHoldsAll(w: Wiring, s: State, r: nat)
    requires w.Valid() && s.Sized(|w.callee|) && GateInv(w, s) && ErrorInv(w, s)
    requires r < |w.callee| && !s.phase[r].Idle?
    ensures s.errorCount[r] == Told(w, s, r)
  {
    var h := HeldTerms(w, s, r);
    forall j | 0 <= j < |h| && j != r ensures h[j] == 0 {
      if w.InSub(j, r) { BelowIsDone(w, s, j, r); }
    }
    SumSingle(h, r);
    assert ConservedAt(w, s, r);
  }

  lemma {:induction false} SameErrors(w: Wiring, s: State, t: State)
    requires w.Valid() && s.Sized(|w.callee|) && t.Sized(|w.callee|) && ErrorInv(w, s)
    requires t.errorCount == s.errorCount && t.informed == s.informed
    requires forall j :: 0 <= j < |w.callee| && w.callee[j].Some? ==>
               t.phase[j].Counted() == s.phase[j].Counted() || s.errorCount[j] == 0
    requires forall j :: 0 <= j < |w.callee| ==> FrozenAt(w, t, j)
    ensures ErrorInv(w, t)
  {
    forall r | 0 <= r < |w.callee| ensures ConservedAt(w, t, r) {
      assert ConservedAt(w, s, r);
      assert HeldTerms(w, t, r) == HeldTerms(w, s, r);
      assert ToldTerms(w, t, r) == ToldTerms(w, s, r);
    }
  }

  lemma {:induction false} InformKeepsErrors(w: Wiring, s: State, i: nat, e: nat)
    requires w.Valid() && Enabled(w, s, Inform(i, e)) && ErrorInv(w, s) && e != SUCCESS
    requires Bounded(w, Apply(w, s, Inform(i, e)))
    ensures ErrorInv(w, Apply(w, s, Inform(i, e)))
  {
    var t := Apply(w, s, Inform(i, e));
    assert ConservedAt(w, s, i) && Told(w, t, i) < WORD;
    ToldGrows(w, s, i, e, i);
    SumAtLeast(HeldTerms(w, s, i), i, i);
    forall r | 0 <= r < |w.callee| ensures ConservedAt(w, t, r) {
      assert ConservedAt(w, s, r);
      ToldGrows(w, s, i, e, r);
      var a := HeldTerms(w, s, r);
      if w.InSub(i, r) {
        assert HeldTerms(w, t, r) == a[i := a[i] + 1];
        SumUpdate(a, i, a[i] + 1);
      } else {
        assert HeldTerms(w, t, r) == a;
      }
    }
    forall j | 0 <= j < |w.callee| ensures FrozenAt(w, t, j) { assert FrozenAt(w, s, j); }
  }

  lemma {:induction false} ToldGrows(w: Wiring, s: State, i: nat, e: nat, r: nat)
    requires w.Valid() && Enabled(w, s, Inform(i, e)) && e != SUCCESS
    ensures Told(w, Apply(w, s, Inform(i, e)), r) == Told(w, s, r) + if w.InSub(i, r) then 1 else 0
  {
    var t, b := Apply(w, s, Inform(i, e)), ToldTerms(w, s, r);
    if w.InSub(i, r) {
      assert ToldTerms(w, t, r) == b[i := b[i] + 1];
      SumUpdate(b, i, b[i] + 1);
    } else {
      assert ToldTerms(w, t, r) == b;
    }
  }

  lemma {:induction false} CountKeepsErrors(w: Wiring, s: State, i: nat)
    requires w.Valid() && Enabled(w, s, Count(i)) && GateInv(w, s) && ErrorInv(w, s) && Bounded(w, s)
    ensures ErrorInv(w, Apply(w, s, Count(i)))
  {
    var t, p := Apply(w, s, Count(i)), w.callee[i].value;
    assert w.Link(i) && FrozenAt(w, s, i) && ConservedAt(w, s, p) && Told(w, s, p) < WORD;
    if !s.phase[p].Idle? { OpenIsFull(w, s, i); }
    var e := s.errorCount[i];
    SumAtLeast(HeldTerms(w, s, p), p, i);
    forall r | 0 <= r < |w.callee| ensures ConservedAt(w, t, r) { CountConserves(w, s, i, r); }
    forall j | 0 <= j < |w.callee| ensures FrozenAt(w, t, j) { assert FrozenAt(w, s, j); }
  }

  lemma {:induction false} CountConserves(w: Wiring, s: State, i: nat, r: nat)
    requires w.Valid() && Enabled(w, s, Count(i)) && r < |w.callee| && ConservedAt(w, s, r)
    requires s.phase[w.callee[i].value].Idle? && FrozenAt(w, s, i)
    requires s.errorCount[w.callee[i].value] + s.errorCount[i] < WORD
    ensures ConservedAt(w, Apply(w, s, Count(i)), r)
  {
    var t, p, e := Apply(w, s, Count(i)), w.callee[i].value, s.errorCount[i];
    var a := HeldTerms(w, s, r);
    assert w.Link(i);
    assert ToldTerms(w, t, r) == ToldTerms(w, s, r);
    CountMoves(w, s, i, r);
    if w.InSub(i, r) && i != r {
      SumUpdate(a, i, 0);
      SumUpdate(a[i := 0], p, a[p] + e);
    }
  }

  /** The errors a caller held are held by its callee from then on. */
  lemma {:induction false} CountMoves(w: Wiring, s: State, i: nat, r: nat)
    requires w.Valid() && Enabled(w, s, Count(i)) && r < |w.callee|
    requires s.phase[w.callee[i].value].Idle? && FrozenAt(w, s, i)
    requires s.errorCount[w.callee[i].value] + s.errorCount[i] < WORD
    ensures var a, t, p := HeldTerms(w, s, r), HeldTerms(w, Apply(w, s, Count(i)), r), w.callee[i].value;
            if w.InSub(i, r) && i != r
            then i != p && p < |a| && a[i] == s.errorCount[i] && t == a[i := 0][p := a[p] + a[i]]
            else t == a
  {
    assert w.Link(i);
    if !w.InSub(i, r) || i == r {
      if w.InSub(w.callee[i].value, r) { SubDepth(w, w.callee[i].value, r); }
    }
  }

  lemma {:induction false} ErrorStep(w: Wiring, s: State, step: Step)
    requires w.Valid() && Enabled(w, s, step) && GateInv(w, s) && ErrorInv(w, s)
    requires Bounded(w, s) && Bounded(w, Apply(w, s, step))
    ensures ErrorInv(w, Apply(w, s, step))
  {
    var t := Apply(w, s, step);
    if step.Inform? {
      if step.e != SUCCESS { InformKeepsErrors(w, s, step.i, step.e); }
    } else if step.Count? {
      CountKeepsErrors(w, s, step.i);
    } else {
      assert FrozenAt(w, s, step.i);
      forall j | 0 <= j < |w.callee| ensures FrozenAt(w, t, j) { assert FrozenAt(w, s, j); }
      OpensIdle(w, s, step);
      SameErrors(w, s, t);
    }
  }
}
