/**
  Every run of the callback protocol: what the error bitmaps hold, in which order the jobs run, and
  the theorems about whole runs that follow.
 */
module CallbackRuns {
  import opened Options
  import opened Sums
  import opened Callbacks
  import opened CallbackTree

  // --- The error bitmaps -----------------------------------------------------------------------------

  /** Some callback at or below `p` was told error `e`. */
  ghost predicate ToldBelow(w: Wiring, s: State, p: nat, e: nat)
    requires w.Valid() && s.Sized(|w.callee|)
  {
    exists j :: 0 <= j < |w.callee| && w.InSub(j, p) && e in s.informed[j]
  }

  /** Every bit of `p`, set or about to be set, was told at or below `p`. */
  ghost predicate SoundAt(w: Wiring, s: State, p: nat)
    requires w.Valid() && s.Sized(|w.callee|) && p < |w.callee|
  {
    && (forall e :: e in s.bits[p] ==> e < ERROR_KINDS && ToldBelow(w, s, p, e))
    && (forall e :: e in s.pending[p] ==> ToldBelow(w, s, p, e))
  }

  /** Every error `i` was told is in its bitmap once its InformError calls have returned. */
  ghost predicate CompleteAt(w: Wiring, s: State, i: nat)
    requires s.Sized(|w.callee|) && i < |w.callee|
  {
    && (forall e :: e in s.informed[i] && e < ERROR_KINDS ==> e in s.bits[i] || e in s.pending[i])
    && (s.phase[i].PastJob() ==> s.pending[i] == multiset{})
  }

  /** A callback that merged has all its bits in its callee. */
  ghost predicate PassedAt(w: Wiring, s: State, i: nat)
    requires s.Sized(|w.callee|) && i < |w.callee|
  {
    s.phase[i].Merged() && Reports(w, i) ==> s.bits[i] <= s.bits[w.callee[i].value]
  }

  ghost predicate BitInv(w: Wiring, s: State)
    requires w.Valid() && s.Sized(|w.callee|)
  {
    && (forall p :: 0 <= p < |w.callee| ==> SoundAt(w, s, p))
    && (forall i :: 0 <= i < |w.callee| ==> CompleteAt(w, s, i))
    && (forall i :: 0 <= i < |w.callee| ==> PassedAt(w, s, i))
  }

  lemma {:induction false} ToldStays(w: Wiring, s: State, step: Step, p: nat, e: nat)
    requires w.Valid() && Enabled(w, s, step) && ToldBelow(w, s, p, e)
    ensures ToldBelow(w, Apply(w, s, step), p, e)
  {
    var j :| 0 <= j < |w.callee| && w.InSub(j, p) && e in s.informed[j];
    assert e in Apply(w, s, step).informed[j];
  }

  /** A bit of `p` after a step was there before, or was pending, or came from a merging caller. */
  lemma {:induction false} BitOrigin(w: Wiring, s: State, step: Step, p: nat, e: nat)
    requires w.Valid() && Enabled(w, s, step) && p < |w.callee|
    ensures e in Apply(w, s, step).bits[p] ==>
              || e in s.bits[p]
              || (e in s.pending[p] && e < ERROR_KINDS)
              || (step.Merge? && w.callee[step.i] == Some(p) && e in s.bits[step.i])
    ensures e in Apply(w, s, step).pending[p] ==> e in s.pending[p] || e in Apply(w, s, step).informed[p]
  {
  }

  lemma {:induction false} SoundStep(w: Wiring, s: State, step: Step, p: nat)
    requires w.Valid() && Enabled(w, s, step) && p < |w.callee| && SoundAt(w, s, p) && SoundAt(w, s, step.i)
    ensures SoundAt(w, Apply(w, s, step), p)
  {
    var t := Apply(w, s, step);
    forall e | e in t.bits[p] ensures e < ERROR_KINDS && ToldBelow(w, t, p, e) {
      BitOrigin(w, s, step, p, e);
      if e in s.bits[p] || (e in s.pending[p] && e < ERROR_KINDS) {
        ToldStays(w, s, step, p, e);
      } else {
        MergedIsTold(w, s, step.i, e);
      }
    }
    forall e | e in t.pending[p] ensures ToldBelow(w, t, p, e) {
      BitOrigin(w, s, step, p, e);
      if e in s.pending[p] { ToldStays(w, s, step, p, e); } else { assert w.InSub(p, p); }
    }
  }

  lemma {:induction false} MergedIsTold(w: Wiring, s: State, i: nat, e: nat)
    requires w.Valid() && Enabled(w, s, Merge(i)) && SoundAt(w, s, i) && e in s.bits[i]
    ensures e < ERROR_KINDS && ToldBelow(w, Apply(w, s, Merge(i)), w.callee[i].value, e)
  {
    var j :| 0 <= j < |w.callee| && w.InSub(j, i) && e in s.informed[j];
    SubTrans(w, j, i);
    assert e in Apply(w, s, Merge(i)).informed[j];
  }

  /** What lies below a caller lies below its callee. */
  lemma {:induction false} SubTrans(w: Wiring, j: nat, i: nat)
    requires w.Valid() && j < |w.callee| && i < |w.callee| && w.InSub(j, i) && Reports(w, i)
    ensures w.InSub(j, w.callee[i].value)
    decreases w.depth[j]
  {
    assert w.Link(j) && w.Link(i);
    if j != i { SubTrans(w, w.callee[j].value, i); }
  }

  lemma {:induction false} NothingToPass(w: Wiring, s: State, i: nat)
    requires w.Valid() && s.Sized(|w.callee|) && GateInv(w, s) && ErrorInv(w, s) && i < |w.callee| && SoundAt(w, s, i)
    requires s.phase[i].PastJob() && s.errorCount[i] == 0
    ensures s.bits[i] == {}
  {
    OpenHoldsAll(w, s, i);
    if e :| e in s.bits[i] {
      var j :| 0 <= j < |w.callee| && w.InSub(j, i) && e in s.informed[j];
      SumAtLeast(ToldTerms(w, s, i), j, j);
    }
  }

  lemma {:induction false} PassedStep(w: Wiring, s: State, step: Step, i: nat)
    requires w.Valid() && Enabled(w, s, step) && i < |w.callee|
    requires GateInv(w, s) && ErrorInv(w, s) && BitInv(w, s)
    ensures PassedAt(w, Apply(w, s, step), i)
  {
    assert PassedAt(w, s, i) && CompleteAt(w, s, i) && FrozenAt(w, s, i) && w.Link(i) && w.Link(step.i);
    assert SoundAt(w, s, i);
    if step.Merge? && step.i == i && s.phase[i].errors == 0 { NothingToPass(w, s, i); }
    if step.Merge? && Reports(w, step.i) && w.callee[step.i].value == i && !s.phase[i].Idle? { OpenIsFull(w, s, step.i); }
    OpensIdle(w, s, step);
  }

  lemma {:induction false} BitStep(w: Wiring, s: State, step: Step)
    requires w.Valid() && Enabled(w, s, step) && GateInv(w, s) && ErrorInv(w, s) && BitInv(w, s)
    ensures BitInv(w, Apply(w, s, step))
  {
    var t := Apply(w, s, step);
    forall p | 0 <= p < |w.callee| ensures SoundAt(w, t, p) {
      assert SoundAt(w, s, p) && SoundAt(w, s, step.i);
      SoundStep(w, s, step, p);
    }
    forall i | 0 <= i < |w.callee| ensures PassedAt(w, t, i) { PassedStep(w, s, step, i); }
    forall i | 0 <= i < |w.callee| ensures CompleteAt(w, t, i) { OpensIdle(w, s, step); CompleteStep(w, s, step, i); }
  }

  lemma {:induction false} CompleteStep(w: Wiring, s: State, step: Step, i: nat)
    requires w.Valid() && Enabled(w, s, step) && i < |w.callee| && CompleteAt(w, s, i)
    requires step.Compare? && s.phase[step.i].count == w.waiting[w.callee[step.i].value] ==>
               s.phase[w.callee[step.i].value].Idle?
    ensures CompleteAt(w, Apply(w, s, step), i)
  {
    if step.Inform? {
      CompleteInform(w, s, step.i, step.e, i);
    } else if step.SetBit? {
      CompleteSetBit(w, s, step.i, step.e, i);
    } else {
      BitsStay(w, s, step, i);
      if !step.JobDone? { PastStays(w, s, step, i); }
    }
  }

  lemma {:induction false} CompleteInform(w: Wiring, s: State, j: nat, e: nat, i: nat)
    requires w.Valid() && Enabled(w, s, Inform(j, e)) && i < |w.callee| && CompleteAt(w, s, i)
    ensures CompleteAt(w, Apply(w, s, Inform(j, e)), i)
  {
  }

  lemma {:induction false} CompleteSetBit(w: Wiring, s: State, j: nat, e: nat, i: nat)
    requires w.Valid() && Enabled(w, s, SetBit(j, e)) && i < |w.callee| && CompleteAt(w, s, i)
    ensures CompleteAt(w, Apply(w, s, SetBit(j, e)), i)
  {
  }

  /** Outside InformError nothing is told and no bit is lost. */
  lemma {:induction false} BitsStay(w: Wiring, s: State, step: Step, i: nat)
    requires w.Valid() && Enabled(w, s, step) && i < |w.callee| && !step.Inform? && !step.SetBit?
    ensures var t := Apply(w, s, step);
            t.informed == s.informed && t.pending == s.pending && s.bits[i] <= t.bits[i]
  {
  }

  /** Only the end of a job takes a callback past it. */
  lemma {:induction false} PastStays(w: Wiring, s: State, step: Step, i: nat)
    requires w.Valid() && Enabled(w, s, step) && i < |w.callee| && !step.JobDone?
    requires step.Compare? && s.phase[step.i].count == w.waiting[w.callee[step.i].value] ==>
               s.phase[w.callee[step.i].value].Idle?
    ensures Apply(w, s, step).phase[i].PastJob() == s.phase[i].PastJob()
  {
  }

  /** Below a callback whose job is done, bits only travel upwards. */
  lemma {:induction false} BitsRise(w: Wiring, s: State, j: nat, r: nat)
    requires w.Valid() && s.Sized(|w.callee|) && GateInv(w, s) && BitInv(w, s)
    requires j < |w.callee| && r < |w.callee| && w.InSub(j, r) && !s.phase[r].Idle?
    ensures s.bits[j] <= s.bits[r]
    decreases w.depth[j]
  {
    if j != r {
      BelowIsDone(w, s, j, r);
      assert PassedAt(w, s, j);
      BitsRise(w, s, w.callee[j].value, r);
    }
  }

  // --- The order of the jobs ---------------------------------------------------------------------------

  /** The job of `i` has returned true once if `i` is past it, and never otherwise. */
  ghost predicate OnceAt(s: State, i: nat)
    requires i < |s.phase|
  {
    multiset(s.jobs)[JobRun(i, true)] == if s.phase[i].PastJob() then 1 else 0
  }

  /** A callback without callee never starts to report. */
  ghost predicate RootAt(w: Wiring, s: State, i: nat)
    requires i < |s.phase| == |w.callee|
  {
    w.callee[i].None? && s.phase[i].PastJob() ==> s.phase[i].Reported?
  }

  /** Before the k-th job run, everything below that callback had finished its job. */
  ghost predicate OrderedAt(w: Wiring, jobs: seq<JobRun>, k: nat)
    requires w.Valid() && k < |jobs|
  {
    && jobs[k].who < |w.callee|
    && (forall j :: 0 <= j < |w.callee| && w.InSub(j, jobs[k].who) && j != jobs[k].who ==>
          JobRun(j, true) in jobs[..k])
  }

  ghost predicate JobInv(w: Wiring, s: State)
    requires w.Valid() && s.Sized(|w.callee|)
  {
    && (forall i :: 0 <= i < |w.callee| ==> OnceAt(s, i) && RootAt(w, s, i))
    && (forall k :: 0 <= k < |s.jobs| ==> OrderedAt(w, s.jobs, k))
  }

  lemma {:induction false} AppendJob(w: Wiring, s: State, i: nat, run: JobRun)
    requires w.Valid() && s.Sized(|w.callee|) && GateInv(w, s) && JobInv(w, s)
    requires i < |w.callee| && s.phase[i].Running? && run.who == i
    ensures forall k :: 0 <= k < |s.jobs| + 1 ==> OrderedAt(w, s.jobs + [run], k)
  {
    var jobs := s.jobs + [run];
    forall k | 0 <= k < |jobs| ensures OrderedAt(w, jobs, k) {
      if k < |s.jobs| {
        assert OrderedAt(w, s.jobs, k) && jobs[..k] == s.jobs[..k];
      } else {
        assert jobs[..k] == s.jobs;
        forall j | 0 <= j < |w.callee| && w.InSub(j, i) && j != i ensures JobRun(j, true) in jobs[..k] {
          BelowIsDone(w, s, j, i);
          assert OnceAt(s, j);
        }
      }
    }
  }

  lemma {:induction false} JobStep(w: Wiring, s: State, step: Step)
    requires w.Valid() && Enabled(w, s, step) && GateInv(w, s) && JobInv(w, s)
    ensures JobInv(w, Apply(w, s, step))
  {
    var t := Apply(w, s, step);
    OpensIdle(w, s, step);
    forall i | 0 <= i < |w.callee| ensures OnceAt(t, i) && RootAt(w, t, i) { OnceStep(w, s, step, i); }
    if step.JobDone? { AppendJob(w, s, step.i, JobRun(step.i, true)); }
    else if step.JobFails? { AppendJob(w, s, step.i, JobRun(step.i, false)); }
  }

  lemma {:induction false} OnceStep(w: Wiring, s: State, step: Step, i: nat)
    requires w.Valid() && Enabled(w, s, step) && i < |w.callee| && OnceAt(s, i) && RootAt(w, s, i)
    requires step.Compare? && s.phase[step.i].count == w.waiting[w.callee[step.i].value] ==>
               s.phase[w.callee[step.i].value].Idle?
    ensures OnceAt(Apply(w, s, step), i) && RootAt(w, Apply(w, s, step), i)
  {
    var t := Apply(w, s, step);
    if !step.JobDone? { PastStays(w, s, step, i); }
    if !step.JobDone? && !step.JobFails? { assert t.jobs == s.jobs; }
  }

  // --- Whole runs --------------------------------------------------------------------------------------

  lemma {:induction false} InitHolds(w: Wiring)
    requires w.Valid()
    ensures GateInv(w, Init(|w.callee|)) && ErrorInv(w, Init(|w.callee|))
    ensures BitInv(w, Init(|w.callee|)) && JobInv(w, Init(|w.callee|))
  {
    var s, n := Init(|w.callee|), |w.callee|;
    forall p | 0 <= p < n ensures CountAt(w, s, p) && GateAt(w, s, p) && ConservedAt(w, s, p) {
      SumZero(WeighedTerms(w, s, p));
      SumZero(HeldTerms(w, s, p));
      SumZero(ToldTerms(w, s, p));
      if w.HasCaller(p) {
        var c :| 0 <= c < |w.callee| && w.callee[c] == Some(p);
        assert w.Link(c);
        WeighedBound(w, s, p, c);
      }
    }
    forall i | 0 <= i < n ensures FrozenAt(w, s, i) && CompareAt(w, s, i) && SoundAt(w, s, i) {}
    forall i | 0 <= i < n ensures CompleteAt(w, s, i) && PassedAt(w, s, i) && OnceAt(s, i) && RootAt(w, s, i) {}
  }

  lemma {:induction false} RunGate(w: Wiring, steps: seq<Step>, tr: seq<State>, k: nat)
    requires IsRun(w, steps, tr) && k < |tr|
    ensures tr[k].Sized(|w.callee|) && GateInv(w, tr[k]) && JobInv(w, tr[k])
  {
    if k == 0 {
      InitHolds(w);
    } else {
      RunGate(w, steps, tr, k - 1);
      GateStep(w, tr[k - 1], steps[k - 1]);
      JobStep(w, tr[k - 1], steps[k - 1]);
    }
  }

  lemma {:induction false} ToldOnlyGrows(w: Wiring, s: State, step: Step)
    requires w.Valid() && Enabled(w, s, step) && Bounded(w, Apply(w, s, step))
    ensures Bounded(w, s)
  {
    var t := Apply(w, s, step);
    forall r | 0 <= r < |w.callee| ensures Told(w, s, r) < WORD {
      assert Told(w, t, r) < WORD;
      if step.Inform? && step.e != SUCCESS {
        ToldGrows(w, s, step.i, step.e, r);
      } else {
        assert ToldTerms(w, t, r) == ToldTerms(w, s, r);
      }
    }
  }

  lemma {:induction false} RunErrors(w: Wiring, steps: seq<Step>, tr: seq<State>, k: nat)
    requires IsRun(w, steps, tr) && k < |tr|
    requires tr[k].Sized(|w.callee|) && Bounded(w, tr[k])
    ensures GateInv(w, tr[k]) && ErrorInv(w, tr[k]) && BitInv(w, tr[k])
  {
    RunGate(w, steps, tr, k);
    if k == 0 {
      InitHolds(w);
    } else {
      var s, step := tr[k - 1], steps[k - 1];
      RunGate(w, steps, tr, k - 1);
      ToldOnlyGrows(w, s, step);
      RunErrors(w, steps, tr, k - 1);
      ErrorStep(w, s, step);
      BitStep(w, s, step);
    }
  }

  /**
    In every interleaving at most one caller is told that it is ok to call, it is the caller whose
    addition completed the count, the callee is executed exactly then, and once all callers have
    reported that has happened. The count never exceeds the waiting count.
   */
  lemma {:induction false} ExactlyOneOk(w: Wiring, steps: seq<Step>, tr: seq<State>, k: nat, p: nat)
    requires IsRun(w, steps, tr) && k < |tr| && p < |w.callee| && w.HasCaller(p)
    ensures tr[k].Sized(|w.callee|)
    ensures |tr[k].oks[p]| <= 1 && tr[k].completion[p] <= w.waiting[p]
    ensures tr[k].oks[p] == [] <==> tr[k].phase[p].Idle?
    ensures forall c :: c in tr[k].oks[p] ==>
              c < |w.callee| && w.callee[c] == Some(p) && tr[k].closer[p] == Some(c) && tr[k].phase[c].Reported?
    ensures (forall c :: 0 <= c < |w.callee| && w.callee[c] == Some(p) ==> tr[k].phase[c].Reported?) ==>
              |tr[k].oks[p]| == 1
  {
    var s := tr[k];
    RunGate(w, steps, tr, k);
    assert CountAt(w, s, p) && GateAt(w, s, p) && w.Balanced(p);
    SumBound(WeighedTerms(w, s, p), w.Weights(p));
    if forall c :: 0 <= c < |w.callee| && w.callee[c] == Some(p) ==> s.phase[c].Reported? {
      AllHeard(w, s, p);
    }
  }

  /** The caller that is let through performed the addition that brought the count to the waiting count. */
  lemma {:induction false} CloserCompleted(w: Wiring, steps: seq<Step>, tr: seq<State>, k: nat, p: nat)
    requires IsRun(w, steps, tr) && k < |tr| && p < |w.callee|
    ensures tr[k].Sized(|w.callee|)
    ensures tr[k].closer[p].Some? ==>
              exists m :: 0 <= m < k && tr[m].Sized(|w.callee|) && tr[m + 1].Sized(|w.callee|)
                       && steps[m] == Weigh(tr[k].closer[p].value)
                       && tr[m].completion[p] < w.waiting[p] && tr[m + 1].completion[p] == w.waiting[p]
  {
    RunGate(w, steps, tr, k);
    if k > 0 && tr[k].closer[p].Some? {
      var s, step := tr[k - 1], steps[k - 1];
      RunGate(w, steps, tr, k - 1);
      CloserCompleted(w, steps, tr, k - 1, p);
      if tr[k].closer[p] != s.closer[p] { CloserStep(w, s, step, p); }
    }
  }

  /** Only the weighing that completes the count changes the closer. */
  lemma {:induction false} CloserStep(w: Wiring, s: State, step: Step, p: nat)
    requires w.Valid() && Enabled(w, s, step) && GateInv(w, s) && p < |w.callee|
    requires Apply(w, s, step).closer[p] != s.closer[p]
    ensures var t := Apply(w, s, step);
            && t.closer[p].Some? && step == Weigh(t.closer[p].value)
            && s.completion[p] < w.waiting[p] && t.completion[p] == w.waiting[p]
  {
    assert step.Weigh? && w.callee[step.i] == Some(p);
    assert GateAt(w, s, p) && CountAt(w, s, p) && w.Link(step.i);
    WeighedBound(w, s, p, step.i);
  }

  /** A job first runs only after every callback below has finished its own job and recorded its completion. */
  lemma {:induction false} SubtreeFirst(w: Wiring, steps: seq<Step>, tr: seq<State>, k: nat, r: nat, j: nat)
    requires IsRun(w, steps, tr) && k < |tr| && r < |w.callee| && j < |w.callee|
    requires w.InSub(j, r) && j != r
    ensures tr[k].Sized(|w.callee|)
    ensures !tr[k].phase[r].Idle? ==> tr[k].phase[j].Weighed()
    ensures forall n :: 0 <= n < |tr[k].jobs| && tr[k].jobs[n].who == r ==> JobRun(j, true) in tr[k].jobs[..n]
    ensures multiset(tr[k].jobs)[JobRun(r, true)] <= 1
  {
    RunGate(w, steps, tr, k);
    if !tr[k].phase[r].Idle? { BelowIsDone(w, tr[k], j, r); }
    forall n | 0 <= n < |tr[k].jobs| && tr[k].jobs[n].who == r ensures JobRun(j, true) in tr[k].jobs[..n] {
      assert OrderedAt(w, tr[k].jobs, n);
    }
    assert OnceAt(tr[k], r);
  }

  lemma {:induction false} WeighedStays(w: Wiring, s: State, step: Step, i: nat)
    requires w.Valid() && Enabled(w, s, step) && GateInv(w, s) && i < |w.callee| && s.phase[i].Weighed()
    ensures Apply(w, s, step).phase[i].Weighed()
  {
    OpensIdle(w, s, step);
  }

  lemma {:induction false} WeighedLater(w: Wiring, steps: seq<Step>, tr: seq<State>, i: nat, a: nat, b: nat)
    requires IsRun(w, steps, tr) && a <= b < |tr| && i < |w.callee|
    requires tr[a].Sized(|w.callee|) && tr[a].phase[i].Weighed()
    ensures tr[b].Sized(|w.callee|) && tr[b].phase[i].Weighed()
  {
    if a < b {
      WeighedLater(w, steps, tr, i, a, b - 1);
      RunGate(w, steps, tr, b - 1);
      WeighedStays(w, tr[b - 1], steps[b - 1], i);
    }
  }

  /** No callback adds its weight to its callee twice, however often its job was retried. */
  lemma {:induction false} ReportsOnce(w: Wiring, steps: seq<Step>, tr: seq<State>, i: nat, a: nat, b: nat)
    requires IsRun(w, steps, tr) && a < b < |steps| && steps[a] == Weigh(i)
    ensures steps[b] != Weigh(i)
  {
    WeighedLater(w, steps, tr, i, a + 1, b);
  }

  /** From the start of its job on, a callback's bitmap holds every error told below it. */
  lemma {:induction false} BelowIsCollected(w: Wiring, s: State, r: nat, j: nat, e: nat)
    requires w.Valid() && s.Sized(|w.callee|) && GateInv(w, s) && BitInv(w, s)
    requires r < |w.callee| && j < |w.callee| && w.InSub(j, r) && !s.phase[r].Idle?
    requires e in s.informed[j] && e < ERROR_KINDS
    ensures e in s.bits[r] || (j == r && e in s.pending[r])
  {
    assert CompleteAt(w, s, j);
    if j != r {
      BelowIsDone(w, s, j, r);
      BitsRise(w, s, j, r);
    }
  }

  /**
    The bitmap of `r` holds all errors told below `r`, and those told to `r` itself whose InformError calls
    have returned; none of those below is more critical than the one `r` reports.
   */
  ghost predicate Collected(w: Wiring, s: State, r: nat)
    requires w.Valid() && s.Sized(|w.callee|) && r < |w.callee|
  {
    forall j, e: nat :: 0 <= j < |w.callee| && w.InSub(j, r) && e in s.informed[j] && e < ERROR_KINDS ==>
      && (e in s.bits[r] || (j == r && e in s.pending[r]))
      && (j != r ==> MostCritical(s.bits[r]) <= e)
  }

  lemma {:induction false} CollectedOnceOpen(w: Wiring, s: State, r: nat)
    requires w.Valid() && s.Sized(|w.callee|) && GateInv(w, s) && BitInv(w, s) && r < |w.callee| && !s.phase[r].Idle?
    ensures Collected(w, s, r)
  {
    forall j, e: nat | 0 <= j < |w.callee| && w.InSub(j, r) && e in s.informed[j] && e < ERROR_KINDS
      ensures e in s.bits[r] || (j == r && e in s.pending[r])
    {
      BelowIsCollected(w, s, r, j, e);
    }
  }

  /**
    From the moment a callback is executed its error count is the number of errors told at or below it, and
    its bitmap has collected them. At no time does the bitmap hold an error that was not told there. When
    the job is done, the bitmap is exactly the set of all those errors, and the most critical one is the least.
   */
  lemma {:induction false} CollectsAll(w: Wiring, steps: seq<Step>, tr: seq<State>, k: nat, r: nat)
    requires IsRun(w, steps, tr) && k < |tr| && r < |w.callee|
    requires tr[k].Sized(|w.callee|) && Bounded(w, tr[k])
    ensures !tr[k].phase[r].Idle? ==> tr[k].errorCount[r] == Told(w, tr[k], r) && Collected(w, tr[k], r)
    ensures forall e: nat :: e in tr[k].bits[r] ==> e < ERROR_KINDS && ToldBelow(w, tr[k], r, e)
    ensures tr[k].phase[r].PastJob() ==>
              forall e: nat :: e in tr[k].bits[r] <==> e < ERROR_KINDS && ToldBelow(w, tr[k], r, e)
    ensures tr[k].phase[r].PastJob() ==>
              var m := MostCritical(tr[k].bits[r]);
              && (m < ERROR_KINDS ==> ToldBelow(w, tr[k], r, m))
              && (forall e :: 0 <= e < m ==> !ToldBelow(w, tr[k], r, e))
  {
    var s := tr[k];
    RunErrors(w, steps, tr, k);
    assert SoundAt(w, s, r) && CompleteAt(w, s, r);
    if !s.phase[r].Idle? {
      OpenHoldsAll(w, s, r);
      CollectedOnceOpen(w, s, r);
    }
  }

  /** Once all callers of `p` have reported, `p` has been executed. */
  lemma {:induction false} AllHeard(w: Wiring, s: State, p: nat)
    requires w.Valid() && s.Sized(|w.callee|) && GateInv(w, s) && p < |w.callee| && w.HasCaller(p)
    requires forall c :: 0 <= c < |w.callee| && w.callee[c] == Some(p) ==> s.phase[c].Reported?
    ensures !s.phase[p].Idle?
  {
    assert GateAt(w, s, p) && CountAt(w, s, p) && w.Balanced(p);
    assert WeighedTerms(w, s, p) == w.Weights(p);
  }

  /** How far a callback still has to go. */
  function Rank(p: Phase): (r: nat) {
    match p
    case Idle => 7
    case Queued => 6
    case Running => 5
    case Merging(_) => 4
    case Counting(_) => 3
    case Weighing => 2
    case Comparing(_) => 1
    case Reported => 0
  }

  ghost function Ranks(s: State): (r: seq<nat>) { seq(|s.phase|, i requires 0 <= i < |s.phase| => Rank(s.phase[i])) }

  ghost function Unset(s: State): (r: seq<nat>) { seq(|s.pending|, i requires 0 <= i < |s.pending| => |s.pending[i]|) }

  /** A step that finishes an InformError call, or takes a callback forward. */
  predicate Forward(step: Step) { !step.Inform? && !step.JobFails? }

  /** Each such step brings the whole tree nearer to its end. */
  lemma {:induction false} ForwardIsNearer(w: Wiring, s: State, step: Step)
    requires w.Valid() && Enabled(w, s, step) && GateInv(w, s) && Forward(step)
    ensures var t := Apply(w, s, step);
            Sum(Ranks(t)) < Sum(Ranks(s)) || (Sum(Ranks(t)) == Sum(Ranks(s)) && Sum(Unset(t)) < Sum(Unset(s)))
  {
    var t := Apply(w, s, step);
    if step.SetBit? {
      assert Ranks(t) == Ranks(s);
      SumUpdate(Unset(s), step.i, |t.pending[step.i]|);
      assert Unset(t) == Unset(s)[step.i := |t.pending[step.i]|];
    } else {
      OpensIdle(w, s, step);
      RanksFall(w, s, step);
      assert Ranks(t)[step.i] < Ranks(s)[step.i];
      SumBound(Ranks(t), Ranks(s));
    }
  }

  lemma {:induction false} RanksFall(w: Wiring, s: State, step: Step)
    requires w.Valid() && Enabled(w, s, step) && Forward(step) && !step.SetBit?
    requires step.Compare? && s.phase[step.i].count == w.waiting[w.callee[step.i].value] ==>
               s.phase[w.callee[step.i].value].Idle?
    ensures var t := Apply(w, s, step);
            |t.phase| == |s.phase| && Rank(t.phase[step.i]) < Rank(s.phase[step.i])
            && forall i :: 0 <= i < |s.phase| ==> Rank(t.phase[i]) <= Rank(s.phase[i])
  {
    assert w.Link(step.i);
  }

  lemma {:induction false} FindStep(w: Wiring, s: State, i: nat) returns (step: Step)
    requires w.Valid() && s.Sized(|w.callee|) && GateInv(w, s) && JobInv(w, s)
    requires i < |w.callee| && !s.phase[i].Reported?
    ensures Enabled(w, s, step) && Forward(step)
    decreases Sum(w.depth) - w.depth[i]
  {
    assert w.Link(i) && RootAt(w, s, i);
    if c :| 0 <= c < |w.callee| && w.callee[c] == Some(i) && !s.phase[c].Reported? {
      assert w.Link(c);
      SumAtLeast(w.depth, c, c);
      step := FindStep(w, s, c);
    } else {
      if w.HasCaller(i) { AllHeard(w, s, i); }
      match s.phase[i] {
        case Idle => step := Start(i);
        case Running =>
          if e :| e in s.pending[i] { step := SetBit(i, e); } else { step := JobDone(i); }
        case Queued => step := Retry(i);
        case Merging(_) => step := Merge(i);
        case Counting(_) => step := Count(i);
        case Weighing => step := Weigh(i);
        case Comparing(_) => step := Compare(i);
      }
    }
  }

  /** No completion is lost: while some callback has not reported, a step that takes the tree forward is enabled. */
  lemma {:induction false} NoDeadlock(w: Wiring, steps: seq<Step>, tr: seq<State>, k: nat, i: nat)
    requires IsRun(w, steps, tr) && k < |tr| && i < |w.callee|
    requires tr[k].Sized(|w.callee|) && !tr[k].phase[i].Reported?
    ensures exists step :: Enabled(w, tr[k], step) && Forward(step)
  {
    RunGate(w, steps, tr, k);
    var step := FindStep(w, tr[k], i);
  }

  ghost predicate AllReported(s: State) { forall i :: 0 <= i < |s.phase| ==> s.phase[i].Reported? }

  lemma {:induction false} OneMoreStep(w: Wiring, steps: seq<Step>, tr: seq<State>, step: Step)
    requires IsRun(w, steps, tr) && Enabled(w, tr[|steps|], step)
    ensures IsRun(w, steps + [step], tr + [Apply(w, tr[|steps|], step)])
  {
    var longer, states := steps + [step], tr + [Apply(w, tr[|steps|], step)];
    forall k | 0 <= k < |longer|
      ensures Enabled(w, states[k], longer[k]) && states[k + 1] == Apply(w, states[k], longer[k])
    {
      if k < |steps| { assert Enabled(w, tr[k], steps[k]) && tr[k + 1] == Apply(w, tr[k], steps[k]); }
    }
  }

  /** A step that continues the run and brings it nearer to its end. */
  lemma {:induction false} NextForward(w: Wiring, steps: seq<Step>, tr: seq<State>) returns (step: Step)
    requires IsRun(w, steps, tr) && !AllReported(tr[|steps|])
    ensures Enabled(w, tr[|steps|], step) && Forward(step)
    ensures var s := tr[|steps|]; var t := Apply(w, s, step);
            && IsRun(w, steps + [step], tr + [t])
            && (Sum(Ranks(t)) < Sum(Ranks(s)) || (Sum(Ranks(t)) == Sum(Ranks(s)) && Sum(Unset(t)) < Sum(Unset(s))))
  {
    var s := tr[|steps|];
    RunGate(w, steps, tr, |steps|);
    var i :| 0 <= i < |s.phase| && !s.phase[i].Reported?;
    step := FindStep(w, s, i);
    OneMoreStep(w, steps, tr, step);
    ForwardIsNearer(w, s, step);
  }

  /** Every run can be continued, without failing jobs, until every callback has reported. */
  lemma {:induction false} CanFinish(w: Wiring, steps: seq<Step>, tr: seq<State>) returns (more: seq<Step>, states: seq<State>)
    requires IsRun(w, steps, tr)
    ensures IsRun(w, steps + more, states) && tr <= states && AllReported(states[|steps + more|])
    ensures forall k :: 0 <= k < |more| ==> Forward(more[k])
    decreases Sum(Ranks(tr[|steps|])), Sum(Unset(tr[|steps|]))
  {
    var s := tr[|steps|];
    if AllReported(s) {
      more, states := [], tr;
      assert steps + more == steps;
    } else {
      var step := NextForward(w, steps, tr);
      var rest;
      rest, states := CanFinish(w, steps + [step], tr + [Apply(w, s, step)]);
      more := [step] + rest;
      assert steps + more == steps + [step] + rest;
    }
  }

  /** Uninterrupted, the two steps of an InformError call have exactly the effect of the method. */
  lemma {:induction false} StepsRefineInform(w: Wiring, s: State, i: nat, e: nat)
    requires w.Valid() && Enabled(w, s, Inform(i, e)) && e != SUCCESS
    ensures var told := Apply(w, s, Inform(i, e));
            && Enabled(w, told, SetBit(i, e))
            && var t := Apply(w, told, SetBit(i, e));
               && t.errorCount[i] == Add32(s.errorCount[i], 1) && t.bits[i] == WithBit(s.bits[i], e)
               && t.pending == s.pending && t.informed[i] == s.informed[i] + [e]
  {
    var told := Apply(w, s, Inform(i, e));
    assert told.pending[i] - multiset{e} == s.pending[i];
  }

  /** The steps of callback `i` between the end of its job and the comparison, run without interruption. */
  ghost function ReportAlone(w: Wiring, s: State, i: nat): (t: State)
    requires w.Valid() && Enabled(w, s, Merge(i))
  {
    var merged := Apply(w, s, Merge(i));
    var counted := if merged.phase[i].Counting? then Apply(w, merged, Count(i)) else merged;
    Apply(w, Apply(w, counted, Weigh(i)), Compare(i))
  }

  /** Uninterrupted, the steps have exactly the effect of the record method on the callee. */
  lemma {:induction false} StepsRefineRecord(w: Wiring, s: State, i: nat)
    requires w.Valid() && Enabled(w, s, Merge(i)) && FrozenAt(w, s, i)
    ensures var p, t := w.callee[i].value, ReportAlone(w, s, i);
            var r := Record(s.errorCount[p], s.bits[p], s.completion[p], w.waiting[p],
                            s.errorCount[i], s.bits[i], w.weight[i]);
            && r == Recorded(t.errorCount[p], t.bits[p], t.completion[p], r.ok)
            && t.oks[p] == s.oks[p] + (if r.ok then [i] else [])
            && t.phase[p] == (if r.ok then Running else s.phase[p]) && t.phase[i].Reported?
  {
    var merged := Apply(w, s, Merge(i));
    assert w.Link(i) && merged.errorCount == s.errorCount;
  }
}
