/** The SMART log query as a client of the callback protocol: one request per disk, one handler for all. */
module SmartFanIn {
  import opened Options
  import opened Sums
  import opened Callbacks
  import opened CallbackTree
  import opened CallbackRuns
  import opened SmartLog

  /** The wiring `SendSmartCommandtoDisk` sets up: requests 0 to n-1 report to handler n. */
  ghost function Star(n: nat): (w: Wiring) {
    Wiring(seq(n + 1, i => if i < n then Some(n) else None), seq(n + 1, _ => 1),
           seq(n + 1, i => if i < n then 1 else n), seq(n + 1, i => if i < n then 1 else 0))
  }

  lemma {:induction false} SumOfOnes(s: seq<nat>, n: nat)
    requires |s| == n + 1 && s[n] == 0 && forall i :: 0 <= i < n ==> s[i] == 1
    ensures Sum(s) == n
  {
    if n > 0 { SumOfOnes(s[1..], n - 1); } else { assert s[1..] == []; }
  }

  lemma {:induction false} StarIsValid(n: nat)
    requires 0 < n < WORD
    ensures Star(n).Valid()
  {
    var w := Star(n);
    SumOfOnes(w.Weights(n), n);
    forall p | 0 <= p < |w.callee| ensures w.Balanced(p) {}
  }

  /** Builds the requests and the handler. With no disk nothing is built and nothing will complete. */
  method SendSmartCommandToDisk(devices: nat) returns (requests: seq<Callback>, handler: Callback?)
    ensures |requests| == devices && (handler == null <==> devices == 0)
    ensures handler != null ==> fresh(handler) && handler.waitingCount == devices && handler.completionCount == 0
    ensures handler != null ==> handler.callee == null && handler !in requests
    ensures forall i :: 0 <= i < |requests| ==> requests[i].callee == handler && requests[i].weight == 1
    ensures forall i, j :: 0 <= i < j < |requests| ==> requests[i] != requests[j]
  {
    requests := [];
    if devices == 0 { return [], null; }
    handler := new Callback(1);
    handler.SetWaitingCount(devices);
    for k := 0 to devices
      invariant |requests| == k && fresh(handler) && handler !in requests
      invariant handler.waitingCount == devices && handler.completionCount == 0 && handler.callee == null
      invariant forall i :: 0 <= i < k ==> requests[i].callee == handler && requests[i].weight == 1
      invariant forall i, j :: 0 <= i < j < k ==> requests[i] != requests[j]
    {
      var request := new Callback(1);
      request.SetCallee(handler);
      requests := requests + [request];
    }
  }

  /** What a handler makes of the page when it is the `at`-th job run. */
  type Handler = (Page, nat) -> Page

  /** A handler whose result does not depend on the data units the merge left behind. */
  ghost predicate Settles(h: Handler) {
    && (forall p: Page, at: nat :: WellFormed(p.vitals) ==> WellFormed(h(p, at).vitals))
    && (forall p: Page, q: Page, at: nat :: Alike(p, q) ==> h(p, at) == h(q, at))
  }

  /** The SMART completion handler, given the readings of every moment. */
  ghost function SmartHandler(readings: nat -> Readings): (h: Handler) {
    (p: Page, at: nat) => Handle(p, readings(at))
  }

  lemma {:induction false} SmartHandlerSettles(readings: nat -> Readings)
    ensures Settles(SmartHandler(readings))
  {
    var h := SmartHandler(readings);
    forall p: Page, at: nat | WellFormed(p.vitals) ensures WellFormed(h(p, at).vitals) {
      assert h(p, at) == Handle(p, readings(at));
    }
    forall p: Page, q: Page, at: nat | Alike(p, q) ensures h(p, at) == h(q, at) {
      assert p.vitals == q.vitals;
      assert h(p, at) == Handle(p, readings(at)) && h(q, at) == Handle(q, readings(at));
    }
  }

  /** The result page after the given job runs, the first of them being the `at`-th: requests merge, the handler handles. */
  ghost function PageAfter(p: Page, pages: seq<Page>, jobs: seq<JobRun>, at: nat, h: Handler): (r: Page)
    requires WellFormed(p.vitals) && AllWellFormed(pages) && Settles(h)
    decreases |jobs|
  {
    if jobs == [] then p
    else if jobs[0].who < |pages| then PageAfter(MergePage(p, pages[jobs[0].who]), pages, jobs[1..], at + 1, h)
    else PageAfter(h(p, at), pages, jobs[1..], at + 1, h)
  }

  /** The page after `times` runs of the handler, the first of them being the `at`-th job run. */
  ghost function HandleTimes(p: Page, times: nat, at: nat, h: Handler): (r: Page)
    decreases times
  {
    if times == 0 then p else HandleTimes(h(p, at), times - 1, at + 1, h)
  }

  ghost function Upto(n: nat): (s: seq<nat>) { seq(n, i => i) }

  ghost function Whos(jobs: seq<JobRun>): (s: seq<nat>) {
    seq(|jobs|, k requires 0 <= k < |jobs| => jobs[k].who)
  }

  lemma {:induction false} HandlerPhase(p: Page, pages: seq<Page>, jobs: seq<JobRun>, at: nat, h: Handler)
    requires WellFormed(p.vitals) && AllWellFormed(pages) && Settles(h)
    requires forall k :: 0 <= k < |jobs| ==> jobs[k].who >= |pages|
    ensures PageAfter(p, pages, jobs, at, h) == HandleTimes(p, |jobs|, at, h)
    decreases |jobs|
  {
    if jobs != [] { HandlerPhase(h(p, at), pages, jobs[1..], at + 1, h); }
  }

  /** When request runs come first and handler runs follow, the page is the merge in that order, then handled. */
  lemma {:induction false} TwoPhases(p: Page, pages: seq<Page>, jobs: seq<JobRun>, order: seq<nat>, at: nat, h: Handler)
    requires WellFormed(p.vitals) && AllWellFormed(pages) && Settles(h)
    requires |order| <= |jobs| && Indices(order, |pages|)
    requires forall k :: 0 <= k < |order| ==> jobs[k].who == order[k]
    requires forall k :: |order| <= k < |jobs| ==> jobs[k].who >= |pages|
    ensures PageAfter(p, pages, jobs, at, h) == HandleTimes(MergeIn(p, pages, order), |jobs| - |order|, at + |order|, h)
    decreases |order|
  {
    if order == [] {
      HandlerPhase(p, pages, jobs, at, h);
    } else {
      TwoPhases(MergePage(p, pages[order[0]]), pages, jobs[1..], order[1..], at + 1, h);
    }
  }

  /** The requests' order is a permutation of the disks. */
  lemma {:induction false} OrderIsPermutation(order: seq<nat>, n: nat)
    requires |order| == n && Indices(order, n)
    requires forall i :: 0 <= i < n ==> multiset(order)[i] == 1
    ensures multiset(order) == multiset(Upto(n))
  {
    forall x: nat ensures multiset(order)[x] == multiset(Upto(n))[x] {
      if x < n {
        UptoOnce(n, x);
      } else {
        assert x !in order && x !in Upto(n);
      }
    }
  }

  lemma {:induction false} UptoOnce(n: nat, x: nat)
    requires x < n
    ensures multiset(Upto(n))[x] == 1
  {
    assert Upto(n) == Upto(n - 1) + [n - 1];
    if x == n - 1 { assert x !in Upto(n - 1); } else { UptoOnce(n - 1, x); }
  }

  /** After the handler's first run there is no further request run, and before it there are exactly all requests. */
  lemma {:induction false} HandlerRunsLast(n: nat, steps: seq<Step>, tr: seq<State>, k: nat)
    requires Finished(n, steps, tr, k)
    ensures n < |tr[k].jobs|
    ensures forall m :: n <= m < |tr[k].jobs| ==> tr[k].jobs[m].who == n
    ensures Indices(Whos(tr[k].jobs[..n]), n) && multiset(Whos(tr[k].jobs[..n])) == multiset(Upto(n))
  {
    var w, s := Star(n), tr[k];
    RunGate(w, steps, tr, k);
    assert OnceAt(s, n);
    assert JobRun(n, true) in s.jobs;
    var f := FirstOf(s.jobs, n);
    assert OrderedAt(w, s.jobs, f);
    forall i | 0 <= i < n ensures JobRun(i, true) in s.jobs[..f] { assert w.InSub(i, n); }
    forall i | 0 <= i < n ensures multiset(Whos(s.jobs[..f]))[i] == 1 { RequestOnce(w, s, i, f); }
    forall m | f <= m < |s.jobs| ensures s.jobs[m].who == n { NoneAfter(w, s, f, m); }
    forall m | 0 <= m < f ensures s.jobs[m].who < n { assert OrderedAt(w, s.jobs, m); }
    CountDistinct(Whos(s.jobs[..f]), n);
    OrderIsPermutation(Whos(s.jobs[..f]), n);
  }

  ghost function FirstOf(jobs: seq<JobRun>, n: nat): (f: nat)
    requires exists m :: 0 <= m < |jobs| && jobs[m].who == n
    ensures f < |jobs| && jobs[f].who == n && forall m :: 0 <= m < f ==> jobs[m].who != n
  {
    if jobs[0].who == n then 0 else
      assert jobs == [jobs[0]] + jobs[1..];
      1 + FirstOf(jobs[1..], n)
  }

  lemma {:induction false} RequestOnce(w: Wiring, s: State, i: nat, f: nat)
    requires f <= |s.jobs| && i < |s.phase| && OnceAt(s, i)
    requires JobRun(i, true) in s.jobs[..f] && JobRun(i, false) !in s.jobs
    ensures multiset(Whos(s.jobs[..f]))[i] == 1 && JobRun(i, true) !in s.jobs[f..]
  {
    assert s.jobs == s.jobs[..f] + s.jobs[f..];
    WhosCount(s.jobs[..f], i);
  }

  lemma {:induction false} WhosCount(jobs: seq<JobRun>, i: nat)
    requires JobRun(i, false) !in jobs
    ensures multiset(Whos(jobs))[i] == multiset(jobs)[JobRun(i, true)]
  {
    if jobs != [] {
      var last := |jobs| - 1;
      WhosCount(jobs[..last], i);
      assert jobs == jobs[..last] + [jobs[last]] && Whos(jobs) == Whos(jobs[..last]) + [jobs[last].who];
    }
  }

  lemma {:induction false} NoneAfter(w: Wiring, s: State, f: nat, m: nat)
    requires w.Valid() && s.Sized(|w.callee|) && JobInv(w, s) && f <= m < |s.jobs| && |w.callee| > 0
    requires forall i :: 0 <= i < |w.callee| - 1 ==> JobRun(i, true) in s.jobs[..f] && JobRun(i, false) !in s.jobs
    ensures s.jobs[m].who == |w.callee| - 1
  {
    assert OrderedAt(w, s.jobs, m);
    var i := s.jobs[m].who;
    if i < |w.callee| - 1 {
      assert s.jobs[m] == JobRun(i, s.jobs[m].done);
      assert OnceAt(s, i);
      assert s.jobs[m] == s.jobs[f..][m - f];
      RequestOnce(w, s, i, f);
    }
  }

  /** A sequence over 0 to n-1 that holds every value once has length n. */
  lemma {:induction false} CountDistinct(order: seq<nat>, n: nat)
    requires Indices(order, n) && forall i :: 0 <= i < n ==> multiset(order)[i] == 1
    ensures |order| == n
  {
    if n > 0 {
      assert n - 1 in multiset(order);
      var k :| 0 <= k < |order| && order[k] == n - 1;
      var rest := order[..k] + order[k + 1..];
      RemoveAt(order, k);
      assert multiset(rest)[n - 1] == 0;
      forall m | 0 <= m < |rest| ensures rest[m] < n - 1 { assert rest[m] in multiset(rest); }
      CountDistinct(rest, n - 1);
    }
  }

  /**
    Whatever the completion order of the disks, the page at the end is the merge of all disks' pages in
    disk order, handled once for each run of the handler; so it does not depend on that order.
   */
  lemma {:induction false} SameFinalPage(initial: Page, pages: seq<Page>, h: Handler, steps: seq<Step>, tr: seq<State>, k: nat)
    requires WellFormed(initial.vitals) && AllWellFormed(pages) && Settles(h)
    requires Finished(|pages|, steps, tr, k)
    ensures |pages| < |tr[k].jobs|
    ensures PageAfter(initial, pages, tr[k].jobs, 0, h) ==
              HandleTimes(MergeIn(initial, pages, Upto(|pages|)), |tr[k].jobs| - |pages|, |pages|, h)
  {
    var n, jobs := |pages|, tr[k].jobs;
    HandlerRunsLast(n, steps, tr, k);
    var order := Whos(jobs[..n]);
    TwoPhases(initial, pages, jobs, order, 0, h);
    AnyOrder(initial, pages, order, Upto(n));
  }

  /** A finished query: the handler is past its job and no request's job failed, as `SmartLogUpdateRequest` never does. */
  ghost predicate Finished(n: nat, steps: seq<Step>, tr: seq<State>, k: nat) {
    && 0 < n < WORD && IsRun(Star(n), steps, tr) && k < |tr|
    && tr[k].Sized(n + 1) && tr[k].phase[n].PastJob()
    && (forall i :: 0 <= i < n ==> JobRun(i, false) !in tr[k].jobs)
  }

  /** Two finished queries in which the handler ran equally often end with the same page. */
  lemma {:induction false} OrderDoesNotMatter(initial: Page, pages: seq<Page>, readings: nat -> Readings,
                           steps1: seq<Step>, tr1: seq<State>, k1: nat, steps2: seq<Step>, tr2: seq<State>, k2: nat)
    requires WellFormed(initial.vitals) && AllWellFormed(pages)
    requires Finished(|pages|, steps1, tr1, k1) && Finished(|pages|, steps2, tr2, k2)
    requires |tr1[k1].jobs| == |tr2[k2].jobs|
    ensures Settles(SmartHandler(readings))
    ensures PageAfter(initial, pages, tr1[k1].jobs, 0, SmartHandler(readings)) ==
            PageAfter(initial, pages, tr2[k2].jobs, 0, SmartHandler(readings))
  {
    SmartHandlerSettles(readings);
    SameFinalPage(initial, pages, SmartHandler(readings), steps1, tr1, k1);
    SameFinalPage(initial, pages, SmartHandler(readings), steps2, tr2, k2);
  }
}
