/**
  Device detachment and rebuild of an array. Every method runs under the array's state lock, so each is
  one step; the rebuild itself runs outside the lock and reports its result in a later step.
 */
module ArrayRebuild {
  import opened Options

  datatype DevState = Normal | Fault | Rebuild

  /** A data slot of the array: its state and the block device in it. */
  datatype Dev = Dev(state: DevState, block: Option<nat>)

  datatype Status = NotExist | ExistNormal | ExistDegraded | Broken | TryMount | TryUnmount | Online | Degraded | Rebuilding
  {
    predicate IsMounted() { Online? || Degraded? || Rebuilding? }
  }

  datatype RaidState = RaidNormal | RaidDegraded | RaidFailure

  /** A rebuild that was started and has not reported: its slot and the block device it rebuilds. */
  datatype Job = Job(target: nat, block: Option<nat>)

  /** A rebuild event that a worker has taken up: it has looked at its target and decided to resume or to trigger. */
  datatype Handler = Handler(target: Option<nat>, resume: bool)

  /**
    `queue` holds the targets of the queued rebuild events and `handlers` the events taken up; `awaiting`
    counts the successful SetRebuild calls whose SetRebuildDone is still to come.
   */
  datatype State = State(devs: seq<Dev>, spares: seq<nat>, status: Status, queue: seq<Option<nat>>,
                         handlers: seq<Handler>, jobs: seq<Job>, awaiting: nat)

  // --- ArrayState ----------------------------------------------------------------------------------------

  function RaidUpdated(status: Status, rs: RaidState): (r: Status) {
    match rs
    case RaidFailure => Broken
    case RaidNormal => if status.IsMounted() then Online else ExistNormal
    case RaidDegraded => if status.IsMounted() then Degraded else ExistDegraded
  }

  /** SetRebuild succeeds from the degraded state when the rebuilding situation is reached in time. */
  predicate CanSetRebuild(s: State, reached: bool) { s.status.Degraded? && reached }

  function RebuildEnded(s: State, success: bool): (r: State) {
    s.(status := if success && s.status.Rebuilding? then Online else s.status,
       awaiting := if s.awaiting == 0 then 0 else s.awaiting - 1)
  }

  // --- The steps -----------------------------------------------------------------------------------------

  /** Importing gives a slot no block device exactly when its state becomes fault, which a missing device makes it. */
  function Imported(stored: DevState, found: Option<nat>): (d: Dev)
    ensures d.state.Fault? <==> d.block.None?
    ensures d.block.Some? <==> found.Some? && !stored.Fault?
    ensures d.block.Some? ==> d.block == found && d.state == stored
  {
    if stored.Fault? || found.None? then Dev(Fault, None) else Dev(stored, found)
  }

  function Detached(s: State, t: nat, rs: RaidState, flushOk: bool): (r: State)
    requires t < |s.devs|
  {
    if s.devs[t].state.Fault? then s else
      var stop := s.devs[t].state.Rebuild?;
      var u := s.(devs := s.devs[t := Dev(Fault, None)], status := RaidUpdated(s.status, rs));
      if u.status.IsMounted() && !flushOk then u
      else if stop || u.status.Broken? then u
      else if u.status.Degraded? then u.(queue := u.queue + [Some(t)])
      else u
  }

  /** The first slot in fault. */
  function FirstFaulty(devs: seq<Dev>): (r: Option<nat>)
    ensures r.Some? ==> r.value < |devs| && devs[r.value].state.Fault?
    ensures r.Some? ==> forall i :: 0 <= i < r.value ==> !devs[i].state.Fault?
    ensures r.None? <==> forall i :: 0 <= i < |devs| ==> !devs[i].state.Fault?
  {
    if devs == [] then None
    else if devs[0].state.Fault? then Some(0)
    else match FirstFaulty(devs[1..]) { case None => None case Some(i) => Some(i + 1) }
  }

  /** The slot a rebuild event is about; without a target it is the first one in fault. */
  function TriggerTarget(s: State, target: Option<nat>): (r: Option<nat>) {
    if target.Some? then target else FirstFaulty(s.devs)
  }

  predicate ReadyForSpare(d: Dev) { d.state.Fault? && d.block.None? }

  /** The trigger passes all its checks and puts a spare into slot `t`. */
  predicate Installs(s: State, target: Option<nat>, reached: bool) {
    && TriggerTarget(s, target).Some? && TriggerTarget(s, target).value < |s.devs|
    && ReadyForSpare(s.devs[TriggerTarget(s, target).value])
    && CanSetRebuild(s, reached) && s.spares != []
  }

  function Triggered(s: State, target: Option<nat>, reached: bool, flushOk: bool): (r: State)
    requires target.Some? ==> target.value < |s.devs|
  {
    if TriggerTarget(s, target).None? then s else
      var t := TriggerTarget(s, target).value;
      if !ReadyForSpare(s.devs[t]) || !CanSetRebuild(s, reached) then s
      else if s.spares == [] then s
      else
        var spare := s.spares[|s.spares| - 1];
        var u := s.(devs := s.devs[t := Dev(Rebuild, Some(spare))], spares := s.spares[..|s.spares| - 1],
                    status := Rebuilding, awaiting := s.awaiting + 1);
        if flushOk then u.(jobs := u.jobs + [Job(t, Some(spare))]) else u
  }

  function Resumed(s: State, t: nat, reached: bool): (r: State)
    requires t < |s.devs|
  {
    if !CanSetRebuild(s, reached) then s
    else s.(status := Rebuilding, awaiting := s.awaiting + 1, jobs := s.jobs + [Job(t, s.devs[t].block)])
  }

  function Completed(s: State, k: nat, pass: bool): (r: State)
    requires k < |s.jobs| && s.jobs[k].target < |s.devs|
  {
    var t, u := s.jobs[k].target, s.(jobs := Without(s.jobs, k));
    if !pass then RebuildEnded(u, false).(queue := u.queue + [None])
    else if u.devs[t].state.Fault? then RebuildEnded(u, true).(queue := u.queue + [None])
    else RebuildEnded(u.(devs := u.devs[t := u.devs[t].(state := Normal)]), true)
  }

  function Without<T>(s: seq<T>, k: nat): (r: seq<T>)
    requires k < |s|
  {
    s[..k] + s[k + 1..]
  }

  /** A worker takes up event `q`; the state of its target is looked at without the lock. */
  function Dispatched(s: State, q: nat): (r: State)
    requires q < |s.queue| && (s.queue[q].Some? ==> s.queue[q].value < |s.devs|)
  {
    var resume := s.queue[q].Some? && s.devs[s.queue[q].value].state.Rebuild?;
    s.(queue := Without(s.queue, q), handlers := s.handlers + [Handler(s.queue[q], resume)])
  }

  predicate AsksForRetry(s: State, target: Option<nat>)
    requires target.Some? ==> target.value < |s.devs|
  {
    TriggerTarget(s, target).Some? && !ReadyForSpare(s.devs[TriggerTarget(s, target).value])
  }

  /** Event `h` triggers a rebuild; it is queued again when its target is not detached yet. */
  function HandlerTriggered(s: State, h: nat, reached: bool, flushOk: bool): (r: State)
    requires h < |s.handlers| && (s.handlers[h].target.Some? ==> s.handlers[h].target.value < |s.devs|)
  {
    var target, u := s.handlers[h].target, s.(handlers := Without(s.handlers, h));
    if AsksForRetry(s, target) then u.(queue := u.queue + [target]) else Triggered(u, target, reached, flushOk)
  }

  /** Event `h` resumes a rebuild; the answer that it was started is taken as a request to run the event again. */
  function HandlerResumed(s: State, h: nat, reached: bool): (r: State)
    requires h < |s.handlers| && s.handlers[h].target.Some? && s.handlers[h].target.value < |s.devs|
  {
    var target, u := s.handlers[h].target, Resumed(s.(handlers := Without(s.handlers, h)), s.handlers[h].target.value, reached);
    if CanSetRebuild(s, reached) then u.(queue := u.queue + [target]) else u
  }

  /** A spare is added to a mounted array; a degraded array then queues a rebuild of the first slot in fault. */
  function SpareAdded(s: State, spare: nat, accepted: bool, flushOk: bool): (r: State) {
    if !s.status.IsMounted() || !accepted then s
    else
      var u := s.(spares := s.spares + [spare]);
      if flushOk && s.status.Degraded? then u.(queue := u.queue + [None]) else u
  }

  function FirstRebuilding(devs: seq<Dev>): (r: Option<nat>)
    ensures r.Some? ==> r.value < |devs| && devs[r.value].state.Rebuild?
    ensures r.Some? ==> forall i :: 0 <= i < r.value ==> !devs[i].state.Rebuild?
    ensures r.None? <==> forall i :: 0 <= i < |devs| ==> !devs[i].state.Rebuild?
  {
    if devs == [] then None
    else if devs[0].state.Rebuild? then Some(0)
    else match FirstRebuilding(devs[1..]) { case None => None case Some(i) => Some(i + 1) }
  }

  /** The event queued at the end of a mount: for the slot left in rebuild, or for the first one in fault. */
  function Necessity(s: State): (r: State) {
    var t := FirstRebuilding(s.devs);
    if t.None? then s.(queue := s.queue + [None])
    else if s.devs[t.value].block.Some? then s.(queue := s.queue + [t])
    else s
  }

  /** The block device an I/O saw is still in its slot. */
  predicate StillThere(s: State, t: nat, seen: Option<nat>)
    requires t < |s.devs|
  {
    seen.Some? && s.devs[t].block == seen
  }

  /** What `IsRecoverable` does to the array when an I/O to slot `t` failed on block device `seen`. */
  function Recovered(s: State, t: nat, seen: Option<nat>, rs: RaidState, flushOk: bool): (r: State)
    requires t < |s.devs|
  {
    if s.status.Broken? || !s.status.IsMounted() || !StillThere(s, t, seen) then s else Detached(s, t, rs, flushOk)
  }

  class Array {
    var devs: seq<Dev>
    var spares: seq<nat>
    var status: Status
    var queue: seq<Option<nat>>
    var handlers: seq<Handler>
    var jobs: seq<Job>
    var awaiting: nat

    ghost function View(): (s: State)
      reads this
    {
      State(devs, spares, status, queue, handlers, jobs, awaiting)
    }

    constructor (devs: seq<Dev>, spares: seq<nat>, status: Status)
      ensures View() == State(devs, spares, status, [], [], [], 0)
    {
      this.devs, this.spares, this.status := devs, spares, status;
      queue, handlers, jobs, awaiting := [], [], [], 0;
    }

    /** The slot must hold a block device, whose name is looked up first. */
    method DetachData(t: nat, rs: RaidState, flushOk: bool)
      requires t < |devs| && devs[t].block.Some?
      modifies this
      ensures View() == Detached(old(View()), t, rs, flushOk)
    {
      var name := devs[t].block.value;
      if devs[t].state == Fault { return; }
      var needStopRebuild := devs[t].state == Rebuild;
      devs := devs[t := devs[t].(state := Fault)];
      status := RaidUpdated(status, rs);
      devs := devs[t := devs[t].(block := None)];
      if status.IsMounted() && !flushOk { return; }
      if needStopRebuild || status.Broken? {
        // the running rebuild is told to stop; it reports in a later step
      } else if status.Degraded? {
        queue := queue + [Some(t)];
      }
    }

    /** The locked part of `DetachDevice` for a data device. */
    method DetachDevice(t: nat, rs: RaidState, flushOk: bool)
      requires t < |devs| && FaultIffEmpty(View())
      modifies this
      ensures View() == Detached(old(View()), t, rs, flushOk)
    {
      if devs[t].state != Fault {
        DetachData(t, rs, flushOk);
      }
    }

    method IsRecoverable(t: nat, seen: Option<nat>, rs: RaidState, flushOk: bool) returns (recoverable: bool)
      requires t < |devs|
      modifies this
      ensures View() == Recovered(old(View()), t, seen, rs, flushOk)
      ensures old(status.Broken? || !status.IsMounted()) ==> !recoverable
      ensures old(status.IsMounted()) && !old(StillThere(View(), t, seen)) ==> recoverable
      ensures old(status.IsMounted()) && old(StillThere(View(), t, seen)) ==>
                (recoverable <==> status.Degraded? || status.ExistDegraded?)
    {
      if status.Broken? || !status.IsMounted() { return false; }
      if seen == None || devs[t].block != seen { return true; }
      DetachData(t, rs, flushOk);
      recoverable := status.ExistDegraded? || status.Degraded?;
    }

    method TriggerRebuild(target: Option<nat>, reached: bool, flushOk: bool) returns (retry: bool)
      requires target.Some? ==> target.value < |devs|
      modifies this
      ensures View() == Triggered(old(View()), target, reached, flushOk)
      ensures retry <==> old(AsksForRetry(View(), target))
    {
      retry := false;
      var t: nat;
      if target.None? {
        var faulty := GetFaulty();
        if faulty.None? { return; }
        t := faulty.value;
      } else {
        t := target.value;
      }
      if devs[t].state != Fault || devs[t].block != None { return true; }
      var granted := SetRebuild(reached);
      if !granted { return; }
      if spares == [] {
        awaiting := awaiting - 1;
        status := Degraded;
        return;
      }
      devs := devs[t := devs[t].(block := Some(spares[|spares| - 1]))];
      spares := spares[..|spares| - 1];
      devs := devs[t := devs[t].(state := Rebuild)];
      if !flushOk { return; }
      jobs := jobs + [Job(t, devs[t].block)];
    }

    method GetFaulty() returns (r: Option<nat>)
      ensures r == FirstFaulty(devs)
    {
      var i := 0;
      while i < |devs|
        invariant i <= |devs|
        invariant FirstFaulty(devs) == match FirstFaulty(devs[i..]) { case None => None case Some(k) => Some(k + i) }
      {
        assert devs[i..][1..] == devs[i + 1..];
        if devs[i].state == Fault { return Some(i); }
        i := i + 1;
      }
      r := None;
    }

    method SetRebuild(reached: bool) returns (ok: bool)
      modifies this`status, this`awaiting
      ensures ok == old(CanSetRebuild(View(), reached))
      ensures status == if ok then Rebuilding else old(status)
      ensures awaiting == if ok then old(awaiting) + 1 else old(awaiting)
    {
      if !status.Degraded? { return false; }
      status := Rebuilding;
      if !reached {
        status := Degraded;
        return false;
      }
      awaiting := awaiting + 1;
      ok := true;
    }

    method ResumeRebuild(t: nat, reached: bool) returns (started: bool)
      requires t < |devs|
      modifies this
      ensures View() == Resumed(old(View()), t, reached)
      ensures started == old(CanSetRebuild(View(), reached))
    {
      started := SetRebuild(reached);
      if started { jobs := jobs + [Job(t, devs[t].block)]; }
    }

    method SetRebuildDone(success: bool)
      modifies this`status, this`awaiting
      ensures View() == RebuildEnded(old(View()), success)
    {
      if awaiting > 0 { awaiting := awaiting - 1; }
      if success && status.Rebuilding? { status := Online; }
    }

    method RebuildDone(k: nat, pass: bool)
      requires k < |jobs| && jobs[k].target < |devs|
      modifies this
      ensures View() == Completed(old(View()), k, pass)
    {
      var t := jobs[k].target;
      jobs := jobs[..k] + jobs[k + 1..];
      if !pass {
        SetRebuildDone(false);
        queue := queue + [None];
        return;
      }
      var again := false;
      if devs[t].state != Fault {
        devs := devs[t := devs[t].(state := Normal)];
      } else {
        again := true;
      }
      SetRebuildDone(true);
      if again { queue := queue + [None]; }
    }

    method AddSpare(spare: nat, accepted: bool, flushOk: bool) returns (added: bool)
      modifies this`spares, this`queue
      ensures View() == SpareAdded(old(View()), spare, accepted, flushOk)
      ensures added <==> status.IsMounted() && accepted && flushOk
    {
      if !status.IsMounted() || !accepted { return false; }
      spares := spares + [spare];
      if !flushOk { return false; }
      if status.Degraded? { queue := queue + [None]; }
      added := true;
    }

    method GetRebuilding() returns (r: Option<nat>)
      ensures r == FirstRebuilding(devs)
    {
      var i := 0;
      while i < |devs|
        invariant i <= |devs|
        invariant FirstRebuilding(devs) == match FirstRebuilding(devs[i..]) { case None => None case Some(k) => Some(k + i) }
      {
        assert devs[i..][1..] == devs[i + 1..];
        if devs[i].state == Rebuild { return Some(i); }
        i := i + 1;
      }
      r := None;
    }

    method CheckRebuildNecessity()
      modifies this`queue
      ensures View() == Necessity(old(View()))
    {
      var t := GetRebuilding();
      if t.None? {
        queue := queue + [None];
      } else if devs[t.value].block.Some? {
        queue := queue + [t];
      }
    }

    /** The head of an event's Execute, before it takes the lock. */
    method Dispatch(q: nat)
      requires q < |queue| && (queue[q].Some? ==> queue[q].value < |devs|)
      modifies this`queue, this`handlers
      ensures View() == Dispatched(old(View()), q)
    {
      var target := queue[q];
      queue := Without(queue, q);
      var resume := target.Some? && devs[target.value].state == Rebuild;
      handlers := handlers + [Handler(target, resume)];
    }

    method ExecuteTrigger(h: nat, reached: bool, flushOk: bool)
      requires h < |handlers| && (handlers[h].target.Some? ==> handlers[h].target.value < |devs|)
      modifies this
      ensures View() == HandlerTriggered(old(View()), h, reached, flushOk)
    {
      var target := handlers[h].target;
      handlers := Without(handlers, h);
      var retry := TriggerRebuild(target, reached, flushOk);
      if retry { queue := queue + [target]; }
    }

    method ExecuteResume(h: nat, reached: bool)
      requires h < |handlers| && handlers[h].target.Some? && handlers[h].target.value < |devs|
      modifies this
      ensures View() == HandlerResumed(old(View()), h, reached)
    {
      var target := handlers[h].target;
      handlers := Without(handlers, h);
      var retry := ResumeRebuild(target.value, reached);
      if retry { queue := queue + [target]; }
    }
  }

  // --- Every interleaving ---------------------------------------------------------------------------------

  /** The environment may also take spares away and change the mount state between the steps. */
  datatype Step =
    | Detach(t: nat, rs: RaidState, flushOk: bool)
    | Recover(t: nat, seen: Option<nat>, rs: RaidState, flushOk: bool)
    | AddSpare(spare: nat, accepted: bool, flushOk: bool)
    | MountDone
    | Dispatch(q: nat)
    | Trigger(h: nat, reached: bool, flushOk: bool)
    | Resume(h: nat, reached: bool)
    | Complete(k: nat, pass: bool)
    | Other(spares: seq<nat>, status: Status)

  predicate InArray(s: State, target: Option<nat>) { target.Some? ==> target.value < |s.devs| }

  predicate Enabled(s: State, step: Step) {
    match step
    case Detach(t, _, _) => t < |s.devs|
    case Recover(t, _, _, _) => t < |s.devs|
    case AddSpare(_, _, _) => true
    case MountDone => true
    case Dispatch(q) => q < |s.queue| && InArray(s, s.queue[q])
    case Trigger(h, _, _) => h < |s.handlers| && !s.handlers[h].resume && InArray(s, s.handlers[h].target)
    case Resume(h, _) =>
      h < |s.handlers| && s.handlers[h].resume && s.handlers[h].target.Some? && InArray(s, s.handlers[h].target)
    case Complete(k, _) => k < |s.jobs| && s.jobs[k].target < |s.devs|
    case Other(_, _) => true
  }

  function Apply(s: State, step: Step): (r: State)
    requires Enabled(s, step)
  {
    match step
    case Detach(t, rs, flushOk) => Detached(s, t, rs, flushOk)
    case Recover(t, seen, rs, flushOk) => Recovered(s, t, seen, rs, flushOk)
    case AddSpare(spare, accepted, flushOk) => SpareAdded(s, spare, accepted, flushOk)
    case MountDone => Necessity(s)
    case Dispatch(q) => Dispatched(s, q)
    case Trigger(h, reached, flushOk) => HandlerTriggered(s, h, reached, flushOk)
    case Resume(h, reached) => HandlerResumed(s, h, reached)
    case Complete(k, pass) => Completed(s, k, pass)
    case Other(spares, status) => s.(spares := spares, status := status)
  }

  ghost predicate IsRun(steps: seq<Step>, tr: seq<State>) {
    && |tr| == |steps| + 1 && FaultIffEmpty(tr[0])
    && tr[0].queue == [] && tr[0].handlers == [] && tr[0].jobs == [] && tr[0].awaiting == 0
    && (forall k :: 0 <= k < |steps| ==> Enabled(tr[k], steps[k]) && tr[k + 1] == Apply(tr[k], steps[k]))
  }

  /** A slot is in fault exactly when it has no block device. */
  predicate FaultIffEmpty(s: State) {
    forall i :: 0 <= i < |s.devs| ==> (s.devs[i].state.Fault? <==> s.devs[i].block.None?)
  }

  /** All jobs and events are about slots of the array, and only an event with a target resumes. */
  predicate JobsInRange(s: State) {
    && (forall k :: 0 <= k < |s.jobs| ==> s.jobs[k].target < |s.devs|)
    && EventsInRange(s)
  }

  predicate EventsInRange(s: State) {
    && (forall q :: 0 <= q < |s.queue| ==> InArray(s, s.queue[q]))
    && (forall h :: 0 <= h < |s.handlers| ==> InArray(s, s.handlers[h].target))
    && (forall h :: 0 <= h < |s.handlers| && s.handlers[h].resume ==> s.handlers[h].target.Some?)
  }

  lemma {:induction false} FaultStep(s: State, step: Step)
    requires Enabled(s, step) && FaultIffEmpty(s)
    ensures FaultIffEmpty(Apply(s, step))
  {
  }

  lemma {:induction false} RangeStep(s: State, step: Step)
    requires Enabled(s, step) && JobsInRange(s)
    ensures JobsInRange(Apply(s, step))
  {
    if step.Dispatch? {
      DispatchInRange(s, step.q);
    } else if step.Trigger? {
      TriggerInRange(s, step.h, step.reached, step.flushOk);
    } else {
      OthersInRange(s, step);
    }
  }

  lemma {:induction false} DispatchInRange(s: State, q: nat)
    requires Enabled(s, Dispatch(q)) && JobsInRange(s)
    ensures JobsInRange(Apply(s, Dispatch(q)))
  {
  }

  lemma {:induction false} TriggerInRange(s: State, h: nat, reached: bool, flushOk: bool)
    requires Enabled(s, Trigger(h, reached, flushOk)) && JobsInRange(s)
    ensures JobsInRange(Apply(s, Trigger(h, reached, flushOk)))
  {
  }

  lemma {:induction false} OthersInRange(s: State, step: Step)
    requires Enabled(s, step) && JobsInRange(s) && !step.Dispatch? && !step.Trigger?
    ensures JobsInRange(Apply(s, step))
  {
  }

  /** At every lock release a slot is in fault exactly when it has no block device. */
  lemma {:induction false} AlwaysFaultIffEmpty(steps: seq<Step>, tr: seq<State>, k: nat)
    requires IsRun(steps, tr) && k < |tr|
    ensures FaultIffEmpty(tr[k]) && JobsInRange(tr[k])
  {
    if k > 0 {
      AlwaysFaultIffEmpty(steps, tr, k - 1);
      FaultStep(tr[k - 1], steps[k - 1]);
      RangeStep(tr[k - 1], steps[k - 1]);
    }
  }

  // --- What each step changes, and nothing else does ---------------------------------------------------------

  /** Event `step.h` puts a spare into slot `t`. */
  predicate InstallsAt(s: State, step: Step, t: nat) {
    && step.Trigger? && step.h < |s.handlers| && Installs(s, s.handlers[step.h].target, step.reached)
    && TriggerTarget(s, s.handlers[step.h].target) == Some(t)
  }

  /** A spare goes into slot `t` exactly when the array is degraded, the slot is empty, and it is the event's or the first. */
  lemma {:induction false} InstallsWhen(s: State, step: Step, t: nat)
    requires Enabled(s, step)
    ensures InstallsAt(s, step, t) <==>
            && step.Trigger? && step.reached && s.status.Degraded? && s.spares != []
            && t < |s.devs| && s.devs[t] == Dev(Fault, None)
            && (s.handlers[step.h].target == Some(t)
                || (s.handlers[step.h].target.None? && forall i :: 0 <= i < t ==> !s.devs[i].state.Fault?))
  {
    if step.Trigger? && s.handlers[step.h].target.None? && t < |s.devs| && s.devs[t].state.Fault? {
      var f := FirstFaulty(s.devs);
      assert f.Some? && f.value <= t;
    }
  }

  /** The step detaches the device in slot `t`, on an event or because the I/O that failed on it still finds it there. */
  predicate DetachesAt(s: State, step: Step, t: nat) {
    && t < |s.devs| && !s.devs[t].state.Fault?
    && (step.Detach? || (step.Recover? && s.status.IsMounted() && step.seen.Some? && step.seen == s.devs[t].block))
    && step.t == t
  }

  predicate PassesAt(s: State, step: Step, t: nat) {
    step.Complete? && step.pass && step.k < |s.jobs| && s.jobs[step.k].target == t
  }

  /** A slot changes only when its device is detached, a spare is installed, or the rebuild of it passes. */
  lemma {:induction false} SlotStep(s: State, step: Step, t: nat)
    requires Enabled(s, step) && t < |s.devs|
    ensures |Apply(s, step).devs| == |s.devs|
    ensures Apply(s, step).devs[t]
         == if DetachesAt(s, step, t) then Dev(Fault, None)
            else if InstallsAt(s, step, t) then Dev(Rebuild, Some(s.spares[|s.spares| - 1]))
            else if PassesAt(s, step, t) && !s.devs[t].state.Fault? then Dev(Normal, s.devs[t].block)
            else s.devs[t]
  {
  }

  /** A slot becomes normal exactly by the pass of a rebuild of it that finds it in rebuild. */
  lemma {:induction false} OnlyPassMarksNormal(s: State, step: Step, t: nat)
    requires Enabled(s, step) && t < |s.devs| && !s.devs[t].state.Normal?
    ensures |Apply(s, step).devs| == |s.devs|
    ensures Apply(s, step).devs[t].state.Normal? <==> PassesAt(s, step, t) && s.devs[t].state.Rebuild?
  {
    SlotStep(s, step, t);
  }

  /** In every run a slot that has become normal did so by the pass of a rebuild of it. */
  lemma {:induction false} NormalOnlyByPass(steps: seq<Step>, tr: seq<State>, a: nat, b: nat, t: nat)
    requires IsRun(steps, tr) && a <= b < |tr| && t < |tr[a].devs| && !tr[a].devs[t].state.Normal?
    ensures |tr[b].devs| == |tr[a].devs|
    ensures tr[b].devs[t].state.Normal? ==>
              exists m :: a <= m < b && PassesAt(tr[m], steps[m], t) && t < |tr[m].devs| && tr[m].devs[t].state.Rebuild?
    decreases b
  {
    if a < b {
      NormalOnlyByPass(steps, tr, a, b - 1, t);
      SlotStep(tr[b - 1], steps[b - 1], t);
      if !tr[b - 1].devs[t].state.Normal? { OnlyPassMarksNormal(tr[b - 1], steps[b - 1], t); }
    }
  }

  /** A completion takes its job off; when it failed, slots and status stay and a rebuild of the first slot in fault is queued. */
  lemma {:induction false} FailedCompletion(steps: seq<Step>, tr: seq<State>, n: nat)
    requires IsRun(steps, tr) && n < |steps| && steps[n].Complete? && !steps[n].pass
    ensures var s, r, k := tr[n], tr[n + 1], steps[n].k;
            && r.devs == s.devs && r.status == s.status && r.spares == s.spares && r.handlers == s.handlers
            && r.jobs == s.jobs[..k] + s.jobs[k + 1..] && r.queue == s.queue + [None]
  {
  }

  /** The step starts a rebuild: a spare is installed, or a slot left in rebuild is taken up again. */
  predicate Starts(s: State, step: Step) {
    || (exists t :: 0 <= t < |s.devs| && InstallsAt(s, step, t))
    || (step.Resume? && step.reached && s.status.Degraded?)
  }

  /** The status follows the RAID state of a detach, the start of a rebuild and its pass, and nothing else. */
  lemma {:induction false} StatusStep(s: State, step: Step)
    requires Enabled(s, step) && !step.Other?
    ensures Apply(s, step).status
         == if (step.Detach? || step.Recover?) && DetachesAt(s, step, step.t) then
              match step.rs
              case RaidFailure => Broken
              case RaidNormal => if s.status.IsMounted() then Online else ExistNormal
              case RaidDegraded => if s.status.IsMounted() then Degraded else ExistDegraded
            else if Starts(s, step) then Rebuilding
            else if step.Complete? && step.pass && s.status.Rebuilding? then Online
            else s.status
  {
    if step.Trigger? {
      var t := TriggerTarget(s, s.handlers[step.h].target);
      if t.Some? { assert InstallsAt(s, step, t.value) <==> Installs(s, s.handlers[step.h].target, step.reached); }
    }
  }

  /** A spare comes by being added and goes by being installed, the last one first. */
  lemma {:induction false} SpareStep(s: State, step: Step)
    requires Enabled(s, step) && !step.Other?
    ensures Apply(s, step).spares
         == if step.AddSpare? && step.accepted && s.status.IsMounted() then s.spares + [step.spare]
            else if step.Trigger? && Starts(s, step) then s.spares[..|s.spares| - 1]
            else s.spares
  {
    if step.Trigger? {
      var t := TriggerTarget(s, s.handlers[step.h].target);
      if t.Some? { assert InstallsAt(s, step, t.value) <==> Installs(s, s.handlers[step.h].target, step.reached); }
    }
  }

  /** A job is added for an installed spare whose metadata was written and for a resumed slot, and taken off by its completion. */
  lemma {:induction false} JobsStep(s: State, step: Step)
    requires Enabled(s, step)
    ensures step.Trigger? ==>
              Apply(s, step).jobs == if Starts(s, step) && step.flushOk
                                     then s.jobs + [Job(TriggerTarget(s, s.handlers[step.h].target).value, Some(s.spares[|s.spares| - 1]))]
                                     else s.jobs
    ensures step.Resume? ==>
              var t := s.handlers[step.h].target.value;
              Apply(s, step).jobs == if Starts(s, step) then s.jobs + [Job(t, s.devs[t].block)] else s.jobs
    ensures step.Complete? ==> Apply(s, step).jobs == s.jobs[..step.k] + s.jobs[step.k + 1..]
    ensures !step.Trigger? && !step.Resume? && !step.Complete? ==> Apply(s, step).jobs == s.jobs
    ensures Apply(s, step).awaiting
         == if Starts(s, step) then s.awaiting + 1
            else if step.Complete? && s.awaiting > 0 then s.awaiting - 1
            else s.awaiting
  {
    if step.Trigger? {
      var t := TriggerTarget(s, s.handlers[step.h].target);
      if t.Some? { assert InstallsAt(s, step, t.value) <==> Installs(s, s.handlers[step.h].target, step.reached); }
    }
  }

  /** The event a step queues, if it queues one. */
  ghost function Queues(s: State, step: Step): (e: Option<Option<nat>>)
    requires Enabled(s, step)
  {
    match step
    case Detach(t, rs, flushOk) =>
      if DetachesAt(s, step, t) && rs.RaidDegraded? && s.status.IsMounted() && flushOk && s.devs[t].state.Normal?
      then Some(Some(t)) else None
    case Recover(t, _, rs, flushOk) =>
      if DetachesAt(s, step, t) && rs.RaidDegraded? && flushOk && s.devs[t].state.Normal? then Some(Some(t)) else None
    case AddSpare(_, accepted, flushOk) => if accepted && flushOk && s.status.Degraded? then Some(None) else None
    case MountDone =>
      if exists t :: 0 <= t < |s.devs| && s.devs[t].state.Rebuild? then Some(FirstRebuilding(s.devs)) else Some(None)
    case Dispatch(_) => None
    case Trigger(h, _, _) =>
      var target := s.handlers[h].target;
      if target.Some? && s.devs[target.value] != Dev(Fault, None) then Some(target) else None
    case Resume(h, reached) => if reached && s.status.Degraded? then Some(s.handlers[h].target) else None
    case Complete(k, pass) => if !pass || s.devs[s.jobs[k].target].state.Fault? then Some(None) else None
    case Other(_, _) => None
  }

  /** Exactly those events are queued, and an event leaves the queue only for the worker that takes it up. */
  lemma {:induction false} EventStep(s: State, step: Step)
    requires Enabled(s, step) && FaultIffEmpty(s)
    ensures var left := if step.Dispatch? then s.queue[..step.q] + s.queue[step.q + 1..] else s.queue;
            Apply(s, step).queue == left + if Queues(s, step).Some? then [Queues(s, step).value] else []
    ensures step.Dispatch? ==>
              var e := s.queue[step.q];
              Apply(s, step).handlers == s.handlers + [Handler(e, e.Some? && s.devs[e.value].state.Rebuild?)]
    ensures step.Trigger? || step.Resume? ==> Apply(s, step).handlers == s.handlers[..step.h] + s.handlers[step.h + 1..]
    ensures !step.Dispatch? && !step.Trigger? && !step.Resume? ==> Apply(s, step).handlers == s.handlers
  {
  }

  // --- A rebuild only blesses the block device it ran on -------------------------------------------------------

  /** The slot still holds the block device the job rebuilds, or has lost it. */
  predicate Faithful(s: State, j: Job) {
    j.target < |s.devs| && (s.devs[j.target].block == j.block || s.devs[j.target].block.None?)
  }

  predicate AllFaithful(s: State) {
    forall k :: 0 <= k < |s.jobs| ==> Faithful(s, s.jobs[k])
  }

  /** The step puts a spare into a slot whose unfinished rebuild runs on another block device. */
  predicate SwapsUnderRebuild(s: State, step: Step) {
    exists k :: 0 <= k < |s.jobs| && InstallsAt(s, step, s.jobs[k].target)
             && s.jobs[k].block != Some(s.spares[|s.spares| - 1])
  }

  /** A step keeps every unfinished rebuild faithful exactly when it does not swap the device under one. */
  lemma {:induction false} FaithfulStep(s: State, step: Step)
    requires Enabled(s, step) && FaultIffEmpty(s) && AllFaithful(s)
    ensures AllFaithful(Apply(s, step)) <==> !SwapsUnderRebuild(s, step)
  {
    var r := Apply(s, step);
    if SwapsUnderRebuild(s, step) {
      var k :| 0 <= k < |s.jobs| && InstallsAt(s, step, s.jobs[k].target)
            && s.jobs[k].block != Some(s.spares[|s.spares| - 1]);
      assert r.jobs[k] == s.jobs[k] && !Faithful(r, r.jobs[k]);
    } else if step.Complete? {
      CompleteIsFaithful(s, step.k, step.pass);
    } else if step.Trigger? {
      TriggerIsFaithful(s, step);
    } else {
      forall k | 0 <= k < |r.jobs| ensures Faithful(r, r.jobs[k]) {
        if k < |s.jobs| { assert Faithful(s, s.jobs[k]); }
      }
    }
  }

  lemma {:induction false} CompleteIsFaithful(s: State, j: nat, pass: bool)
    requires Enabled(s, Complete(j, pass)) && AllFaithful(s)
    ensures AllFaithful(Completed(s, j, pass))
  {
    var r := Completed(s, j, pass);
    forall k | 0 <= k < |r.jobs| ensures Faithful(r, r.jobs[k]) {
      var was := if k < j then k else k + 1;
      assert r.jobs[k] == s.jobs[was] && Faithful(s, s.jobs[was]);
    }
  }

  lemma {:induction false} TriggerIsFaithful(s: State, step: Step)
    requires Enabled(s, step) && step.Trigger? && AllFaithful(s) && !SwapsUnderRebuild(s, step)
    ensures AllFaithful(Apply(s, step))
  {
    var r := Apply(s, step);
    forall k | 0 <= k < |r.jobs| ensures Faithful(r, r.jobs[k]) {
      if k < |s.jobs| { assert Faithful(s, s.jobs[k]) && r.jobs[k] == s.jobs[k]; }
    }
  }

  lemma {:induction false} RunFaithful(steps: seq<Step>, tr: seq<State>, k: nat)
    requires IsRun(steps, tr) && k < |tr|
    requires forall m :: 0 <= m < k ==> !SwapsUnderRebuild(tr[m], steps[m])
    ensures AllFaithful(tr[k])
  {
    if k > 0 {
      RunFaithful(steps, tr, k - 1);
      AlwaysFaultIffEmpty(steps, tr, k - 1);
      FaithfulStep(tr[k - 1], steps[k - 1]);
    }
  }

  /** What a passing completion must do: bless the rebuilt device, or queue another rebuild if it is gone. */
  predicate BlessesRebuilt(s: State, k: nat)
    requires k < |s.jobs| && s.jobs[k].target < |s.devs|
  {
    var t, r := s.jobs[k].target, Completed(s, k, true);
    if s.devs[t].state.Fault? then r.devs == s.devs && r.queue == s.queue + [None]
    else r.devs == s.devs[t := Dev(Normal, s.jobs[k].block)] && s.jobs[k].block.Some?
  }

  /**
    In every run in which no device is swapped under an unfinished rebuild, a passing completion marks a
    slot normal only if the block device in it is the one that was rebuilt, and queues another rebuild otherwise.
   */
  lemma {:induction false} CompletionBlessesRebuilt(steps: seq<Step>, tr: seq<State>, n: nat, k: nat)
    requires IsRun(steps, tr) && n < |tr| && k < |tr[n].jobs|
    requires forall m :: 0 <= m < n ==> !SwapsUnderRebuild(tr[m], steps[m])
    ensures tr[n].jobs[k].target < |tr[n].devs| && BlessesRebuilt(tr[n], k)
  {
    AlwaysFaultIffEmpty(steps, tr, n);
    RunFaithful(steps, tr, n);
    assert Faithful(tr[n], tr[n].jobs[k]);
  }

  /** After a swap, the pass of the rebuild it was made under marks the wrong block device normal. */
  lemma {:induction false} SwapBreaks(s: State, step: Step) returns (k: nat)
    requires Enabled(s, step) && SwapsUnderRebuild(s, step)
    ensures var r := Apply(s, step);
            && k < |r.jobs| && r.jobs[k].target < |r.devs| && !BlessesRebuilt(r, k)
            && var d := Completed(r, k, true).devs[r.jobs[k].target];
               d.state.Normal? && d.block.Some? && d.block != r.jobs[k].block
  {
    var spare := Some(s.spares[|s.spares| - 1]);
    k :| 0 <= k < |s.jobs| && InstallsAt(s, step, s.jobs[k].target) && s.jobs[k].block != spare;
    var t, r := s.jobs[k].target, Apply(s, step);
    assert r.jobs[k] == s.jobs[k] && r.devs[t] == Dev(Rebuild, spare);
    assert Completed(r, k, true).devs[t] == Dev(Normal, spare);
  }

  /** A run in which a pass would always mark the rebuilt device: at every point and for every unfinished rebuild. */
  ghost predicate AlwaysBlesses(tr: seq<State>) {
    forall n, k :: 0 <= n < |tr| && 0 <= k < |tr[n].jobs| ==>
      tr[n].jobs[k].target < |tr[n].devs| && BlessesRebuilt(tr[n], k)
  }

  /** Passes mark only rebuilt devices in exactly the runs that never swap a device under an unfinished rebuild. */
  lemma {:induction false} BlessesIffNoSwap(steps: seq<Step>, tr: seq<State>)
    requires IsRun(steps, tr)
    ensures AlwaysBlesses(tr) <==> forall m :: 0 <= m < |steps| ==> !SwapsUnderRebuild(tr[m], steps[m])
  {
    if m :| 0 <= m < |steps| && SwapsUnderRebuild(tr[m], steps[m]) {
      var k := SwapBreaks(tr[m], steps[m]);
      assert !BlessesRebuilt(tr[m + 1], k);
    } else {
      forall n, k | 0 <= n < |tr| && 0 <= k < |tr[n].jobs|
        ensures tr[n].jobs[k].target < |tr[n].devs| && BlessesRebuilt(tr[n], k)
      {
        CompletionBlessesRebuilt(steps, tr, n, k);
      }
    }
  }

  /** Every run with a swap has a continuation that marks a device normal that was not the one rebuilt. */
  lemma {:induction false} SwappedRunsFail(steps: seq<Step>, tr: seq<State>, m: nat)
    returns (longer: seq<Step>, states: seq<State>, k: nat)
    requires IsRun(steps, tr) && m < |steps| && SwapsUnderRebuild(tr[m], steps[m])
    ensures longer == steps[..m + 1] + [Complete(k, true)] && IsRun(longer, states)
    ensures k < |states[m + 1].jobs| && states[m + 1].jobs[k].target < |states[m + 2].devs|
    ensures var job := states[m + 1].jobs[k];
            var d := states[m + 2].devs[job.target];
            d.state.Normal? && d.block.Some? && d.block != job.block
  {
    k := SwapBreaks(tr[m], steps[m]);
    longer := steps[..m + 1] + [Complete(k, true)];
    states := tr[..m + 2] + [Completed(tr[m + 1], k, true)];
    assert states[m + 1] == tr[m + 1];
  }

  /** The contract under which the array relies on SetRebuild: no second success before the first is done. */
  predicate Exclusive(s: State, step: Step) {
    && (step.Trigger? && step.h < |s.handlers| && Installs(s, s.handlers[step.h].target, step.reached) ==>
          s.awaiting == 0)
    && (step.Resume? && CanSetRebuild(s, step.reached) ==> s.awaiting == 0)
  }

  lemma {:induction false} ExclusiveRun(steps: seq<Step>, tr: seq<State>, k: nat)
    requires IsRun(steps, tr) && k < |tr|
    requires forall m :: 0 <= m < k ==> Exclusive(tr[m], steps[m])
    ensures |tr[k].jobs| <= tr[k].awaiting <= 1
    ensures forall m :: 0 <= m < k ==> !SwapsUnderRebuild(tr[m], steps[m])
  {
    if k > 0 { ExclusiveRun(steps, tr, k - 1); }
  }

  /** Under that contract the property holds in every run. */
  lemma {:induction false} ContractIsEnough(steps: seq<Step>, tr: seq<State>, n: nat, k: nat)
    requires IsRun(steps, tr) && n < |tr| && k < |tr[n].jobs|
    requires forall m :: 0 <= m < n ==> Exclusive(tr[m], steps[m])
    ensures tr[n].jobs[k].target < |tr[n].devs| && BlessesRebuilt(tr[n], k)
  {
    ExclusiveRun(steps, tr, n);
    CompletionBlessesRebuilt(steps, tr, n, k);
  }

  /**
    A two-slot array, mounted with its first slot in fault. The mount's event rebuilds it onto spare 11.
    That spare is detached, spare 12 is added, and the event this queues installs it.
   */
  ghost function LatePass(k: nat): (s: State) {
    var good, gone, job := Dev(Normal, Some(1)), Dev(Fault, None), Job(0, Some(11));
    if k == 0 then State([gone, good], [11], Degraded, [], [], [], 0)
    else if k == 1 then State([gone, good], [11], Degraded, [None], [], [], 0)
    else if k == 2 then State([gone, good], [11], Degraded, [], [Handler(None, false)], [], 0)
    else if k == 3 then State([Dev(Rebuild, Some(11)), good], [], Rebuilding, [], [], [job], 1)
    else if k == 4 then State([gone, good], [], Degraded, [], [], [job], 1)
    else if k == 5 then State([gone, good], [12], Degraded, [None], [], [job], 1)
    else if k == 6 then State([gone, good], [12], Degraded, [], [Handler(None, false)], [job], 1)
    else State([Dev(Rebuild, Some(12)), good], [], Rebuilding, [], [], [job, Job(0, Some(12))], 2)
  }

  ghost function LatePassStep(k: nat): (s: Step) {
    if k == 0 then MountDone
    else if k == 1 || k == 5 then Dispatch(0)
    else if k == 3 then Detach(0, RaidDegraded, true)
    else if k == 4 then AddSpare(12, true, true)
    else Trigger(0, true, true)
  }

  lemma {:induction false} LatePassSteps(k: nat)
    requires k < 7
    ensures Enabled(LatePass(k), LatePassStep(k)) && LatePass(k + 1) == Apply(LatePass(k), LatePassStep(k))
  {
    if LatePassStep(k).Trigger? { LatePassTriggers(k); } else { LatePassOthers(k); }
  }

  lemma {:induction false} LatePassTriggers(k: nat)
    requires k == 2 || k == 6
    ensures Enabled(LatePass(k), LatePassStep(k)) && LatePass(k + 1) == Apply(LatePass(k), LatePassStep(k))
  {
    var s, t, r := LatePass(k), LatePass(k + 1), Apply(LatePass(k), LatePassStep(k));
    assert s.devs[0].state.Fault? && FirstFaulty(s.devs) == Some(0);
    assert r.devs == t.devs && r.spares == t.spares && r.handlers == t.handlers && r.jobs == t.jobs;
  }

  lemma {:induction false} LatePassOthers(k: nat)
    requires k < 6 && k != 2
    ensures Enabled(LatePass(k), LatePassStep(k)) && LatePass(k + 1) == Apply(LatePass(k), LatePassStep(k))
  {
    var s, t, r := LatePass(k), LatePass(k + 1), Apply(LatePass(k), LatePassStep(k));
    if k == 0 {
      assert FirstRebuilding(s.devs[1..]).None?;
    } else {
      assert r.devs == t.devs && r.spares == t.spares && r.queue == t.queue && r.handlers == t.handlers;
    }
  }

  /**
    SetRebuild itself does not give that contract. When the device under rebuild is detached, the array
    falls back to degraded; the event of an added spare then installs a second one, and the first rebuild's
    late pass marks that spare normal although it was never rebuilt.
   */
  lemma {:induction false} LatePassBlessesNewSpare()
    ensures exists steps, tr: seq<State>, k :: IsRun(steps, tr) && 0 <= k < |tr[|steps|].jobs|
                          && tr[|steps|].jobs[k].target < |tr[|steps|].devs| && !BlessesRebuilt(tr[|steps|], k)
  {
    var steps, tr := seq(7, (k: nat) => LatePassStep(k)), seq(8, (k: nat) => LatePass(k));
    forall k | 0 <= k < 7 ensures Enabled(tr[k], steps[k]) && tr[k + 1] == Apply(tr[k], steps[k]) { LatePassSteps(k); }
    assert IsRun(steps, tr);
    assert InstallsAt(tr[6], steps[6], tr[6].jobs[0].target);
    assert SwapsUnderRebuild(tr[6], steps[6]);
    var k := SwapBreaks(tr[6], steps[6]);
    assert !BlessesRebuilt(tr[|steps|], k);
  }

  // --- Recovery of failed I/O ------------------------------------------------------------------------------

  /** What `NeedRecovery` answers: go on with this block device, recover, or fail its assertion. */
  datatype Answer = Proceed(block: Option<nat>) | Recovery | AssertionFails

  function NeedRecovery(allowed: bool, state: DevState, block: Option<nat>, isRead: bool): (a: Answer) {
    if !allowed then Proceed(None)
    else if state.Fault? || (state.Rebuild? && isRead) then Recovery
    else if block.None? then AssertionFails
    else Proceed(block)
  }

  /** Taken as one step, NeedRecovery never reaches its assertion, and never proceeds on a slot in fault. */
  lemma {:induction false} NeedRecoverySafe(steps: seq<Step>, tr: seq<State>, k: nat, t: nat, allowed: bool, isRead: bool)
    requires IsRun(steps, tr) && k < |tr| && t < |tr[k].devs|
    ensures var d := tr[k].devs[t];
            var a := NeedRecovery(allowed, d.state, d.block, isRead);
            && !a.AssertionFails? && (allowed && a.Proceed? ==> a.block.Some? && a.block == d.block)
            && (a.Recovery? <==> allowed && (d.block.None? || (d.state.Rebuild? && isRead)))
  {
    AlwaysFaultIffEmpty(steps, tr, k);
  }

  /** The step takes the block device out of slot `t`. */
  predicate TakesOut(s: State, step: Step, t: nat) {
    && Enabled(s, step) && (step.Detach? || step.Recover?) && step.t == t && t < |s.devs|
    && s.devs[t].block.Some? && Apply(s, step).devs[t].block.None?
  }

  /** Only detaching a device, on an event or after a failed I/O, empties a slot, and nothing changes their number. */
  lemma {:induction false} OnlyDetachEmpties(s: State, step: Step, t: nat)
    requires Enabled(s, step) && t < |s.devs|
    ensures |Apply(s, step).devs| == |s.devs|
    ensures s.devs[t].block.Some? && Apply(s, step).devs[t].block.None? ==> TakesOut(s, step, t)
  {
  }

  /** Some step from `a` to `b` took the device out of slot `t`, and no later one put another in. */
  ghost predicate TakenOutSince(steps: seq<Step>, tr: seq<State>, a: nat, b: nat, t: nat)
    requires |tr| == |steps| + 1 && a <= b < |tr|
  {
    exists m :: a <= m < b && TakesOut(tr[m], steps[m], t) && EmptySince(tr, m + 1, b, t)
  }

  ghost predicate EmptySince(tr: seq<State>, from: nat, b: nat, t: nat)
    requires b < |tr|
  {
    forall n :: from <= n <= b ==> t < |tr[n].devs| && tr[n].devs[t].block.None?
  }

  lemma {:induction false} EmptiedBetween(steps: seq<Step>, tr: seq<State>, a: nat, b: nat, t: nat)
    requires IsRun(steps, tr) && a <= b < |tr| && t < |tr[a].devs| && tr[a].devs[t].block.Some?
    ensures |tr[b].devs| == |tr[a].devs|
    ensures tr[b].devs[t].block.None? <==> TakenOutSince(steps, tr, a, b, t)
    decreases b
  {
    if a < b {
      EmptiedBetween(steps, tr, a, b - 1, t);
      OnlyDetachEmpties(tr[b - 1], steps[b - 1], t);
      StillTakenOut(steps, tr, a, b, t);
    }
  }

  lemma {:induction false} StillTakenOut(steps: seq<Step>, tr: seq<State>, a: nat, b: nat, t: nat)
    requires |tr| == |steps| + 1 && a < b < |tr| && t < |tr[b].devs| && t < |tr[b - 1].devs|
    requires tr[b - 1].devs[t].block.None? <==> TakenOutSince(steps, tr, a, b - 1, t)
    requires tr[b - 1].devs[t].block.Some? && tr[b].devs[t].block.None? ==> TakesOut(tr[b - 1], steps[b - 1], t)
    ensures tr[b].devs[t].block.None? <==> TakenOutSince(steps, tr, a, b, t)
  {
    if tr[b].devs[t].block.None? {
      if tr[b - 1].devs[t].block.Some? {
        assert EmptySince(tr, b, b, t);
      } else {
        var m :| a <= m < b - 1 && TakesOut(tr[m], steps[m], t) && EmptySince(tr, m + 1, b - 1, t);
        assert EmptySince(tr, m + 1, b, t);
      }
    }
  }

  /**
    With its reads at two points `a` and `b` of a run, the assertion fails exactly when the first read let
    it proceed and in between the device was detached from the slot for good.
   */
  lemma {:induction false} TornNeedRecoveryExact(steps: seq<Step>, tr: seq<State>, a: nat, b: nat, t: nat, isRead: bool)
    requires IsRun(steps, tr) && a <= b < |tr| && t < |tr[a].devs|
    ensures t < |tr[b].devs|
    ensures NeedRecovery(true, tr[a].devs[t].state, tr[b].devs[t].block, isRead).AssertionFails?
            <==> NeedRecovery(true, tr[a].devs[t].state, tr[a].devs[t].block, isRead).Proceed?
                 && TakenOutSince(steps, tr, a, b, t)
  {
    AlwaysFaultIffEmpty(steps, tr, a);
    SameSlots(steps, tr, a, b);
    if tr[a].devs[t].block.Some? { EmptiedBetween(steps, tr, a, b, t); }
  }

  lemma {:induction false} SameSlots(steps: seq<Step>, tr: seq<State>, a: nat, b: nat)
    requires IsRun(steps, tr) && a <= b < |tr|
    ensures |tr[b].devs| == |tr[a].devs|
    decreases b
  {
    if a < b { SameSlots(steps, tr, a, b - 1); }
  }

  /** A detachment between its two reads can make it fail. */
  lemma {:induction false} TornNeedRecoveryFails()
    ensures exists s: State, step :: FaultIffEmpty(s) && Enabled(s, step) && |s.devs| == |Apply(s, step).devs| == 1
              && NeedRecovery(true, s.devs[0].state, Apply(s, step).devs[0].block, true).AssertionFails?
  {
    var s := State([Dev(Normal, Some(1))], [], Online, [], [], [], 0);
    var step := Detach(0, RaidDegraded, true);
    assert Apply(s, step).devs == [Dev(Fault, None)];
    assert FaultIffEmpty(s) && Enabled(s, step);
  }
}
