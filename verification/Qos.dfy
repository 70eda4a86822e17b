/**
  Admission of volume QoS policies. Bandwidth is given in MiB/s and request rates in thousands of 4 KiB
  requests per second; the create command compares a new minimum with the maxima, and a new maximum with
  the minima, converting between the units with truncating integer arithmetic.
 */
module Qos {
  import opened Options

  const BLOCK: nat := 4096
  const KIOPS: nat := 1000
  const MIB: nat := 1024 * 1024
  const U32: nat := 0x1_0000_0000
  const U64: nat := 0x1_0000_0000_0000_0000
  const MIN_LIMIT: nat := 10
  const MAX_IOPS: nat := (U64 - 1) / KIOPS
  const MAX_BW: nat := (U64 - 1) / MIB

  datatype Policy = Policy(minBw: nat, maxBw: nat, minIops: nat, maxIops: nat,
                           bwGuarantee: bool, iopsGuarantee: bool)

  const Unlimited: Policy := Policy(0, 0, 0, 0, false, false)

  /** The parameters of a create command; a missing one and the value -1 mean no change. */
  datatype Request = Request(minBw: Option<int>, maxBw: Option<int>, minIops: Option<int>, maxIops: Option<int>)

  predicate Given(o: Option<int>) { o.Some? && o.value != -1 }

  predicate Int64(o: Option<int>) { o.Some? ==> -0x8000_0000_0000_0000 <= o.value < 0x8000_0000_0000_0000 }

  predicate IsRequest(r: Request) { Int64(r.minBw) && Int64(r.maxBw) && Int64(r.minIops) && Int64(r.maxIops) }

  /** The bytes per second of a bandwidth and of a request rate. */
  function BwBytes(bw: nat): (r: nat) { bw * MIB }
  function IopsBytes(iops: nat): (r: nat) { iops * BLOCK * KIOPS }

  /** The unit conversions as the command computes them, in 64 bits and then cut to 32. */
  function BwOfIops(iops: nat): (r: nat) { IopsBytes(iops) % U64 / MIB % U32 }
  function IopsOfBw(bw: nat): (r: nat) { BwBytes(bw) % U64 / BLOCK / KIOPS % U32 }

  function Choose(o: Option<int>, previous: nat): (r: nat)
    requires Int64(o)
  {
    if !Given(o) then previous else if o.value < 0 then o.value + U64 else o.value
  }

  /** The policy a request asks for. */
  function Wanted(p: Policy, r: Request): (n: Policy)
    requires IsRequest(r)
  {
    Policy(Choose(r.minBw, p.minBw), Choose(r.maxBw, p.maxBw), Choose(r.minIops, p.minIops), Choose(r.maxIops, p.maxIops),
           p.bwGuarantee || Given(r.minBw), p.iopsGuarantee || Given(r.minIops))
  }

  predicate Changes(p: Policy, n: Policy) {
    p.minBw != n.minBw || p.maxBw != n.maxBw || p.minIops != n.minIops || p.maxIops != n.maxIops
  }

  /** `low` is unset or stays below `high`. */
  predicate Under(low: nat, high: nat) { low == 0 || low < high }

  /** `high` is unset or stays above `low`. */
  predicate Over(high: nat, low: nat) { high == 0 || low < high }

  predicate InRange(v: nat, limit: nat) { v == 0 || MIN_LIMIT <= v <= limit }

  /** What the create command demands of each parameter it is given. */
  predicate MinBwOk(p: Policy, minBw: nat) {
    && minBw <= MAX_BW
    && (minBw != p.minBw ==> Over(p.maxBw, minBw) && (p.maxIops == 0 || minBw < BwOfIops(p.maxIops)))
  }

  predicate MaxBwOk(p: Policy, minBw: nat, maxBw: nat) {
    && InRange(maxBw, MAX_BW)
    && (maxBw != p.maxBw ==>
          && Under(p.minBw, maxBw) && Under(minBw, maxBw)
          && (p.minIops == 0 || BwOfIops(p.minIops) < maxBw))
  }

  predicate MinIopsOk(p: Policy, maxBw: nat, minIops: nat) {
    && minIops <= MAX_IOPS
    && (minIops != p.minIops ==>
          && Over(p.maxIops, minIops) && (p.maxBw == 0 || minIops < IopsOfBw(p.maxBw))
          && (maxBw == 0 || minIops < IopsOfBw(maxBw)))
  }

  predicate MaxIopsOk(p: Policy, minBw: nat, minIops: nat, maxIops: nat) {
    && InRange(maxIops, MAX_IOPS)
    && (maxIops != p.maxIops ==>
          && Under(p.minIops, maxIops) && Under(minIops, maxIops)
          && (p.minBw == 0 || IopsOfBw(p.minBw) < maxIops) && (minBw == 0 || IopsOfBw(minBw) < maxIops))
  }

  predicate Acceptable(p: Policy, r: Request)
    requires IsRequest(r)
  {
    var n := Wanted(p, r);
    && (Given(r.minBw) ==> MinBwOk(p, n.minBw))
    && (Given(r.maxBw) ==> MaxBwOk(p, n.minBw, n.maxBw))
    && (Given(r.minIops) ==> MinIopsOk(p, n.maxBw, n.minIops))
    && (Given(r.maxIops) ==> MaxIopsOk(p, n.minBw, n.minIops, n.maxIops))
    && (Changes(p, n) ==> !(n.bwGuarantee && n.iopsGuarantee))
  }

  datatype Verdict = Refused | Unchanged | Store(policy: Policy)

  function Judge(p: Policy, r: Request): (v: Verdict)
    requires IsRequest(r)
  {
    if !Acceptable(p, r) then Refused else if Changes(p, Wanted(p, r)) then Store(Wanted(p, r)) else Unchanged
  }

  /** The chain of checks of one volume, editing the new policy parameter by parameter. */
  method JudgeVolume(prev: Policy, r: Request) returns (v: Verdict)
    requires IsRequest(r)
    ensures v == Judge(prev, r)
  {
    var next := prev;
    var policyChange := false;
    if Given(r.minBw) {
      next := next.(bwGuarantee := true, minBw := Choose(r.minBw, 0));
      var ok := CheckMinBw(prev, r.minBw.value);
      if !ok { return Refused; }
      policyChange := policyChange || next.minBw != prev.minBw;
    }
    if Given(r.maxBw) {
      next := next.(maxBw := Choose(r.maxBw, 0));
      var ok := CheckMaxBw(prev, next.minBw, next.maxBw);
      if !ok { return Refused; }
      policyChange := policyChange || next.maxBw != prev.maxBw;
    }
    if Given(r.minIops) {
      next := next.(iopsGuarantee := true, minIops := Choose(r.minIops, 0));
      var ok := CheckMinIops(prev, next.maxBw, r.minIops.value);
      if !ok { return Refused; }
      policyChange := policyChange || next.minIops != prev.minIops;
    }
    if Given(r.maxIops) {
      next := next.(maxIops := Choose(r.maxIops, 0));
      var ok := CheckMaxIops(prev, next.minBw, next.minIops, next.maxIops);
      if !ok { return Refused; }
      policyChange := policyChange || next.maxIops != prev.maxIops;
    }
    assert next == Wanted(prev, r) && policyChange == Changes(prev, next);
    if policyChange && next.bwGuarantee && next.iopsGuarantee { return Refused; }
    v := if policyChange then Store(next) else Unchanged;
  }

  method CheckMinBw(prev: Policy, given: int) returns (ok: bool)
    requires Int64(Some(given))
    ensures ok <==> MinBwOk(prev, if given < 0 then given + U64 else given)
  {
    if given < 0 || (given != 0 && given > MAX_BW) { return false; }
    if given != prev.minBw {
      if prev.maxBw != 0 && prev.maxBw <= given { return false; }
      if prev.maxIops != 0 {
        var prevMaxBw := prev.maxIops * BLOCK * KIOPS % U64 / MIB % U32;
        if given >= prevMaxBw { return false; }
      }
    }
    ok := true;
  }

  method CheckMaxBw(prev: Policy, minBw: nat, maxBw: nat) returns (ok: bool)
    ensures ok <==> MaxBwOk(prev, minBw, maxBw)
  {
    if maxBw != 0 && (maxBw < MIN_LIMIT || maxBw > MAX_BW) { return false; }
    if maxBw != prev.maxBw {
      if (prev.minBw != 0 && prev.minBw >= maxBw) || (minBw != 0 && minBw >= maxBw) { return false; }
      if prev.minIops != 0 {
        var prevMinBw := prev.minIops * BLOCK * KIOPS % U64 / MIB % U32;
        if maxBw <= prevMinBw { return false; }
      }
    }
    ok := true;
  }

  method CheckMinIops(prev: Policy, maxBw: nat, given: int) returns (ok: bool)
    requires Int64(Some(given))
    ensures ok <==> MinIopsOk(prev, maxBw, if given < 0 then given + U64 else given)
  {
    if given < 0 || (given != 0 && given > MAX_IOPS) { return false; }
    if given != prev.minIops {
      if prev.maxIops != 0 && prev.maxIops <= given { return false; }
      if prev.maxBw != 0 {
        var prevMaxIops := prev.maxBw * MIB % U64 / BLOCK / KIOPS % U32;
        if given >= prevMaxIops { return false; }
      }
      if maxBw != 0 {
        var newMaxIops := maxBw * MIB % U64 / BLOCK / KIOPS % U32;
        if given >= newMaxIops { return false; }
      }
    }
    ok := true;
  }

  method CheckMaxIops(prev: Policy, minBw: nat, minIops: nat, maxIops: nat) returns (ok: bool)
    ensures ok <==> MaxIopsOk(prev, minBw, minIops, maxIops)
  {
    if maxIops != 0 && (maxIops < MIN_LIMIT || maxIops > MAX_IOPS) { return false; }
    if maxIops != prev.maxIops {
      if (prev.minIops != 0 && prev.minIops >= maxIops) || (minIops != 0 && minIops >= maxIops) { return false; }
      if prev.minBw != 0 {
        var prevMinIops := prev.minBw * MIB % U64 / BLOCK / KIOPS % U32;
        if maxIops <= prevMinIops { return false; }
      }
      if minBw != 0 {
        var newMinIops := minBw * MIB % U64 / BLOCK / KIOPS % U32;
        if maxIops <= newMinIops { return false; }
      }
    }
    ok := true;
  }

  // --- The stored policies ----------------------------------------------------------------------------

  /** What the parts outside the command answer for one volume. */
  datatype Answers = Answers(volumeManagerOk: bool, arrayKnown: bool, stores: bool)

  type Store = map<nat, Policy>

  function Lookup(s: Store, vol: nat): (p: Policy) { if vol in s then s[vol] else Unlimited }

  /** The policy a create command starts from. */
  function Previous(s: Store, vol: nat, a: Answers): (p: Policy)
    ensures a.arrayKnown && vol in s ==> p == s[vol]
    ensures !a.arrayKnown || vol !in s ==> p == Policy(0, 0, 0, 0, false, false)
  {
    if a.arrayKnown then Lookup(s, vol) else Unlimited
  }

  function Put(s: Store, vol: nat, a: Answers, p: Policy): (t: Store) {
    if a.volumeManagerOk && a.arrayKnown && a.stores then s[vol := p] else s
  }

  datatype Command =
    | Create(request: Request, volumes: seq<(nat, Answers)>)
    | Reset(volumes: seq<(nat, Answers)>)

  /** The store a command leaves, and whether it went through all its volumes; a refusal or a failure stops it. */
  datatype Outcome = Outcome(store: Store, ok: bool)

  function RunCreate(s: Store, r: Request, volumes: seq<(nat, Answers)>): (t: Outcome)
    requires IsRequest(r)
    decreases |volumes|
  {
    if volumes == [] then Outcome(s, true) else
      var (vol, a) := volumes[0];
      match Judge(Previous(s, vol, a), r)
      case Refused => Outcome(s, false)
      case Unchanged => RunCreate(s, r, volumes[1..])
      case Store(p) =>
        if a.volumeManagerOk then RunCreate(Put(s, vol, a, p), r, volumes[1..]) else Outcome(s, false)
  }

  function RunReset(s: Store, volumes: seq<(nat, Answers)>): (t: Outcome)
    decreases |volumes|
  {
    if volumes == [] then Outcome(s, true) else
      var (vol, a) := volumes[0];
      if a.volumeManagerOk then RunReset(Put(s, vol, a, Unlimited), volumes[1..]) else Outcome(s, false)
  }

  class PolicyTable {
    var policies: Store

    constructor ()
      ensures policies == map[]
    {
      policies := map[];
    }

    method CreateVolumePolicy(r: Request, volumes: seq<(nat, Answers)>) returns (ok: bool)
      requires IsRequest(r)
      modifies this
      ensures Outcome(policies, ok) == RunCreate(old(policies), r, volumes)
    {
      var i := 0;
      while i < |volumes|
        invariant i <= |volumes|
        invariant RunCreate(policies, r, volumes[i..]) == RunCreate(old(policies), r, volumes)
      {
        var (vol, a) := volumes[i];
        assert volumes[i..][0] == volumes[i] && volumes[i..][1..] == volumes[i + 1..];
        var v := JudgeVolume(Previous(policies, vol, a), r);
        if v.Refused? { return false; }
        if v.Store? {
          if !a.volumeManagerOk { return false; }
          policies := Put(policies, vol, a, v.policy);
        }
        i := i + 1;
      }
      ok := true;
    }

    method ResetVolumePolicy(volumes: seq<(nat, Answers)>) returns (ok: bool)
      modifies this
      ensures Outcome(policies, ok) == RunReset(old(policies), volumes)
    {
      var i := 0;
      while i < |volumes|
        invariant i <= |volumes|
        invariant RunReset(policies, volumes[i..]) == RunReset(old(policies), volumes)
      {
        var (vol, a) := volumes[i];
        assert volumes[i..][0] == volumes[i] && volumes[i..][1..] == volumes[i + 1..];
        if !a.volumeManagerOk { return false; }
        policies := Put(policies, vol, a, Unlimited);
        i := i + 1;
      }
      ok := true;
    }
  }

  predicate IsCommand(c: Command) { c.Create? ==> IsRequest(c.request) }

  function After(s: Store, c: Command): (t: Store)
    requires IsCommand(c)
  {
    match c
    case Create(r, volumes) => RunCreate(s, r, volumes).store
    case Reset(volumes) => RunReset(s, volumes).store
  }

  /** The store after a history of commands, starting from no policies. */
  ghost function History(commands: seq<Command>): (s: Store)
    requires forall i :: 0 <= i < |commands| ==> IsCommand(commands[i])
  {
    if commands == [] then map[] else After(History(commands[..|commands| - 1]), commands[|commands| - 1])
  }

  // --- What every stored policy satisfies -----------------------------------------------------------------

  /** Minimum below maximum in the same unit. */
  predicate Ordered(p: Policy) {
    && (p.maxBw != 0 ==> Under(p.minBw, p.maxBw))
    && (p.maxIops != 0 ==> Under(p.minIops, p.maxIops))
  }

  /** A minimum needs its guarantee, and only one kind of minimum is guaranteed. */
  predicate OneGuarantee(p: Policy) {
    && (p.minBw != 0 ==> p.bwGuarantee)
    && (p.minIops != 0 ==> p.iopsGuarantee)
    && !(p.bwGuarantee && p.iopsGuarantee)
  }

  /** Minimum below maximum across the units, compared as exact byte rates. */
  predicate CrossOrdered(p: Policy) {
    && (p.maxIops != 0 ==> Under(BwBytes(p.minBw), IopsBytes(p.maxIops)))
    && (p.maxBw != 0 ==> Under(IopsBytes(p.minIops), BwBytes(p.maxBw)))
  }

  /** The exact conversions of the minima fit into 32 bits. */
  predicate Narrow(minBw: nat, minIops: nat) {
    BwBytes(minBw) / BLOCK / KIOPS < U32 && IopsBytes(minIops) / MIB < U32
  }

  predicate NarrowRequest(r: Request)
    requires IsRequest(r)
  {
    Narrow(Choose(r.minBw, 0), Choose(r.minIops, 0))
  }

  predicate NarrowCommand(c: Command)
    requires IsCommand(c)
  {
    c.Create? ==> NarrowRequest(c.request)
  }

  /** A minimum below a converted maximum is below it exactly: converting a maximum never overstates it. */
  lemma {:induction false} BelowMaximum(low: nat, high: nat)
    ensures low < BwOfIops(high) ==> BwBytes(low) < IopsBytes(high)
    ensures low < IopsOfBw(high) ==> IopsBytes(low) < BwBytes(high)
  {
    var x, y := IopsBytes(high) % U64, BwBytes(high) % U64;
    assert x <= IopsBytes(high) && x / MIB % U32 <= x / MIB;
    assert y <= BwBytes(high) && y / BLOCK / KIOPS % U32 <= y / BLOCK / KIOPS;
  }

  /** A maximum above a converted minimum is above it exactly, when the conversion fits into 32 bits. */
  lemma {:induction false} AboveMinimum(low: nat, high: nat)
    ensures BwBytes(low) / BLOCK / KIOPS < U32 && IopsOfBw(low) < high ==> BwBytes(low) < IopsBytes(high)
    ensures IopsBytes(low) / MIB < U32 && BwOfIops(low) < high ==> IopsBytes(low) < BwBytes(high)
  {
    ConvertExact(low, high);
    ConvertExact(high, low);
  }

  /** Every admitted policy is ordered within each unit and has one kind of guarantee, whatever the widths. */
  lemma {:induction false} AdmittedOrdered(p: Policy, r: Request)
    requires IsRequest(r) && Acceptable(p, r) && Changes(p, Wanted(p, r)) && Ordered(p) && OneGuarantee(p)
    ensures Ordered(Wanted(p, r)) && OneGuarantee(Wanted(p, r))
  {
  }

  lemma {:induction false} BwCrossOrdered(p: Policy, r: Request)
    requires IsRequest(r) && Acceptable(p, r) && CrossOrdered(p)
    requires BwBytes(Wanted(p, r).minBw) / BLOCK / KIOPS < U32
    ensures Wanted(p, r).maxIops != 0 ==> Under(BwBytes(Wanted(p, r).minBw), IopsBytes(Wanted(p, r).maxIops))
  {
    var n := Wanted(p, r);
    if n.maxIops != p.maxIops {
      AboveMinimum(n.minBw, n.maxIops);
    } else if n.minBw != p.minBw {
      BelowMaximum(n.minBw, p.maxIops);
    }
  }

  lemma {:induction false} IopsCrossOrdered(p: Policy, r: Request)
    requires IsRequest(r) && Acceptable(p, r) && CrossOrdered(p)
    requires IopsBytes(p.minIops) / MIB < U32
    ensures Wanted(p, r).maxBw != 0 ==> Under(IopsBytes(Wanted(p, r).minIops), BwBytes(Wanted(p, r).maxBw))
  {
    var n := Wanted(p, r);
    if n.minIops != p.minIops {
      BelowMaximum(n.minIops, n.maxBw);
    } else if n.maxBw != p.maxBw {
      AboveMinimum(p.minIops, n.maxBw);
    }
  }

  /** With minima that fit into 32 bits, an admitted policy is also ordered across the units. */
  lemma {:induction false} AdmittedCrossOrdered(p: Policy, r: Request)
    requires IsRequest(r) && Acceptable(p, r) && CrossOrdered(p)
    requires Narrow(p.minBw, p.minIops) && NarrowRequest(r)
    ensures CrossOrdered(Wanted(p, r)) && Narrow(Wanted(p, r).minBw, Wanted(p, r).minIops)
  {
    BwCrossOrdered(p, r);
    IopsCrossOrdered(p, r);
  }

  ghost predicate AllStored(s: Store, ok: Policy -> bool) {
    forall v :: v in s ==> ok(s[v])
  }

  ghost function Sane(): (ok: Policy -> bool) { (p: Policy) => Ordered(p) && OneGuarantee(p) }

  ghost function CrossSane(): (ok: Policy -> bool) {
    (p: Policy) => CrossOrdered(p) && Narrow(p.minBw, p.minIops)
  }

  lemma {:induction false} CreateKeeps(s: Store, r: Request, volumes: seq<(nat, Answers)>, ok: Policy -> bool)
    requires IsRequest(r) && AllStored(s, ok) && ok(Unlimited)
    requires forall p :: ok(p) && Acceptable(p, r) && Changes(p, Wanted(p, r)) ==> ok(Wanted(p, r))
    ensures AllStored(RunCreate(s, r, volumes).store, ok)
    decreases |volumes|
  {
    if volumes != [] {
      var (vol, a) := volumes[0];
      var v := Judge(Previous(s, vol, a), r);
      if v.Unchanged? { CreateKeeps(s, r, volumes[1..], ok); }
      if v.Store? && a.volumeManagerOk { CreateKeeps(Put(s, vol, a, v.policy), r, volumes[1..], ok); }
    }
  }

  lemma {:induction false} ResetKeeps(s: Store, volumes: seq<(nat, Answers)>, ok: Policy -> bool)
    requires AllStored(s, ok) && ok(Unlimited)
    ensures AllStored(RunReset(s, volumes).store, ok)
    decreases |volumes|
  {
    if volumes != [] && volumes[0].1.volumeManagerOk {
      ResetKeeps(Put(s, volumes[0].0, volumes[0].1, Unlimited), volumes[1..], ok);
    }
  }

  /**
    Over every history of create and reset commands, accepted or refused, every stored policy has its
    minima below its maxima and at most one kind of guaranteed minimum.
   */
  lemma {:induction false} HistoryOrdered(commands: seq<Command>)
    requires forall i :: 0 <= i < |commands| ==> IsCommand(commands[i])
    ensures forall v :: v in History(commands) ==>
              var p := History(commands)[v]; Ordered(p) && OneGuarantee(p) && (p.minBw == 0 || p.minIops == 0)
  {
    if commands != [] {
      var last := |commands| - 1;
      HistoryOrdered(commands[..last]);
      var s, ok := History(commands[..last]), Sane();
      match commands[last]
      case Create(r, volumes) =>
        forall p | ok(p) && Acceptable(p, r) && Changes(p, Wanted(p, r)) ensures ok(Wanted(p, r)) { AdmittedOrdered(p, r); }
        CreateKeeps(s, r, volumes, ok);
      case Reset(volumes) => ResetKeeps(s, volumes, ok);
    }
  }

  /** Over every history whose requested minima fit, every stored policy is ordered across the units too. */
  lemma {:induction false} HistoryCrossOrdered(commands: seq<Command>)
    requires forall i :: 0 <= i < |commands| ==> IsCommand(commands[i]) && NarrowCommand(commands[i])
    ensures AllStored(History(commands), CrossSane())
  {
    if commands != [] {
      var last := |commands| - 1;
      HistoryCrossOrdered(commands[..last]);
      var s, ok := History(commands[..last]), CrossSane();
      match commands[last]
      case Create(r, volumes) =>
        forall p | ok(p) && Acceptable(p, r) && Changes(p, Wanted(p, r)) ensures ok(Wanted(p, r)) { AdmittedCrossOrdered(p, r); }
        CreateKeeps(s, r, volumes, ok);
      case Reset(volumes) => ResetKeeps(s, volumes, ok);
    }
  }

  // --- What the commands do to each volume ----------------------------------------------------------------

  /** Some of the first `n` entries is for the volume and reaches the store. */
  predicate StoresIn(volumes: seq<(nat, Answers)>, vol: nat, n: nat)
    requires n <= |volumes|
  {
    exists i :: 0 <= i < n && volumes[i].0 == vol && volumes[i].1.volumeManagerOk && volumes[i].1.arrayKnown && volumes[i].1.stores
  }

  /** How many entries a reset goes through: up to the first that the volume manager refuses. */
  function Reached(volumes: seq<(nat, Answers)>): (n: nat)
    ensures n <= |volumes| && (n < |volumes| ==> !volumes[n].1.volumeManagerOk)
    ensures forall i :: 0 <= i < n ==> volumes[i].1.volumeManagerOk
  {
    if volumes == [] || !volumes[0].1.volumeManagerOk then 0 else 1 + Reached(volumes[1..])
  }

  lemma {:induction false} StoresInRest(volumes: seq<(nat, Answers)>, vol: nat, n: nat)
    requires 0 < n <= |volumes|
    ensures StoresIn(volumes, vol, n) <==>
            || (volumes[0].0 == vol && volumes[0].1.volumeManagerOk && volumes[0].1.arrayKnown && volumes[0].1.stores)
            || StoresIn(volumes[1..], vol, n - 1)
  {
    if i :| 0 <= i < n - 1 && volumes[1..][i].0 == vol && volumes[1..][i].1.volumeManagerOk
            && volumes[1..][i].1.arrayKnown && volumes[1..][i].1.stores {
      assert volumes[i + 1] == volumes[1..][i];
    }
    if i :| 0 < i < n && volumes[i].0 == vol && volumes[i].1.volumeManagerOk && volumes[i].1.arrayKnown && volumes[i].1.stores {
      assert volumes[1..][i - 1] == volumes[i];
    }
  }

  /**
    A reset succeeds exactly when the volume manager accepts every volume. Every volume it reaches and
    stores is unlimited afterwards, and every other volume keeps its policy.
   */
  lemma {:induction false} ResetResets(s: Store, volumes: seq<(nat, Answers)>, vol: nat)
    ensures RunReset(s, volumes).ok <==> Reached(volumes) == |volumes|
    ensures Lookup(RunReset(s, volumes).store, vol)
         == if StoresIn(volumes, vol, Reached(volumes)) then Unlimited else Lookup(s, vol)
    decreases |volumes|
  {
    if volumes != [] && volumes[0].1.volumeManagerOk {
      StoresInRest(volumes, vol, Reached(volumes));
      ResetResets(Put(s, volumes[0].0, volumes[0].1, Unlimited), volumes[1..], vol);
    }
  }

  /** Both policies have the same four limits. */
  predicate SameLimits(p: Policy, q: Policy) { !Changes(p, q) }

  /** The limits a request asks for: those given, and for the others those there were. */
  predicate Asked(before: Policy, r: Request, after: Policy)
    requires IsRequest(r)
  {
    && (if Given(r.minBw) then after.minBw == r.minBw.value % U64 else after.minBw == before.minBw)
    && (if Given(r.maxBw) then after.maxBw == r.maxBw.value % U64 else after.maxBw == before.maxBw)
    && (if Given(r.minIops) then after.minIops == r.minIops.value % U64 else after.minIops == before.minIops)
    && (if Given(r.maxIops) then after.maxIops == r.maxIops.value % U64 else after.maxIops == before.maxIops)
  }

  lemma {:induction false} WantedIsAsked(p: Policy, r: Request)
    requires IsRequest(r)
    ensures Asked(p, r, Wanted(p, r))
    ensures Wanted(p, r).bwGuarantee <==> p.bwGuarantee || Given(r.minBw)
    ensures Wanted(p, r).iopsGuarantee <==> p.iopsGuarantee || Given(r.minIops)
  {
    In64(r.minBw);
    In64(r.maxBw);
    In64(r.minIops);
    In64(r.maxIops);
  }

  lemma {:induction false} In64(o: Option<int>)
    requires Int64(o)
    ensures Given(o) ==> Choose(o, 0) == o.value % U64
  {
  }

  /**
    A create command leaves every volume with its policy or with the limits asked for. If the command is
    accepted, every listed volume that is stored has the limits asked for; a volume not listed keeps its policy.
   */
  lemma {:induction false} CreateGives(s: Store, r: Request, volumes: seq<(nat, Answers)>, vol: nat)
    requires IsRequest(r)
    ensures var before, after := Lookup(s, vol), Lookup(RunCreate(s, r, volumes).store, vol);
            && (after == before || Asked(before, r, after))
            && (RunCreate(s, r, volumes).ok && StoresIn(volumes, vol, |volumes|) ==> Asked(before, r, after))
            && ((forall i :: 0 <= i < |volumes| ==> volumes[i].0 != vol) ==> after == before)
    decreases |volumes|
  {
    if volumes != [] {
      var (v, a) := volumes[0];
      var before := Lookup(s, vol);
      StoresInRest(volumes, vol, |volumes|);
      var verdict := Judge(Previous(s, v, a), r);
      WantedIsAsked(Previous(s, v, a), r);
      if verdict.Unchanged? {
        CreateGives(s, r, volumes[1..], vol);
      } else if verdict.Store? && a.volumeManagerOk {
        var t := Put(s, v, a, verdict.policy);
        CreateGives(t, r, volumes[1..], vol);
        AskedTwice(before, r, Lookup(t, vol), Lookup(RunCreate(s, r, volumes).store, vol));
      }
    }
  }

  /** The command stops at this volume: its request is refused, or the volume manager does not take it. */
  predicate StopsAt(s: Store, r: Request, entry: (nat, Answers))
    requires IsRequest(r)
  {
    var v := Judge(Previous(s, entry.0, entry.1), r);
    v.Refused? || (v.Store? && !entry.1.volumeManagerOk)
  }

  /**
    A create command works through its volumes up to the first at which it stops, keeps what it stored
    before, and is accepted exactly when there is none.
   */
  lemma {:induction false} CreateStops(s: Store, r: Request, volumes: seq<(nat, Answers)>) returns (n: nat)
    requires IsRequest(r)
    ensures n <= |volumes| && RunCreate(s, r, volumes[..n]) == Outcome(RunCreate(s, r, volumes).store, true)
    ensures RunCreate(s, r, volumes).ok <==> n == |volumes|
    ensures n < |volumes| ==> StopsAt(RunCreate(s, r, volumes).store, r, volumes[n])
    decreases |volumes|
  {
    if volumes == [] || StopsAt(s, r, volumes[0]) {
      n := 0;
      assert volumes[..0] == [];
    } else {
      var (vol, a) := volumes[0];
      var v := Judge(Previous(s, vol, a), r);
      var t := if v.Store? then Put(s, vol, a, v.policy) else s;
      var m := CreateStops(t, r, volumes[1..]);
      n := m + 1;
      assert volumes[..n][0] == volumes[0] && volumes[..n][1..] == volumes[1..][..m];
    }
  }

  lemma {:induction false} AskedTwice(p: Policy, r: Request, q: Policy, n: Policy)
    requires IsRequest(r)
    ensures Asked(p, r, q) && Asked(q, r, n) ==> Asked(p, r, n)
  {
  }

  // --- What is accepted, in exact arithmetic ---------------------------------------------------------------

  lemma {:induction false} CompareQuotient(a: nat, x: nat, unit: nat)
    requires unit > 0
    ensures a < x / unit <==> (a + 1) * unit <= x
    ensures x / unit < a <==> x < a * unit
  {
    var q, r := x / unit, x % unit;
    assert x == q * unit + r;
    if a < q {
      assert (a + 1) * unit <= q * unit && a * unit <= q * unit;
    } else {
      assert q * unit <= a * unit && (a + 1) * unit == a * unit + unit;
      if q < a { assert (q + 1) * unit <= a * unit && (q + 1) * unit == q * unit + unit; }
    }
  }

  /** Where the exact conversions fit, comparing with a converted limit is comparing exact byte rates. */
  lemma {:induction false} ConvertExact(bw: nat, iops: nat)
    ensures IopsBytes(iops) / MIB < U32 ==>
              && (bw < BwOfIops(iops) <==> BwBytes(bw + 1) <= IopsBytes(iops))
              && (BwOfIops(iops) < bw <==> IopsBytes(iops) < BwBytes(bw))
    ensures BwBytes(bw) / BLOCK / KIOPS < U32 ==>
              && (iops < IopsOfBw(bw) <==> IopsBytes(iops + 1) <= BwBytes(bw))
              && (IopsOfBw(bw) < iops <==> BwBytes(bw) < IopsBytes(iops))
  {
    BwOfIopsExact(iops);
    CompareQuotient(bw, IopsBytes(iops), MIB);
    IopsOfBwExact(bw);
    CompareQuotient(iops, BwBytes(bw), BLOCK * KIOPS);
    assert IopsBytes(iops) == iops * (BLOCK * KIOPS) && IopsBytes(iops + 1) == (iops + 1) * (BLOCK * KIOPS);
  }

  lemma {:induction false} BwOfIopsExact(iops: nat)
    ensures IopsBytes(iops) / MIB < U32 ==> BwOfIops(iops) == IopsBytes(iops) / MIB
  {
    if IopsBytes(iops) / MIB < U32 { assert IopsBytes(iops) % U64 == IopsBytes(iops); }
  }

  lemma {:induction false} IopsOfBwExact(bw: nat)
    ensures BwBytes(bw) / BLOCK / KIOPS < U32 ==> IopsOfBw(bw) == BwBytes(bw) / (BLOCK * KIOPS)
  {
    var x := BwBytes(bw);
    assert x / BLOCK / KIOPS == x / (BLOCK * KIOPS);
    if x / BLOCK / KIOPS < U32 { assert x % U64 == x; }
  }

  predicate ExactBw(bw: nat) { BwBytes(bw) / BLOCK / KIOPS < U32 }
  predicate ExactIops(iops: nat) { IopsBytes(iops) / MIB < U32 }

  /** All limits of the policy convert exactly. */
  predicate Exact(p: Policy) { ExactBw(p.minBw) && ExactBw(p.maxBw) && ExactIops(p.minIops) && ExactIops(p.maxIops) }

  /** A new minimum bandwidth is at least one unit below both stored maxima. */
  predicate MinBwFits(p: Policy, minBw: nat) {
    && minBw <= MAX_BW
    && (minBw != p.minBw && p.maxBw != 0 ==> minBw < p.maxBw)
    && (minBw != p.minBw && p.maxIops != 0 ==> BwBytes(minBw + 1) <= IopsBytes(p.maxIops))
  }

  /** A new maximum bandwidth is above the stored and the new minimum bandwidth and the stored minimum rate. */
  predicate MaxBwFits(p: Policy, minBw: nat, maxBw: nat) {
    && (maxBw != 0 ==> MIN_LIMIT <= maxBw <= MAX_BW)
    && (maxBw != p.maxBw && p.minBw != 0 ==> p.minBw < maxBw)
    && (maxBw != p.maxBw && minBw != 0 ==> minBw < maxBw)
    && (maxBw != p.maxBw && p.minIops != 0 ==> IopsBytes(p.minIops) < BwBytes(maxBw))
  }

  /** A new minimum rate is at least one unit below the stored maximum rate and the stored and new maximum bandwidth. */
  predicate MinIopsFits(p: Policy, maxBw: nat, minIops: nat) {
    && minIops <= MAX_IOPS
    && (minIops != p.minIops && p.maxIops != 0 ==> minIops < p.maxIops)
    && (minIops != p.minIops && p.maxBw != 0 ==> IopsBytes(minIops + 1) <= BwBytes(p.maxBw))
    && (minIops != p.minIops && maxBw != 0 ==> IopsBytes(minIops + 1) <= BwBytes(maxBw))
  }

  /** A new maximum rate is above the stored and the new minimum rate and minimum bandwidth. */
  predicate MaxIopsFits(p: Policy, minBw: nat, minIops: nat, maxIops: nat) {
    && (maxIops != 0 ==> MIN_LIMIT <= maxIops <= MAX_IOPS)
    && (maxIops != p.maxIops && p.minIops != 0 ==> p.minIops < maxIops)
    && (maxIops != p.maxIops && minIops != 0 ==> minIops < maxIops)
    && (maxIops != p.maxIops && p.minBw != 0 ==> BwBytes(p.minBw) < IopsBytes(maxIops))
    && (maxIops != p.maxIops && minBw != 0 ==> BwBytes(minBw) < IopsBytes(maxIops))
  }

  lemma {:induction false} BwChecksExact(p: Policy, minBw: nat, maxBw: nat)
    requires Exact(p)
    ensures MinBwOk(p, minBw) <==> MinBwFits(p, minBw)
    ensures MaxBwOk(p, minBw, maxBw) <==> MaxBwFits(p, minBw, maxBw)
  {
    ConvertExact(minBw, p.maxIops);
    ConvertExact(maxBw, p.minIops);
  }

  lemma {:induction false} IopsChecksExact(p: Policy, minBw: nat, maxBw: nat, minIops: nat, maxIops: nat)
    requires Exact(p) && ExactBw(minBw) && ExactBw(maxBw)
    ensures MinIopsOk(p, maxBw, minIops) <==> MinIopsFits(p, maxBw, minIops)
    ensures MaxIopsOk(p, minBw, minIops, maxIops) <==> MaxIopsFits(p, minBw, minIops, maxIops)
  {
    ConvertExact(p.maxBw, minIops);
    ConvertExact(maxBw, minIops);
    ConvertExact(p.minBw, maxIops);
    ConvertExact(minBw, maxIops);
  }

  /**
    Where all limits convert exactly, a request is refused exactly when a parameter it gives does not fit the
    stored policy in exact byte rates, or it would leave two kinds of guaranteed minimum.
   */
  lemma {:induction false} RefusesExactly(p: Policy, r: Request)
    requires IsRequest(r) && Exact(p) && Exact(Wanted(p, r))
    ensures var n := Wanted(p, r);
            !Judge(p, r).Refused? <==>
              && (Given(r.minBw) ==> MinBwFits(p, n.minBw))
              && (Given(r.maxBw) ==> MaxBwFits(p, n.minBw, n.maxBw))
              && (Given(r.minIops) ==> MinIopsFits(p, n.maxBw, n.minIops))
              && (Given(r.maxIops) ==> MaxIopsFits(p, n.minBw, n.minIops, n.maxIops))
              && (SameLimits(p, n) || !(n.bwGuarantee && n.iopsGuarantee))
  {
    var n := Wanted(p, r);
    BwChecksExact(p, n.minBw, n.maxBw);
    IopsChecksExact(p, n.minBw, n.maxBw, n.minIops, n.maxIops);
  }

  // --- Exactly when the truncation to 32 bits matters ----------------------------------------------------

  function OnlyMaxIops(v: nat): (r: Request) { Request(None, None, None, Some(v)) }
  function OnlyMaxBw(v: nat): (r: Request) { Request(None, Some(v), None, None) }

  /** Some maximum of requests is admitted although the minimum bandwidth already exceeds it. */
  ghost predicate MaxIopsSlips(p: Policy) {
    exists v: nat :: v <= MAX_IOPS && Acceptable(p, OnlyMaxIops(v)) && !CrossOrdered(Wanted(p, OnlyMaxIops(v)))
  }

  ghost predicate MaxBwSlips(p: Policy) {
    exists v: nat :: v <= MAX_BW && Acceptable(p, OnlyMaxBw(v)) && !CrossOrdered(Wanted(p, OnlyMaxBw(v)))
  }

  /** For a sane policy with a minimum bandwidth that happens exactly when its conversion needs more than 32 bits. */
  lemma {:induction false} MaxIopsGap(p: Policy)
    requires Ordered(p) && OneGuarantee(p) && CrossOrdered(p) && 0 < p.minBw <= MAX_BW
    ensures MaxIopsSlips(p) <==> BwBytes(p.minBw) / BLOCK / KIOPS >= U32
  {
    if BwBytes(p.minBw) / BLOCK / KIOPS >= U32 {
      var v := if IopsOfBw(p.minBw) + 1 < MIN_LIMIT then MIN_LIMIT else IopsOfBw(p.minBw) + 1;
      assert IopsBytes(v) <= BwBytes(p.minBw);
      assert Acceptable(p, OnlyMaxIops(v)) && !CrossOrdered(Wanted(p, OnlyMaxIops(v)));
    } else {
      forall v: nat | v <= MAX_IOPS && Acceptable(p, OnlyMaxIops(v)) ensures CrossOrdered(Wanted(p, OnlyMaxIops(v))) {
        AboveMinimum(p.minBw, v);
      }
    }
  }

  /** The same for a minimum request rate and a maximum bandwidth. */
  lemma {:induction false} MaxBwGap(p: Policy)
    requires Ordered(p) && OneGuarantee(p) && CrossOrdered(p) && 0 < p.minIops <= MAX_IOPS
    ensures MaxBwSlips(p) <==> IopsBytes(p.minIops) / MIB >= U32
  {
    if IopsBytes(p.minIops) / MIB >= U32 {
      var v := if BwOfIops(p.minIops) + 1 < MIN_LIMIT then MIN_LIMIT else BwOfIops(p.minIops) + 1;
      assert BwBytes(v) <= IopsBytes(p.minIops);
      assert Acceptable(p, OnlyMaxBw(v)) && !CrossOrdered(Wanted(p, OnlyMaxBw(v)));
    } else {
      forall v: nat | v <= MAX_BW && Acceptable(p, OnlyMaxBw(v)) ensures CrossOrdered(Wanted(p, OnlyMaxBw(v))) {
        AboveMinimum(p.minIops, v);
      }
    }
  }

  /** Two accepted commands that leave a minimum of 16000 TiB/s beside a maximum of 10000 requests per second. */
  lemma {:induction false} GapHistory()
    ensures exists commands: seq<Command> ::
              && (forall i :: 0 <= i < |commands| ==> IsCommand(commands[i]))
              && 0 in History(commands) && !CrossOrdered(History(commands)[0])
  {
    var a := Answers(true, true, true);
    var c1 := Create(Request(Some(16_777_216_000), None, None, None), [(0, a)]);
    var c2 := Create(OnlyMaxIops(10), [(0, a)]);
    var p1 := Policy(16_777_216_000, 0, 0, 0, true, false);
    assert RunCreate(map[], c1.request, [(0, a)]).store == map[0 := p1] by {
      assert Judge(Unlimited, c1.request) == Store(p1);
      assert [(0, a)][1..] == [];
    }
    assert RunCreate(map[0 := p1], c2.request, [(0, a)]).store == map[0 := p1.(maxIops := 10)] by {
      assert Judge(p1, c2.request) == Store(p1.(maxIops := 10));
      assert [(0, a)][1..] == [];
    }
    var commands := [c1, c2];
    assert commands[..1] == [c1] && commands[..1][..0] == [];
    assert History([c1]) == map[0 := p1];
    assert History(commands) == map[0 := p1.(maxIops := 10)];
  }
}
