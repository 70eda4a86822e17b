/** CPU sets for the core roles, parsed from one string per role, with an optional check against overlap. */
module CpuStrings {
  import opened Numerals
  import opened CpuMask
  import opened CpuList
  import CpuSets

  const ROLES := CpuSets.ROLES
  const HEX_PREFIX := "0x"

  function ParseString(total: nat, reserved: set<nat>, s: string, check: bool): (r: Outcome) {
    if HEX_PREFIX <= s then ParseMask(total, reserved, s[|HEX_PREFIX|..], check)
    else ParseList(total, reserved, s, check)
  }

  class StringDescriptedCpuSetGenerator {
    const total: nat
    var cpuSets: seq<set<nat>>
    var overlapCheckCpuSet: set<nat>

    constructor (total: nat)
      ensures this.total == total && overlapCheckCpuSet == {} && cpuSets == seq(ROLES, _ => {})
    {
      this.total := total;
      cpuSets := seq(ROLES, _ => {});
      overlapCheckCpuSet := {};
    }

    /** One 64-bit chunk of a mask, bit by bit. */
    method SetBits(mask0: nat, at: nat, check: bool, cpus: set<nat>) returns (r: Outcome)
      modifies this`overlapCheckCpuSet
      ensures r == Verdict(total, Done(cpus, old(overlapCheckCpuSet)), Bits(mask0, at, BITS_PER_UINT64), check)
      ensures r.Done? ==> overlapCheckCpuSet == r.reserved
    {
      var mask, cpuSet := mask0, cpus;
      ghost var seen: set<nat> := {};
      for bit := 0 to BITS_PER_UINT64
        invariant seen + Bits(mask, at + bit, BITS_PER_UINT64 - bit) == Bits(mask0, at, BITS_PER_UINT64)
        invariant forall c :: c in seen ==> at <= c < at + bit
        invariant Admits(total, old(overlapCheckCpuSet), seen)
        invariant cpuSet == cpus + seen && overlapCheckCpuSet == Reserve(old(overlapCheckCpuSet), seen, check)
      {
        ghost var left := Bits(mask, at + bit, BITS_PER_UINT64 - bit);
        if mask % 2 != 0 {
          var cpuIndex := at + bit;
          assert cpuIndex in left;
          if cpuIndex in overlapCheckCpuSet || cpuIndex > total {
            assert cpuIndex in Bits(mask0, at, BITS_PER_UINT64);
            return Exit;
          }
          cpuSet := cpuSet + {cpuIndex};
          if check { overlapCheckCpuSet := overlapCheckCpuSet + {cpuIndex}; }
          seen := seen + {cpuIndex};
        }
        mask := mask / 2;
      }
      r := Done(cpuSet, overlapCheckCpuSet);
    }

    method SetChunk(maskString: string, at: nat, check: bool, cpus: set<nat>) returns (r: Outcome)
      modifies this`overlapCheckCpuSet
      ensures r == AddChunk(total, Done(cpus, old(overlapCheckCpuSet)), maskString, at, check)
      ensures r.Done? ==> overlapCheckCpuSet == r.reserved
    {
      var mask := Read(maskString, 16);
      if !mask.Number? { return Throw; }
      r := SetBits(mask.value, at, check, cpus);
    }

    method SetCpuMaskFromMask(role: nat, cpuString: string, check: bool) returns (r: Outcome)
      requires role < |cpuSets|
      modifies this
      ensures r == ParseMask(total, old(overlapCheckCpuSet), cpuString, check)
      ensures r.Done? ==> overlapCheckCpuSet == r.reserved && cpuSets == old(cpuSets)[role := r.cpus]
    {
      var cpuSet, targetString, cpuBase: nat := {}, cpuString[..|cpuString| % WORD], 0;
      if cpuString != "" && targetString == "" { return Throw; }
      ghost var result := MaskFrom(total, Done({}, overlapCheckCpuSet), targetString, 0, check);
      while targetString != ""
        invariant cpuSets == old(cpuSets)
        invariant result == MaskFrom(total, Done(cpuSet, overlapCheckCpuSet), targetString, cpuBase, check)
        decreases |targetString|
      {
        var maskString := LastChunk(targetString);
        var next := SetChunk(maskString, cpuBase, check, cpuSet);
        if !next.Done? { return next; }
        cpuSet, targetString := next.cpus, targetString[..|targetString| - |maskString|];
        cpuBase := NextBase(cpuBase);
      }
      cpuSets := cpuSets[role := cpuSet];
      r := Done(cpuSet, overlapCheckCpuSet);
    }

    /** The counting loop; when `hi` is the largest 32-bit number the counter wraps and the loop has no end. */
    method SetCpuRange(lo: nat, hi: nat, check: bool, prev: set<nat>) returns (r: Outcome)
      requires lo < WORD && hi < WORD
      modifies this`overlapCheckCpuSet
      ensures r == AddRange(total, Done(prev, old(overlapCheckCpuSet)), lo, hi, check)
      ensures r.Done? ==> overlapCheckCpuSet == r.reserved
    {
      if hi == WORD - 1 { return Hang; }
      var cpuSet, cpu := {}, lo;
      while cpu <= hi
        invariant lo <= cpu && cpuSet == set c | c in Span(lo, hi) && c < cpu
      {
        cpuSet := cpuSet + {cpu};
        cpu := cpu + 1;
      }
      assert cpuSet == Span(lo, hi);
      if hi >= total || cpuSet * overlapCheckCpuSet != {} { return Exit; }
      if check { overlapCheckCpuSet := overlapCheckCpuSet + cpuSet; }
      r := Done(prev + cpuSet, overlapCheckCpuSet);
    }

    /** Splits the next number or range off the front of the string. */
    method NextItem(targetString: string) returns (item: Item)
      requires targetString != ""
      ensures item == ReadItem(targetString)
    {
      var first := Read(targetString, 10);
      if !first.Number? { return Bad; }
      var start, nextOffset := first.value % WORD, first.used;
      if |targetString| > nextOffset {
        var operand := targetString[nextOffset];
        nextOffset := nextOffset + 1;
        if operand == '-' {
          item := UpperBound(start, targetString[nextOffset..]);
          return;
        }
      }
      return Item(start, start, targetString[nextOffset..]);
    }

    method UpperBound(start: nat, targetString: string) returns (item: Item)
      requires start < WORD
      ensures item == ReadUpper(start, targetString)
    {
      var second := Read(targetString, 10);
      if !second.Number? { return Bad; }
      var end, nextOffset := second.value % WORD, second.used + 1;
      if nextOffset > |targetString| { return Item(start, end, ""); }
      return Item(start, end, targetString[nextOffset..]);
    }

    method SetCpuMaskFromAllowedList(role: nat, cpuString: string, check: bool) returns (r: Outcome)
      requires role < |cpuSets|
      modifies this
      ensures r == ParseList(total, old(overlapCheckCpuSet), cpuString, check)
      ensures r.Done? ==> overlapCheckCpuSet == r.reserved && cpuSets == old(cpuSets)[role := r.cpus]
    {
      var cpuSet, targetString := {}, cpuString;
      while targetString != ""
        invariant ParseList(total, old(overlapCheckCpuSet), cpuString, check)
               == ListFrom(total, Done(cpuSet, overlapCheckCpuSet), targetString, check)
        invariant cpuSets == old(cpuSets)
        decreases |targetString|
      {
        var item := NextItem(targetString);
        if item.Bad? { return Throw; }
        var next := SetCpuRange(item.lo, item.hi, check, cpuSet);
        if !next.Done? { return next; }
        cpuSet, targetString := next.cpus, item.rest;
      }
      cpuSets := cpuSets[role := cpuSet];
      r := Done(cpuSet, overlapCheckCpuSet);
    }

    method SetCpuMaskFromString(role: nat, cpuString: string, check: bool) returns (r: Outcome)
      requires role < |cpuSets|
      modifies this
      ensures r == ParseString(total, old(overlapCheckCpuSet), cpuString, check)
      ensures r.Done? ==> overlapCheckCpuSet == r.reserved && cpuSets == old(cpuSets)[role := r.cpus]
    {
      if HEX_PREFIX <= cpuString {
        r := SetCpuMaskFromMask(role, cpuString[|HEX_PREFIX|..], check);
      } else {
        r := SetCpuMaskFromAllowedList(role, cpuString, check);
      }
    }

    /** Parses one description. */
    method AddRole(ghost s: State, desc: Description, forbidOverlap: bool) returns (stopped: Outcome)
      requires s.Sets? && cpuSets == s.cpuSets && overlapCheckCpuSet == s.reserved
      requires desc.role < |cpuSets|
      modifies this
      ensures Agrees(Next(total, s, desc, forbidOverlap), stopped)
    {
      stopped := SetCpuMaskFromString(desc.role, desc.coreRange, forbidOverlap);
    }

    ghost predicate Agrees(s: State, stopped: Outcome)
      reads this
    {
      if s.Sets? then stopped.Done? && cpuSets == s.cpuSets && overlapCheckCpuSet == s.reserved
      else stopped == s.outcome
    }

    /** Parses the descriptions in order; the first one that does not parse ends it. */
    method Generate(descs: seq<Description>, forbidOverlap: bool) returns (stopped: Outcome)
      requires cpuSets == seq(ROLES, _ => {}) && overlapCheckCpuSet == {}
      requires forall d :: 0 <= d < |descs| ==> descs[d].role < ROLES
      modifies this
      ensures Agrees(Assign(total, descs, |descs|, forbidOverlap), stopped)
    {
      stopped := Done({}, {});
      for d := 0 to |descs|
        invariant Assign(total, descs, d, forbidOverlap).Sets?
        invariant Agrees(Assign(total, descs, d, forbidOverlap), stopped)
      {
        ghost var s := Assign(total, descs, d, forbidOverlap);
        stopped := AddRole(s, descs[d], forbidOverlap);
        assert Assign(total, descs, d + 1, forbidOverlap) == Next(total, s, descs[d], forbidOverlap);
        if !stopped.Done? {
          StaysStopped(total, descs, d + 1, forbidOverlap);
          return;
        }
      }
    }
  }

  // --- The sets of all roles --------------------------------------------------------------------------------

  datatype Description = Description(role: nat, coreRange: string)

  /** The sets of the roles, the overlap set, and the set that each description got; or what ended the parsing. */
  datatype State =
    | Sets(cpuSets: seq<set<nat>>, reserved: set<nat>, given: seq<set<nat>>)
    | Stopped(outcome: Outcome)

  function Next(total: nat, s: State, desc: Description, forbid: bool): (r: State)
    requires s.Sets? && desc.role < |s.cpuSets|
    ensures r.Sets? ==>
              && |r.given| == |s.given| + 1
              && r.given[..|s.given|] == s.given
              && r.cpuSets == s.cpuSets[desc.role := r.given[|s.given|]]
    ensures r.Stopped? ==> !r.outcome.Done?
  {
    var r := ParseString(total, s.reserved, desc.coreRange, forbid);
    if r.Done? then Sets(s.cpuSets[desc.role := r.cpus], r.reserved, s.given + [r.cpus]) else Stopped(r)
  }

  function Assign(total: nat, descs: seq<Description>, n: nat, forbid: bool): (r: State)
    requires n <= |descs| && forall d :: 0 <= d < |descs| ==> descs[d].role < ROLES
    ensures r.Sets? ==> |r.cpuSets| == ROLES && |r.given| == n
    ensures r.Stopped? ==> !r.outcome.Done?
    decreases n
  {
    if n == 0 then Sets(seq(ROLES, _ => {}), {}, [])
    else
      var s := Assign(total, descs, n - 1, forbid);
      if s.Stopped? then s else Next(total, s, descs[n - 1], forbid)
  }

  lemma {:induction false} StaysStopped(total: nat, descs: seq<Description>, n: nat, forbid: bool)
    requires n <= |descs| && forall d :: 0 <= d < |descs| ==> descs[d].role < ROLES
    ensures Assign(total, descs, n, forbid).Stopped? ==>
              Assign(total, descs, |descs|, forbid) == Assign(total, descs, n, forbid)
    decreases |descs| - n
  {
    if n < |descs| { StaysStopped(total, descs, n + 1, forbid); }
  }

  /** A parse under the overlap check takes cpus that were free and reserves exactly those. */
  ghost predicate Took(reserved: set<nat>, r: Outcome) {
    r.Done? ==> r.cpus !! reserved && r.reserved == reserved + r.cpus
  }

  lemma {:induction false} MaskTakes(total: nat, reserved: set<nat>, o: Outcome, s: string, at: nat)
    requires o.Done? && Took(reserved, o)
    ensures Took(reserved, MaskFrom(total, o, s, at, true))
    decreases |s|
  {
    if s != "" {
      var chunk := LastChunk(s);
      var next := AddChunk(total, o, chunk, at, true);
      if next.Done? {
        assert next.reserved == reserved + next.cpus;
        MaskTakes(total, reserved, next, s[..|s| - |chunk|], NextBase(at));
      }
    }
  }

  lemma {:induction false} ListTakes(total: nat, reserved: set<nat>, o: Outcome, s: string)
    requires o.Done? && Took(reserved, o)
    ensures Took(reserved, ListFrom(total, o, s, true))
    decreases |s|
  {
    if s != "" {
      var item := ReadItem(s);
      if item.Item? {
        var next := AddRange(total, o, item.lo, item.hi, true);
        if next.Done? {
          assert next.reserved == reserved + next.cpus;
          ListTakes(total, reserved, next, item.rest);
        }
      }
    }
  }

  lemma {:induction false} StringTakes(total: nat, reserved: set<nat>, s: string)
    ensures Took(reserved, ParseString(total, reserved, s, true))
  {
    if HEX_PREFIX <= s {
      var mask := s[|HEX_PREFIX|..];
      MaskTakes(total, reserved, Done({}, reserved), mask[..|mask| % WORD], 0);
    } else {
      ListTakes(total, reserved, Done({}, reserved), s);
    }
  }

  ghost function Union(sets: seq<set<nat>>): (r: set<nat>) {
    if sets == [] then {} else Union(sets[..|sets| - 1]) + sets[|sets| - 1]
  }

  ghost predicate Apart(sets: seq<set<nat>>) {
    forall i, j :: 0 <= i < j < |sets| ==> sets[i] !! sets[j]
  }

  /** The set of a role is the one given to its last description. */
  ghost predicate FromLast(descs: seq<Description>, s: State, role: nat, n: nat)
    requires s.Sets? && n <= |descs| && |s.given| == n && role < |s.cpuSets|
  {
    || (s.cpuSets[role] == {} && forall d :: 0 <= d < n ==> descs[d].role != role)
    || exists d :: 0 <= d < n && descs[d].role == role && s.cpuSets[role] == s.given[d]
                   && forall e :: d < e < n ==> descs[e].role != role
  }

  lemma {:induction false} InUnion(sets: seq<set<nat>>, i: nat)
    requires i < |sets|
    ensures sets[i] <= Union(sets)
  {
    if i < |sets| - 1 { InUnion(sets[..|sets| - 1], i); }
  }

  /**
    With overlap forbidden, a list of descriptions that is not rejected gives disjoint sets, and the overlap
    set is the union of everything given out.
   */
  lemma {:induction false} OverlapFree(total: nat, descs: seq<Description>, n: nat)
    requires n <= |descs| && forall d :: 0 <= d < |descs| ==> descs[d].role < ROLES
    ensures var s := Assign(total, descs, n, true); s.Sets? ==> Apart(s.given) && s.reserved == Union(s.given)
    decreases n
  {
    if n > 0 && Assign(total, descs, n - 1, true).Sets? {
      OverlapFree(total, descs, n - 1);
      NextTakes(total, Assign(total, descs, n - 1, true), descs[n - 1]);
    }
  }

  lemma {:induction false} NextTakes(total: nat, was: State, desc: Description)
    requires was.Sets? && desc.role < |was.cpuSets| && Apart(was.given) && was.reserved == Union(was.given)
    ensures var s := Next(total, was, desc, true); s.Sets? ==> Apart(s.given) && s.reserved == Union(s.given)
  {
    var r := ParseString(total, was.reserved, desc.coreRange, true);
    StringTakes(total, was.reserved, desc.coreRange);
    if r.Done? { OneMoreApart(was.given, r.cpus); }
  }

  lemma {:induction false} OneMoreApart(given: seq<set<nat>>, cpus: set<nat>)
    requires Apart(given) && cpus !! Union(given)
    ensures Apart(given + [cpus]) && Union(given + [cpus]) == Union(given) + cpus
  {
    assert (given + [cpus])[..|given|] == given;
    forall i | 0 <= i < |given| ensures given[i] !! cpus { InUnion(given, i); }
  }

  lemma {:induction false} RolesFromLast(total: nat, descs: seq<Description>, n: nat, role: nat, forbid: bool)
    requires n <= |descs| && role < ROLES && forall d :: 0 <= d < |descs| ==> descs[d].role < ROLES
    ensures Assign(total, descs, n, forbid).Sets? ==> FromLast(descs, Assign(total, descs, n, forbid), role, n)
    decreases n
  {
    if n > 0 && Assign(total, descs, n, forbid).Sets? {
      RolesFromLast(total, descs, n - 1, role, forbid);
      LastStep(descs, Assign(total, descs, n - 1, forbid), Assign(total, descs, n, forbid), role, n);
    }
  }

  lemma {:induction false} LastStep(descs: seq<Description>, was: State, s: State, role: nat, n: nat)
    requires 0 < n <= |descs| && was.Sets? && s.Sets? && |was.given| == n - 1 && |s.given| == n
    requires role < |was.cpuSets| && descs[n - 1].role < |was.cpuSets|
    requires s.given[..n - 1] == was.given && s.cpuSets == was.cpuSets[descs[n - 1].role := s.given[n - 1]]
    requires FromLast(descs, was, role, n - 1)
    ensures FromLast(descs, s, role, n)
  {
    if descs[n - 1].role == role {
      assert s.cpuSets[role] == s.given[n - 1];
    } else if d :| 0 <= d < n - 1 && descs[d].role == role && was.cpuSets[role] == was.given[d]
                   && forall e :: d < e < n - 1 ==> descs[e].role != role {
      assert s.cpuSets[role] == s.given[d];
    }
  }

  /** With overlap forbidden, different roles get disjoint sets, all inside the overlap set. */
  lemma {:induction false} RolesDisjoint(total: nat, descs: seq<Description>, r: nat, q: nat)
    requires r < ROLES && q < ROLES && r != q && forall d :: 0 <= d < |descs| ==> descs[d].role < ROLES
    ensures var s := Assign(total, descs, |descs|, true);
            s.Sets? ==> s.cpuSets[r] !! s.cpuSets[q] && s.cpuSets[r] <= s.reserved
  {
    var n := |descs|;
    var s := Assign(total, descs, n, true);
    if s.Sets? {
      OverlapFree(total, descs, n);
      RolesFromLast(total, descs, n, r, true);
      RolesFromLast(total, descs, n, q, true);
      LastsApart(descs, s, r, q);
    }
  }

  lemma {:induction false} LastsApart(descs: seq<Description>, s: State, r: nat, q: nat)
    requires s.Sets? && |s.given| == |descs| && r < |s.cpuSets| && q < |s.cpuSets| && r != q
    requires Apart(s.given) && s.reserved == Union(s.given)
    requires FromLast(descs, s, r, |descs|) && FromLast(descs, s, q, |descs|)
    ensures s.cpuSets[r] !! s.cpuSets[q] && s.cpuSets[r] <= s.reserved
  {
    var n := |descs|;
    if i :| 0 <= i < n && descs[i].role == r && s.cpuSets[r] == s.given[i] {
      InUnion(s.given, i);
      if j :| 0 <= j < n && descs[j].role == q && s.cpuSets[q] == s.given[j] {
        assert i != j;
      }
    }
  }

  /** A printed set with the hexadecimal prefix parses back to the set. */
  lemma {:induction false} StringRoundTrip(total: nat, reserved: set<nat>, cpus: set<nat>, check: bool)
    requires total < WORD && forall c :: c in cpus ==> c < total
    ensures ParseString(total, reserved, HEX_PREFIX + Print(cpus, total), check)
         == if cpus !! reserved then Done(cpus, Reserve(reserved, cpus, check)) else Exit
  {
    var s := HEX_PREFIX + Print(cpus, total);
    assert s[|HEX_PREFIX|..] == Print(cpus, total);
    MaskRoundTrip(total, reserved, cpus, check);
  }

  // --- What a role gets ---------------------------------------------------------------------------------------

  lemma {:induction false} WriteListStarts(entries: seq<Entry>, seps: seq<char>)
    requires IsList(entries, seps)
    ensures var e, s := entries[0], WriteList(entries, seps);
            && Write(e) != "" && Write(e) <= s
            && (|s| > |Write(e)| <==> seps != []) && (seps != [] ==> s[|Write(e)|] == seps[0])
  {
    if seps != [] {
      assert WriteList(entries, seps) == Write(entries[0]) + ([seps[0]] + WriteList(entries[1..], seps[1..]));
    }
  }

  /** A written list is taken for a mask exactly when its first entry is the number 0 and an x follows it. */
  lemma {:induction false} ListLooksLikeMask(entries: seq<Entry>, seps: seq<char>)
    requires IsList(entries, seps)
    ensures HEX_PREFIX <= WriteList(entries, seps) <==> entries[0] == One("0") && seps != [] && seps[0] == 'x'
  {
    var e, s := entries[0], WriteList(entries, seps);
    WriteListStarts(entries, seps);
    var w := Write(e);
    if |w| >= 2 {
      assert s[1] == w[1];
      match e
      case One(n) => assert DigitOf(n[1], 10).Some?;
      case Two(a, b) => assert w[1] == if |a| > 1 then a[1] else '-'; assert |a| > 1 ==> DigitOf(a[1], 10).Some?;
    } else {
      assert e.One? && s[0] == w[0];
    }
  }

  /** A written list that is not taken for a mask is parsed as promised exactly when the list parser does so. */
  lemma {:induction false} StringIsList(total: nat, reserved: set<nat>, entries: seq<Entry>, seps: seq<char>, check: bool)
    requires IsList(entries, seps) && Written(entries) && total < WORD
    requires !(entries[0] == One("0") && seps != [] && seps[0] == 'x')
    ensures ParseString(total, reserved, WriteList(entries, seps), check) == Promised(total, Done({}, reserved), entries, check)
            <==> Small(entries) || RefusedAsRead(total, reserved, entries, check)
  {
    ListLooksLikeMask(entries, seps);
    PromiseOnMachine(total, reserved, entries, seps, check);
  }

  /** A mask of digits with the prefix is parsed to the cpus its digits stand for. */
  lemma {:induction false} StringIsMask(total: nat, reserved: set<nat>, digits: string, check: bool)
    requires AllDigits(digits, 16) && 4 * |digits| <= WORD
    ensures ParseString(total, reserved, HEX_PREFIX + digits, check)
         == Verdict(total, Done({}, reserved), Meaning(digits, 0), check)
  {
    assert (HEX_PREFIX + digits)[|HEX_PREFIX|..] == digits;
    MaskMeaning(total, Done({}, reserved), digits, 0, check);
    Short(digits);
  }

  /** Each description gets what its string is parsed to, with what the ones before it reserved. */
  lemma {:induction false} GivenIs(total: nat, descs: seq<Description>, n: nat, d: nat, forbid: bool)
    requires d < n <= |descs| && forall k :: 0 <= k < |descs| ==> descs[k].role < ROLES
    ensures Assign(total, descs, n, forbid).Sets? ==>
              var was := Assign(total, descs, d, forbid);
              was.Sets? && var r := ParseString(total, was.reserved, descs[d].coreRange, forbid);
                           r.Done? && Assign(total, descs, n, forbid).given[d] == r.cpus
    decreases n
  {
    if d < n - 1 && Assign(total, descs, n, forbid).Sets? {
      GivenIs(total, descs, n - 1, d, forbid);
      assert Assign(total, descs, n, forbid).given[..n - 1] == Assign(total, descs, n - 1, forbid).given;
    }
  }

  /** Without the overlap check nothing is reserved, so every description is parsed on its own. */
  lemma {:induction false} NothingReserved(total: nat, descs: seq<Description>, n: nat)
    requires n <= |descs| && forall d :: 0 <= d < |descs| ==> descs[d].role < ROLES
    ensures var s := Assign(total, descs, n, false); s.Sets? ==> s.reserved == {}
    decreases n
  {
    if n > 0 && Assign(total, descs, n - 1, false).Sets? {
      NothingReserved(total, descs, n - 1);
      UncheckedKeeps(total, {}, descs[n - 1].coreRange);
    }
  }

  lemma {:induction false} UncheckedKeeps(total: nat, reserved: set<nat>, s: string)
    ensures var r := ParseString(total, reserved, s, false); r.Done? ==> r.reserved == reserved
  {
    if HEX_PREFIX <= s {
      var mask := s[|HEX_PREFIX|..];
      UncheckedMask(total, Done({}, reserved), mask[..|mask| % WORD], 0);
    } else {
      UncheckedList(total, Done({}, reserved), s);
    }
  }

  lemma {:induction false} UncheckedMask(total: nat, o: Outcome, s: string, at: nat)
    requires o.Done?
    ensures var r := MaskFrom(total, o, s, at, false); r.Done? ==> r.reserved == o.reserved
    decreases |s|
  {
    if s != "" {
      var chunk := LastChunk(s);
      var next := AddChunk(total, o, chunk, at, false);
      if next.Done? { UncheckedMask(total, next, s[..|s| - |chunk|], NextBase(at)); }
    }
  }

  lemma {:induction false} UncheckedList(total: nat, o: Outcome, s: string)
    requires o.Done?
    ensures var r := ListFrom(total, o, s, false); r.Done? ==> r.reserved == o.reserved
    decreases |s|
  {
    if s != "" {
      var item := ReadItem(s);
      if item.Item? {
        var next := AddRange(total, o, item.lo, item.hi, false);
        if next.Done? { UncheckedList(total, next, item.rest); }
      }
    }
  }

  /** The last description of its role. */
  ghost predicate IsLast(descs: seq<Description>, d: nat)
    requires d < |descs|
  {
    forall e :: d < e < |descs| ==> descs[e].role != descs[d].role
  }

  lemma {:induction false} RoleGetsGiven(total: nat, descs: seq<Description>, d: nat, forbid: bool)
    requires d < |descs| && IsLast(descs, d) && forall k :: 0 <= k < |descs| ==> descs[k].role < ROLES
    ensures var s := Assign(total, descs, |descs|, forbid); s.Sets? ==> s.cpuSets[descs[d].role] == s.given[d]
  {
    var n, s := |descs|, Assign(total, descs, |descs|, forbid);
    if s.Sets? {
      RolesFromLast(total, descs, n, descs[d].role, forbid);
      LastIsGiven(descs, s, d);
    }
  }

  lemma {:induction false} LastIsGiven(descs: seq<Description>, s: State, d: nat)
    requires d < |descs| && IsLast(descs, d) && s.Sets? && |s.given| == |descs| && descs[d].role < |s.cpuSets|
    requires FromLast(descs, s, descs[d].role, |descs|)
    ensures s.cpuSets[descs[d].role] == s.given[d]
  {
    var role := descs[d].role;
    var e :| 0 <= e < |descs| && descs[e].role == role && s.cpuSets[role] == s.given[e]
             && forall k :: e < k < |descs| ==> descs[k].role != role;
    assert !(e < d) && !(d < e);
  }

  /** In every accepted list of descriptions, a role last described by a written list gets exactly the cpus it names. */
  lemma {:induction false} RoleGetsItsList(total: nat, descs: seq<Description>, d: nat, entries: seq<Entry>, seps: seq<char>,
                                           forbid: bool)
    requires d < |descs| && IsLast(descs, d) && forall k :: 0 <= k < |descs| ==> descs[k].role < ROLES
    requires IsList(entries, seps) && Written(entries) && Small(entries) && total < WORD
    requires !(entries[0] == One("0") && seps != [] && seps[0] == 'x') && descs[d].coreRange == WriteList(entries, seps)
    ensures var s := Assign(total, descs, |descs|, forbid);
            s.Sets? ==> s.cpuSets[descs[d].role] == Named(entries) && forall c :: c in Named(entries) ==> c < total
  {
    if Assign(total, descs, |descs|, forbid).Sets? {
      RoleGetsGiven(total, descs, d, forbid);
      GivenIs(total, descs, |descs|, d, forbid);
      var reserved := Assign(total, descs, d, forbid).reserved;
      StringIsList(total, reserved, entries, seps, forbid);
      NamedBelow(total, reserved, entries, forbid);
    }
  }

  lemma {:induction false} NamedBelow(total: nat, reserved: set<nat>, entries: seq<Entry>, check: bool)
    requires Written(entries) && Fits(total, reserved, entries, check)
    ensures forall c :: c in Named(entries) ==> c < total
    decreases |entries|
  {
    if entries != [] {
      NamedBelow(total, Reserve(reserved, Span(From(entries[0]), To(entries[0])), check), entries[1..], check);
    }
  }

  /** And one last described by a mask gets exactly the cpus its digits stand for. */
  lemma {:induction false} RoleGetsItsMask(total: nat, descs: seq<Description>, d: nat, digits: string, forbid: bool)
    requires d < |descs| && IsLast(descs, d) && forall k :: 0 <= k < |descs| ==> descs[k].role < ROLES
    requires AllDigits(digits, 16) && 4 * |digits| <= WORD && descs[d].coreRange == HEX_PREFIX + digits
    ensures var s := Assign(total, descs, |descs|, forbid); s.Sets? ==> s.cpuSets[descs[d].role] == Meaning(digits, 0)
  {
    if Assign(total, descs, |descs|, forbid).Sets? {
      RoleGetsGiven(total, descs, d, forbid);
      GivenIs(total, descs, |descs|, d, forbid);
      StringIsMask(total, Assign(total, descs, d, forbid).reserved, digits, forbid);
    }
  }

  /** The first `n` descriptions are accepted exactly when those before the last are and the last parses after them. */
  lemma {:induction false} AcceptsIff(total: nat, descs: seq<Description>, n: nat, forbid: bool)
    requires n <= |descs| && forall d :: 0 <= d < |descs| ==> descs[d].role < ROLES
    ensures Assign(total, descs, n, forbid).Sets? <==> n == 0 || Parses(total, descs, n - 1, forbid)
  {
  }

  ghost predicate Parses(total: nat, descs: seq<Description>, d: nat, forbid: bool)
    requires d < |descs| && forall k :: 0 <= k < |descs| ==> descs[k].role < ROLES
  {
    var was := Assign(total, descs, d, forbid);
    was.Sets? && ParseString(total, was.reserved, descs[d].coreRange, forbid).Done?
  }

  /** The first description that does not parse decides how it ends. */
  lemma {:induction false} FirstStops(total: nat, descs: seq<Description>, d: nat, forbid: bool)
    requires d < |descs| && forall k :: 0 <= k < |descs| ==> descs[k].role < ROLES
    ensures var was := Assign(total, descs, d, forbid);
            was.Sets? && !Parses(total, descs, d, forbid) ==>
              Assign(total, descs, |descs|, forbid)
              == Stopped(ParseString(total, was.reserved, descs[d].coreRange, forbid))
  {
    StopStep(total, descs, d, forbid);
    StaysStopped(total, descs, d + 1, forbid);
  }

  lemma {:induction false} StopStep(total: nat, descs: seq<Description>, d: nat, forbid: bool)
    requires d < |descs| && forall k :: 0 <= k < |descs| ==> descs[k].role < ROLES
    ensures var was := Assign(total, descs, d, forbid);
            was.Sets? && !Parses(total, descs, d, forbid) ==>
              Assign(total, descs, d + 1, forbid) == Stopped(ParseString(total, was.reserved, descs[d].coreRange, forbid))
  {
    var was := Assign(total, descs, d, forbid);
    if was.Sets? { assert Assign(total, descs, d + 1, forbid) == Next(total, was, descs[d], forbid); }
  }
}
