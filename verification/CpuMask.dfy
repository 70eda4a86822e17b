/** CPU sets written as hexadecimal masks: the printer, the parser that reads 16 digits at a time, and their round trip. */
module CpuMask {
  import opened Options
  import opened Numerals

  const MAX_PROCESSABLE_CHAR := 16
  const BITS_PER_UINT64 := 64
  const NIBBLE_BIT_COUNT := 4
  const WORD := 0x1_0000_0000

  /** A parser returns the set and the new overlap set, ends the process, throws, or never returns. */
  datatype Outcome = Done(cpus: set<nat>, reserved: set<nat>) | Exit | Throw | Hang

  // --- Parsing ------------------------------------------------------------------------------------------------

  /** The bits of `mask` from the lowest of `n` on, as the cpus `at`, `at + 1` and so on. */
  function Bits(mask: nat, at: nat, n: nat): (r: set<nat>)
    decreases n, mask, at
  {
    if n == 0 then {} else (if mask % 2 != 0 then {at} else {}) + Bits(mask / 2, at + 1, n - 1)
  }

  /** A mask may use cpus that are not reserved and not above the core count. */
  predicate Admits(total: nat, reserved: set<nat>, cpus: set<nat>) {
    cpus !! reserved && forall c :: c in cpus ==> c <= total
  }

  function Reserve(reserved: set<nat>, cpus: set<nat>, check: bool): (r: set<nat>) {
    if check then reserved + cpus else reserved
  }

  function LastChunk(s: string): (r: string)
    requires s != ""
    ensures 0 < |r| <= |s| && r == s[|s| - |r|..]
  {
    s[|s| - (if |s| < MAX_PROCESSABLE_CHAR then |s| else MAX_PROCESSABLE_CHAR)..]
  }

  /** The cpu number of the next chunk's lowest bit, in 32 bits. */
  function NextBase(at: nat): (r: nat) {
    if at + BITS_PER_UINT64 < WORD then at + BITS_PER_UINT64 else at + BITS_PER_UINT64 - WORD
  }

  lemma {:induction false} NextBaseIs(at: nat)
    requires at < WORD
    ensures NextBase(at) == (at + BITS_PER_UINT64) % WORD
  {
  }

  /** Adding the cpus of a mask, if all of them may be used. */
  function Verdict(total: nat, o: Outcome, cpus: set<nat>, check: bool): (r: Outcome)
    requires o.Done?
  {
    if Admits(total, o.reserved, cpus) then Done(o.cpus + cpus, Reserve(o.reserved, cpus, check)) else Exit
  }

  function AddChunk(total: nat, o: Outcome, chunk: string, at: nat, check: bool): (r: Outcome)
    requires o.Done?
  {
    match Read(chunk, 16)
    case NoDigits => Throw
    case TooBig => Throw
    case Number(mask, _) => Verdict(total, o, Bits(mask, at, BITS_PER_UINT64), check)
  }

  /** Parsing what is left of a mask whose last digit stands for the four cpus from `at` on. */
  function MaskFrom(total: nat, o: Outcome, s: string, at: nat, check: bool): (r: Outcome)
    requires o.Done?
    decreases |s|
  {
    if s == "" then o
    else
      var chunk := LastChunk(s);
      var next := AddChunk(total, o, chunk, at, check);
      if next.Done? then MaskFrom(total, next, s[..|s| - |chunk|], NextBase(at), check) else next
  }

  /** String sizes are kept in 32 bits, so the parser sees that many characters, and reads nothing if there are none. */
  function ParseMask(total: nat, reserved: set<nat>, s: string, check: bool): (r: Outcome) {
    var seen := s[..|s| % WORD];
    if s != "" && seen == "" then Throw else MaskFrom(total, Done({}, reserved), seen, 0, check)
  }

  // --- What a string of hexadecimal digits means ------------------------------------------------------------

  /** The cpus a string of digits stands for: the last digit gives the four cpus from `at` on. */
  ghost function Meaning(s: string, at: nat): (r: set<nat>)
    requires AllDigits(s, 16)
    decreases |s|
  {
    if s == "" then {}
    else Bits(DigitOf(s[|s| - 1], 16).value, at, NIBBLE_BIT_COUNT)
         + Meaning(s[..|s| - 1], at + NIBBLE_BIT_COUNT)
  }

  lemma {:induction false} NoBits(at: nat, n: nat)
    ensures Bits(0, at, n) == {}
    decreases n
  {
    if n > 0 { NoBits(at + 1, n - 1); }
  }

  function Shifted(x: nat, k: nat): (r: nat) { if k == 0 then x else 2 * Shifted(x, k - 1) }

  /** The lowest `k` bits of a number come before those above them. */
  lemma {:induction false} BitsSplit(low: nat, high: nat, k: nat, at: nat, n: nat)
    requires low < Shifted(1, k) && k <= n
    ensures Bits(Shifted(high, k) + low, at, n) == Bits(low, at, k) + Bits(high, at + k, n - k)
    decreases k
  {
    if k > 0 {
      var h := Shifted(high, k - 1);
      Halves(h, low);
      BitsSplit(low / 2, high, k - 1, at + 1, n - 1);
    }
  }

  lemma {:induction false} Halves(h: nat, low: nat)
    ensures (2 * h + low) % 2 == low % 2 && (2 * h + low) / 2 == h + low / 2
  {
  }

  lemma {:induction false} BitsOfDigit(digit: nat, rest: nat, at: nat, n: nat)
    requires digit < 16 && n >= 4
    ensures Bits(rest * 16 + digit, at, n) == Bits(digit, at, 4) + Bits(rest, at + 4, n - 4)
  {
    assert Shifted(rest, 1) == 2 * rest && Shifted(rest, 2) == 4 * rest && Shifted(rest, 3) == 8 * rest;
    assert Shifted(1, 1) == 2 && Shifted(1, 2) == 4 && Shifted(1, 3) == 8;
    BitsSplit(digit, rest, 4, at, n);
  }

  /** Bit `k` of a number: its lowest bit after `k` shifts to the right. */
  predicate IsBitSet(mask: nat, k: nat)
    decreases k
  {
    if k == 0 then mask % 2 == 1 else IsBitSet(mask / 2, k - 1)
  }

  /** A cpu is taken exactly when its bit is set. */
  lemma {:induction false} BitsAre(mask: nat, at: nat, n: nat, c: nat)
    ensures c in Bits(mask, at, n) <==> at <= c < at + n && IsBitSet(mask, c - at)
    decreases n
  {
    if n > 0 {
      BitsAre(mask / 2, at + 1, n - 1, c);
      BitsRange(mask / 2, at + 1, n - 1);
    }
  }

  /** A chunk of at most 16 digits, read as one number, has the bits its digits stand for. */
  lemma {:induction false} ChunkMeaning(s: string, at: nat, n: nat)
    requires AllDigits(s, 16) && 4 * |s| <= n
    ensures Bits(Value(s, 16), at, n) == Meaning(s, at)
    decreases |s|
  {
    if s == "" {
      NoBits(at, n);
    } else {
      var front, digit := s[..|s| - 1], DigitOf(s[|s| - 1], 16).value;
      ChunkMeaning(front, at + 4, n - 4);
      BitsOfDigit(digit, Value(front, 16), at, n);
    }
  }

  lemma {:induction false} BitsRange(mask: nat, at: nat, n: nat)
    ensures forall c :: c in Bits(mask, at, n) ==> at <= c < at + n
    decreases n
  {
    if n > 0 { BitsRange(mask / 2, at + 1, n - 1); }
  }

  lemma {:induction false} MeaningRange(s: string, at: nat)
    requires AllDigits(s, 16)
    ensures forall c :: c in Meaning(s, at) ==> at <= c < at + 4 * |s|
    decreases |s|
  {
    if s != "" {
      BitsRange(DigitOf(s[|s| - 1], 16).value, at, NIBBLE_BIT_COUNT);
      MeaningRange(s[..|s| - 1], at + NIBBLE_BIT_COUNT);
    }
  }

  lemma {:induction false} MeaningSplits(s: string, t: string, at: nat)
    requires AllDigits(s, 16) && AllDigits(t, 16)
    ensures AllDigits(s + t, 16) && Meaning(s + t, at) == Meaning(t, at) + Meaning(s, at + 4 * |t|)
    decreases |t|
  {
    if t == "" {
      assert s + t == s;
    } else {
      var front := t[..|t| - 1];
      MeaningSplits(s, front, at + 4);
      assert (s + t)[..|s + t| - 1] == s + front;
    }
  }

  lemma {:induction false} SixteenFit(s: string)
    requires AllDigits(s, 16) && |s| <= 16
    ensures Value(s, 16) < LONG
  {
    ValueBelow(s);
    PowerGrows(|s|);
  }

  function Power16(n: nat): (r: nat) { if n == 0 then 1 else 16 * Power16(n - 1) }

  lemma {:induction false} ValueBelow(s: string)
    requires AllDigits(s, 16)
    ensures Value(s, 16) < Power16(|s|)
  {
    if s != "" { ValueBelow(s[..|s| - 1]); }
  }

  lemma {:induction false} PowerGrows(n: nat)
    requires n <= 16
    ensures Power16(n) <= LONG
    decreases 16 - n
  {
    if n == 16 {
      assert Power16(4) == 0x1_0000;
      assert Power16(8) == 0x1_0000_0000;
      assert Power16(12) == 0x1_0000_0000_0000;
      assert Power16(16) == LONG;
    } else {
      PowerGrows(n + 1);
    }
  }

  /**
    Every string of hexadecimal digits whose cpus have 32-bit numbers is parsed to the cpus its digits stand
    for, unless one of them is reserved or above the core count.
   */
  lemma {:induction false} MaskMeaning(total: nat, o: Outcome, s: string, at: nat, check: bool)
    requires o.Done? && AllDigits(s, 16) && at + 4 * |s| <= WORD
    ensures MaskFrom(total, o, s, at, check) == Verdict(total, o, Meaning(s, at), check)
    decreases |s|
  {
    if s != "" {
      var chunk := LastChunk(s);
      var rest := s[..|s| - |chunk|];
      var bits := Meaning(chunk, at);
      ReadChunk(chunk, at);
      assert AddChunk(total, o, chunk, at, check) == Verdict(total, o, bits, check);
      if rest == "" {
        assert s == chunk;
      } else {
        assert s == rest + chunk && NextBase(at) == at + BITS_PER_UINT64;
        MeaningSplits(rest, chunk, at);
        if Admits(total, o.reserved, bits) {
          MaskMeaning(total, Done(o.cpus + bits, Reserve(o.reserved, bits, check)), rest, at + BITS_PER_UINT64, check);
        }
        JoinChunks(total, o, rest, chunk, at, check);
      }
    }
  }

  lemma {:induction false} JoinChunks(total: nat, o: Outcome, rest: string, chunk: string, at: nat, check: bool)
    requires o.Done? && AllDigits(rest, 16) && AllDigits(chunk, 16) && |chunk| <= 16
    requires rest != "" ==> |chunk| == 16
    ensures var low, high := Meaning(chunk, at), Meaning(rest, at + BITS_PER_UINT64);
            Meaning(rest, at + 4 * |chunk|) == high
            && Verdict(total, o, low + high, check)
            == if Admits(total, o.reserved, low)
               then Verdict(total, Done(o.cpus + low, Reserve(o.reserved, low, check)), high, check)
               else Exit
  {
    var low, high := Meaning(chunk, at), Meaning(rest, at + BITS_PER_UINT64);
    MeaningRange(chunk, at);
    MeaningRange(rest, at + BITS_PER_UINT64);
    AdmitsBoth(total, o.reserved, low, high, check);
    assert o.cpus + (low + high) == (o.cpus + low) + high;
  }

  lemma {:induction false} AdmitsBoth(total: nat, reserved: set<nat>, low: set<nat>, high: set<nat>, check: bool)
    requires low !! high
    ensures Admits(total, reserved, low + high) <==>
            Admits(total, reserved, low) && Admits(total, Reserve(reserved, low, check), high)
    ensures Reserve(Reserve(reserved, low, check), high, check) == Reserve(reserved, low + high, check)
  {
    assert reserved + low + high == reserved + (low + high);
  }

  lemma {:induction false} ReadChunk(chunk: string, at: nat)
    requires AllDigits(chunk, 16) && 0 < |chunk| <= MAX_PROCESSABLE_CHAR
    ensures Read(chunk, 16) == Number(Value(chunk, 16), |chunk|)
    ensures Bits(Value(chunk, 16), at, BITS_PER_UINT64) == Meaning(chunk, at)
  {
    assert chunk[..|chunk|] == chunk;
    ReadDigits(chunk, 16, |chunk|);
    SixteenFit(chunk);
    ChunkMeaning(chunk, at, BITS_PER_UINT64);
  }

  // --- Printing -----------------------------------------------------------------------------------------------

  /** The number made of the cpus `at`, `at + 1`, up to `n` of them, lowest bit first. */
  function Nibble(cpus: set<nat>, at: nat, n: nat): (r: nat) {
    if n == 0 then 0 else Nibble(cpus, at, n - 1) + if at + n - 1 in cpus then Shifted(1, n - 1) else 0
  }

  lemma {:induction false} NibbleBound(cpus: set<nat>, at: nat, n: nat)
    ensures Nibble(cpus, at, n) < Shifted(1, n)
  {
    if n > 0 { NibbleBound(cpus, at, n - 1); }
  }

  /** How many of the four cpus of digit `k` exist. */
  function Width(total: nat, k: nat): (r: nat) {
    if total <= 4 * k then 0 else if total - 4 * k < 4 then total - 4 * k else 4
  }

  function Digit(cpus: set<nat>, total: nat, k: nat): (c: char)
    ensures DigitOf(c, 16).Some?
  {
    NibbleBound(cpus, 4 * k, Width(total, k));
    FourBits();
    HexDigit(Nibble(cpus, 4 * k, Width(total, k)))
  }

  lemma {:induction false} FourBits()
    ensures Shifted(1, 0) == 1 && Shifted(1, 1) == 2 && Shifted(1, 2) == 4 && Shifted(1, 3) == 8 && Shifted(1, 4) == 16
  {
    assert Shifted(1, 1) == 2 && Shifted(1, 2) == 4 && Shifted(1, 3) == 8;
  }

  /** The digits of a mask, the lowest first: one for every four cpus and one more. */
  function Digits(cpus: set<nat>, total: nat): (s: string) {
    seq(total / 4 + 1, (k: nat) => Digit(cpus, total, k))
  }

  function Reversed(s: string): (r: string) {
    seq(|s|, (i: nat) requires i < |s| => s[|s| - 1 - i])
  }

  function Print(cpus: set<nat>, total: nat): (s: string)
    ensures AllDigits(s, 16) && 4 * |s| > total >= 4 * (|s| - 1)
  {
    Reversed(Digits(cpus, total))
  }

  method GetCPUSetString(cpus: set<nat>, total: nat) returns (s: string)
    ensures s == Print(cpus, total)
  {
    var digits, nibble := "", 0;
    for cpu := 0 to total
      invariant |digits| == cpu / 4 && digits <= Digits(cpus, total)
      invariant nibble == Nibble(cpus, 4 * (cpu / 4), cpu % 4)
    {
      var k, bit := cpu / 4, cpu % 4;
      NextCpu(cpu);
      if cpu in cpus { nibble := nibble + Shifted(1, bit); }
      if bit == NIBBLE_BIT_COUNT - 1 {
        AddDigit(cpus, total, k, bit + 1);
        digits := digits + [HexDigit(nibble)];
        nibble := 0;
      }
    }
    AddDigit(cpus, total, total / 4, total % 4);
    digits := digits + [HexDigit(nibble)];
    s := Reversed(digits);
  }

  lemma {:induction false} NextCpu(cpu: nat)
    ensures cpu == 4 * (cpu / 4) + cpu % 4
    ensures cpu % 4 == 3 ==> (cpu + 1) / 4 == cpu / 4 + 1 && (cpu + 1) % 4 == 0
    ensures cpu % 4 != 3 ==> (cpu + 1) / 4 == cpu / 4 && (cpu + 1) % 4 == cpu % 4 + 1
  {
  }

  lemma {:induction false} AddDigit(cpus: set<nat>, total: nat, k: nat, n: nat)
    requires k <= total / 4 && n == if k < total / 4 then 4 else total % 4
    ensures Nibble(cpus, 4 * k, n) < 16
    ensures Digits(cpus, total)[..k] + [HexDigit(Nibble(cpus, 4 * k, n))] == Digits(cpus, total)[..k + 1]
  {
    assert Width(total, k) == n;
    NibbleBound(cpus, 4 * k, n);
    FourBits();
    assert Digits(cpus, total)[k] == Digit(cpus, total, k);
  }

  // --- The round trip -----------------------------------------------------------------------------------------

  ghost function Between(cpus: set<nat>, lo: nat, hi: nat): (r: set<nat>) {
    set c | c in cpus && lo <= c < hi
  }

  lemma {:induction false} ZeroShifted(k: nat)
    ensures Shifted(0, k) == 0
  {
    if k > 0 { ZeroShifted(k - 1); }
  }

  lemma {:induction false} NibbleBits(cpus: set<nat>, at: nat, n: nat, m: nat)
    requires n <= m
    ensures Bits(Nibble(cpus, at, n), at, m) == Between(cpus, at, at + n)
    decreases n
  {
    if n == 0 {
      NoBits(at, m);
    } else {
      var low := Nibble(cpus, at, n - 1);
      var bit := if at + n - 1 in cpus then 1 else 0;
      NibbleBits(cpus, at, n - 1, n - 1);
      NibbleBound(cpus, at, n - 1);
      ZeroShifted(n - 1);
      BitsSplit(low, bit, n - 1, at, m);
      NoBits(at + n, m - n);
      NoBits(at + n - 1, m - n + 1);
      assert Bits(bit, at + n - 1, m - n + 1) == if bit == 1 then {at + n - 1} else {};
    }
  }

  /** Without its lowest `k` digits the printed mask means the cpus from `4 * k` on. */
  lemma {:induction false} PrintedMeaning(cpus: set<nat>, total: nat, k: nat)
    requires k <= total / 4 + 1
    ensures var p := Print(cpus, total);
            AllDigits(p[..|p| - k], 16) && Meaning(p[..|p| - k], 4 * k) == Between(cpus, 4 * k, total)
    decreases total / 4 + 1 - k
  {
    var p := Print(cpus, total);
    if k < |p| {
      PrintedMeaning(cpus, total, k + 1);
      var s := p[..|p| - k];
      assert s[|s| - 1] == Digit(cpus, total, k);
      assert s[..|s| - 1] == p[..|p| - (k + 1)];
      NibbleBits(cpus, 4 * k, Width(total, k), NIBBLE_BIT_COUNT);
    }
  }

  lemma {:induction false} Short(s: string)
    requires |s| < WORD
    ensures s[..|s| % WORD] == s
  {
    assert |s| % WORD == |s|;
  }

  /** A mask of digits is refused exactly when one of its cpus is reserved or above the core count. */
  lemma {:induction false} MaskRefusesIff(total: nat, reserved: set<nat>, s: string, check: bool)
    requires AllDigits(s, 16) && 4 * |s| <= WORD
    ensures var r := ParseMask(total, reserved, s, check);
            if exists c :: c in Meaning(s, 0) && (c in reserved || c > total) then r == Exit
            else r.Done? && r.cpus == Meaning(s, 0) && r.reserved == if check then reserved + Meaning(s, 0) else reserved
  {
    MaskMeaning(total, Done({}, reserved), s, 0, check);
    Short(s);
    assert {} + Meaning(s, 0) == Meaning(s, 0);
  }

  /** What the parser of a machine with `total` cores makes of a set printed for `width` cores. */
  lemma {:induction false} PrintedParse(total: nat, width: nat, reserved: set<nat>, cpus: set<nat>, check: bool)
    requires width < WORD
    ensures ParseMask(total, reserved, Print(cpus, width), check)
         == Verdict(total, Done({}, reserved), Between(cpus, 0, width), check)
  {
    var p := Print(cpus, width);
    PrintedMeaning(cpus, width, 0);
    assert p[..|p|] == p;
    MaskMeaning(total, Done({}, reserved), p, 0, check);
    Short(p);
  }

  /** Printing a set of cpus and parsing the mask gives the set back, for every core count and every set of cores. */
  lemma {:induction false} MaskRoundTrip(total: nat, reserved: set<nat>, cpus: set<nat>, check: bool)
    requires total < WORD && forall c :: c in cpus ==> c < total
    ensures ParseMask(total, reserved, Print(cpus, total), check)
         == if cpus !! reserved then Done(cpus, Reserve(reserved, cpus, check)) else Exit
  {
    PrintedParse(total, total, reserved, cpus, check);
    assert Between(cpus, 0, total) == cpus && {} + cpus == cpus;
  }

  /** A mask may name one cpu too many: the parser takes the cpu whose number is the core count. */
  lemma {:induction false} MaskTakesOneTooMany(total: nat, check: bool)
    requires total + 1 < WORD
    ensures ParseMask(total, {}, Print({total}, total + 1), check) == Done({total}, Reserve({}, {total}, check))
  {
    PrintedParse(total, total + 1, {}, {total}, check);
    assert Between({total}, 0, total + 1) == {total} && {} + {total} == {total};
  }
}
