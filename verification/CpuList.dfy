/** CPU sets written as lists of numbers and ranges, such as "0-3,8". */
module CpuList {
  import opened Options
  import opened Numerals
  import opened CpuMask

  function Span(lo: nat, hi: nat): (r: set<nat>)
    ensures forall c: nat :: c in r <==> lo <= c <= hi
    decreases hi
  {
    if hi < lo then {} else if hi == 0 then {0} else Span(lo, hi - 1) + {hi}
  }

  /** Adding one range; the 32-bit loop counter never passes the largest 32-bit number. */
  function AddRange(total: nat, o: Outcome, lo: nat, hi: nat, check: bool): (r: Outcome)
    requires o.Done?
  {
    if hi == WORD - 1 then Hang
    else if hi >= total || !(Span(lo, hi) !! o.reserved) then Exit
    else Done(o.cpus + Span(lo, hi), Reserve(o.reserved, Span(lo, hi), check))
  }

  /** The 32-bit loop counter after `k` steps. */
  function Counter(lo: nat, k: nat): (r: nat) { (lo + k) % WORD }

  /** The counting loop ends exactly when its bound is not the largest 32-bit number. */
  lemma {:induction false} LoopEnds(lo: nat, hi: nat)
    requires lo < WORD && hi < WORD
    ensures hi < WORD - 1 <==> exists k :: Counter(lo, k) > hi
  {
    if hi < WORD - 1 {
      var k: nat := if lo <= hi then hi + 1 - lo else 0;
      assert Counter(lo, k) > hi;
    }
  }

  /** One item at the front of the string: its bounds and the rest after its separator. */
  datatype Item = Bad | Item(lo: nat, hi: nat, rest: string)

  function Rest(s: string, used: nat): (r: string)
    requires used <= |s|
  {
    if used == |s| then "" else s[used + 1..]
  }

  function ReadItem(s: string): (r: Item)
    requires s != ""
    ensures r.Item? ==> r.lo < WORD && r.hi < WORD && |r.rest| < |s|
  {
    match Read(s, 10)
    case NoDigits => Bad
    case TooBig => Bad
    case Number(v, used) =>
      if used < |s| && s[used] == '-' then ReadUpper(v % WORD, s[used + 1..])
      else Item(v % WORD, v % WORD, Rest(s, used))
  }

  /** The second bound of a range, after the minus sign. */
  function ReadUpper(lo: nat, s: string): (r: Item)
    requires lo < WORD
    ensures r.Item? ==> r.lo == lo && r.hi < WORD && |r.rest| <= |s|
  {
    match Read(s, 10)
    case NoDigits => Bad
    case TooBig => Bad
    case Number(v, used) => Item(lo, v % WORD, Rest(s, used))
  }

  function ListFrom(total: nat, o: Outcome, s: string, check: bool): (r: Outcome)
    requires o.Done?
    decreases |s|
  {
    if s == "" then o
    else
      match ReadItem(s)
      case Bad => Throw
      case Item(lo, hi, rest) =>
        var next := AddRange(total, o, lo, hi, check);
        if next.Done? then ListFrom(total, next, rest, check) else next
  }

  function ParseList(total: nat, reserved: set<nat>, s: string, check: bool): (r: Outcome) {
    ListFrom(total, Done({}, reserved), s, check)
  }

  // --- What a written list means ------------------------------------------------------------------------------

  /** An entry of a list as it is written: a number, or two numbers joined by a minus sign. */
  datatype Entry = One(n: string) | Two(a: string, b: string)

  predicate IsNumber(n: string) { n != "" && AllDigits(n, 10) }

  predicate IsEntry(e: Entry) {
    match e
    case One(n) => IsNumber(n)
    case Two(a, b) => IsNumber(a) && IsNumber(b)
  }

  function Write(e: Entry): (s: string) {
    match e
    case One(n) => n
    case Two(a, b) => a + "-" + b
  }

  function From(e: Entry): (r: nat)
    requires IsEntry(e)
  {
    Value(if e.One? then e.n else e.a, 10)
  }

  function To(e: Entry): (r: nat)
    requires IsEntry(e)
  {
    Value(if e.One? then e.n else e.b, 10)
  }

  /** Any character that is not a digit separates; a minus sign separates only after a range. */
  predicate IsSeparator(e: Entry, sep: char) { DigitOf(sep, 10).None? && (e.One? ==> sep != '-') }

  predicate IsList(entries: seq<Entry>, seps: seq<char>) {
    && |entries| == |seps| + 1
    && (forall i :: 0 <= i < |entries| ==> IsEntry(entries[i]))
    && forall i :: 0 <= i < |seps| ==> IsSeparator(entries[i], seps[i])
  }

  function WriteList(entries: seq<Entry>, seps: seq<char>): (s: string)
    requires |entries| == |seps| + 1
  {
    if seps == [] then Write(entries[0])
    else Write(entries[0]) + [seps[0]] + WriteList(entries[1..], seps[1..])
  }

  /** What a list of entries comes to: numbers of 64 bits or more throw, the others are cut to 32 bits. */
  ghost function Evaluate(total: nat, o: Outcome, entries: seq<Entry>, check: bool): (r: Outcome)
    requires o.Done? && forall i :: 0 <= i < |entries| ==> IsEntry(entries[i])
    decreases |entries|
  {
    if entries == [] then o
    else if From(entries[0]) >= LONG || To(entries[0]) >= LONG then Throw
    else
      var next := AddRange(total, o, From(entries[0]) % WORD, To(entries[0]) % WORD, check);
      if !next.Done? then next else Evaluate(total, next, entries[1..], check)
  }

  lemma {:induction false} ReadNumber(n: string, rest: string)
    requires IsNumber(n) && (rest != "" ==> DigitOf(rest[0], 10).None?)
    ensures Read(n + rest, 10) == if Value(n, 10) >= LONG then TooBig else Number(Value(n, 10), |n|)
  {
    assert (n + rest)[..|n|] == n;
    ReadDigits(n + rest, 10, |n|);
  }

  function Found(e: Entry, rest: string): (r: Item)
    requires IsEntry(e)
  {
    if From(e) >= LONG || To(e) >= LONG then Bad else Item(From(e) % WORD, To(e) % WORD, Rest(rest, 0))
  }

  lemma {:induction false} RestAfter(n: string, rest: string)
    ensures Rest(n + rest, |n|) == Rest(rest, 0)
  {
  }

  lemma {:induction false} ReadOne(n: string, rest: string)
    requires IsNumber(n) && (rest != "" ==> IsSeparator(One(n), rest[0]))
    ensures ReadItem(n + rest) == Found(One(n), rest)
  {
    ReadNumber(n, rest);
    RestAfter(n, rest);
    assert rest != "" ==> (n + rest)[|n|] == rest[0];
  }

  lemma {:induction false} ReadTwo(a: string, b: string, rest: string)
    requires IsNumber(a) && IsNumber(b) && (rest != "" ==> IsSeparator(Two(a, b), rest[0]))
    ensures ReadItem(a + ("-" + (b + rest))) == Found(Two(a, b), rest)
  {
    ReadFirst(a, b + rest);
    ReadSecond(Value(a, 10) % WORD, b, rest);
  }

  lemma {:induction false} ReadFirst(a: string, upper: string)
    requires IsNumber(a)
    ensures ReadItem(a + ("-" + upper)) == if Value(a, 10) >= LONG then Bad else ReadUpper(Value(a, 10) % WORD, upper)
  {
    var tail := "-" + upper;
    ReadNumber(a, tail);
    assert (a + tail)[|a|] == '-' && (a + tail)[|a| + 1..] == upper;
  }

  lemma {:induction false} ReadSecond(lo: nat, b: string, rest: string)
    requires lo < WORD && IsNumber(b) && (rest != "" ==> DigitOf(rest[0], 10).None?)
    ensures ReadUpper(lo, b + rest)
         == if Value(b, 10) >= LONG then Bad else Item(lo, Value(b, 10) % WORD, Rest(rest, 0))
  {
    ReadNumber(b, rest);
    RestAfter(b, rest);
  }

  /** Reading the front of a written list finds the first entry and the rest after its separator. */
  lemma {:induction false} ReadEntry(e: Entry, rest: string)
    requires IsEntry(e) && (rest != "" ==> IsSeparator(e, rest[0]))
    ensures Write(e) + rest != "" && ReadItem(Write(e) + rest) == Found(e, rest)
  {
    match e
    case One(n) => ReadOne(n, rest);
    case Two(a, b) =>
      assert Write(e) + rest == a + ("-" + (b + rest));
      ReadTwo(a, b, rest);
  }

  lemma {:induction false} ListStep(total: nat, o: Outcome, e: Entry, rest: string, check: bool)
    requires o.Done? && IsEntry(e) && (rest != "" ==> IsSeparator(e, rest[0]))
    ensures var next := AddRange(total, o, From(e) % WORD, To(e) % WORD, check);
            ListFrom(total, o, Write(e) + rest, check)
            == if From(e) >= LONG || To(e) >= LONG then Throw
               else if next.Done? then ListFrom(total, next, Rest(rest, 0), check)
               else next
  {
    ReadEntry(e, rest);
  }

  /** Every written list is parsed to what its entries come to. */
  lemma {:induction false} ListMeaning(total: nat, o: Outcome, entries: seq<Entry>, seps: seq<char>, check: bool)
    requires o.Done? && IsList(entries, seps)
    ensures ListFrom(total, o, WriteList(entries, seps), check) == Evaluate(total, o, entries, check)
    decreases |seps|
  {
    var e := entries[0];
    var next := AddRange(total, o, From(e) % WORD, To(e) % WORD, check);
    if seps == [] {
      ListStep(total, o, e, "", check);
      assert Write(e) + "" == Write(e);
      assert entries[1..] == [];
    } else {
      var more := WriteList(entries[1..], seps[1..]);
      var rest := [seps[0]] + more;
      assert WriteList(entries, seps) == Write(e) + rest;
      ListStep(total, o, e, rest, check);
      assert Rest(rest, 0) == more;
      if From(e) < LONG && To(e) < LONG && next.Done? {
        ListMeaning(total, next, entries[1..], seps[1..], check);
      }
    }
  }

  // --- When a list means what it says ----------------------------------------------------------------------

  ghost predicate Written(entries: seq<Entry>) {
    forall i :: 0 <= i < |entries| ==> IsEntry(entries[i]) && From(entries[i]) <= To(entries[i])
  }

  /** The cpus named by the list. */
  ghost function Named(entries: seq<Entry>): (r: set<nat>)
    requires Written(entries)
  {
    if entries == [] then {} else Span(From(entries[0]), To(entries[0])) + Named(entries[1..])
  }

  /** Every range stays below the core count and clear of what is reserved before it. */
  ghost predicate Fits(total: nat, reserved: set<nat>, entries: seq<Entry>, check: bool)
    requires Written(entries)
    decreases |entries|
  {
    entries != [] ==>
      var span := Span(From(entries[0]), To(entries[0]));
      To(entries[0]) < total && span !! reserved && Fits(total, Reserve(reserved, span, check), entries[1..], check)
  }

  /** The promised result: the named cpus when every range fits, and a refusal otherwise. */
  ghost function Promised(total: nat, o: Outcome, entries: seq<Entry>, check: bool): (r: Outcome)
    requires o.Done? && Written(entries)
  {
    if Fits(total, o.reserved, entries, check)
    then Done(o.cpus + Named(entries), Reserve(o.reserved, Named(entries), check))
    else Exit
  }

  ghost predicate Small(entries: seq<Entry>)
    requires Written(entries)
  {
    forall i :: 0 <= i < |entries| ==> To(entries[i]) < WORD - 1
  }

  /** Lists of numbers below 2^32 - 1 are parsed as promised. */
  lemma {:induction false} SmallKeepsPromise(total: nat, o: Outcome, entries: seq<Entry>, check: bool)
    requires o.Done? && Written(entries) && Small(entries)
    ensures Evaluate(total, o, entries, check) == Promised(total, o, entries, check)
    decreases |entries|
  {
    if entries == [] {
      assert o.cpus + {} == o.cpus && o.reserved + {} == o.reserved;
    } else {
      var lo, hi := From(entries[0]), To(entries[0]);
      assert lo % WORD == lo && hi % WORD == hi;
      var span, rest := Span(lo, hi), entries[1..];
      var next := AddRange(total, o, lo, hi, check);
      if next.Done? {
        SmallKeepsPromise(total, next, rest, check);
        assert o.cpus + (span + Named(rest)) == (o.cpus + span) + Named(rest);
        assert o.reserved + (span + Named(rest)) == (o.reserved + span) + Named(rest);
      }
    }
  }

  /** Without reservations and with the largest core count, no list is ever refused. */
  lemma {:induction false} NeverExits(o: Outcome, entries: seq<Entry>)
    requires o.Done? && o.reserved == {} && Written(entries)
    ensures Evaluate(WORD - 1, o, entries, false) != Exit
    decreases |entries|
  {
    if entries != [] && From(entries[0]) < LONG && To(entries[0]) < LONG {
      var next := AddRange(WORD - 1, o, From(entries[0]) % WORD, To(entries[0]) % WORD, false);
      if next.Done? { NeverExits(next, entries[1..]); }
    }
  }

  lemma {:induction false} FitsIsSmall(total: nat, reserved: set<nat>, entries: seq<Entry>, check: bool)
    requires Written(entries) && total < WORD && Fits(total, reserved, entries, check)
    ensures Small(entries)
    decreases |entries|
  {
    if entries != [] {
      var span := Span(From(entries[0]), To(entries[0]));
      FitsIsSmall(total, Reserve(reserved, span, check), entries[1..], check);
      forall i | 0 <= i < |entries| ensures To(entries[i]) < WORD - 1 {
        assert i > 0 ==> entries[i] == entries[1..][i - 1];
      }
    }
  }

  /** A list is parsed as promised on every machine exactly when all its numbers are below 2^32 - 1. */
  lemma {:induction false} PromiseIffSmall(entries: seq<Entry>, seps: seq<char>)
    requires IsList(entries, seps) && Written(entries)
    ensures Small(entries) <==>
            forall total: nat, reserved: set<nat>, check: bool | total < WORD ::
              ParseList(total, reserved, WriteList(entries, seps), check)
              == Promised(total, Done({}, reserved), entries, check)
  {
    var s := WriteList(entries, seps);
    if Small(entries) {
      forall total: nat, reserved: set<nat>, check: bool | total < WORD
        ensures ParseList(total, reserved, s, check) == Promised(total, Done({}, reserved), entries, check)
      {
        ListMeaning(total, Done({}, reserved), entries, seps, check);
        SmallKeepsPromise(total, Done({}, reserved), entries, check);
      }
    } else {
      ListMeaning(WORD - 1, Done({}, {}), entries, seps, false);
      NeverExits(Done({}, {}), entries);
      if Fits(WORD - 1, {}, entries, false) { FitsIsSmall(WORD - 1, {}, entries, false); }
      assert ParseList(WORD - 1, {}, s, false) != Promised(WORD - 1, Done({}, {}), entries, false);
    }
  }

  /**
    As the numbers are read, cut to 32 bits, some range does not fit, and nothing before it is too long to
    read, endless, or unfit.
   */
  ghost predicate RefusedAsRead(total: nat, reserved: set<nat>, entries: seq<Entry>, check: bool)
    requires Written(entries)
    decreases |entries|
  {
    && entries != [] && To(entries[0]) < LONG
    && var lo, hi := From(entries[0]) % WORD, To(entries[0]) % WORD;
       && hi != WORD - 1
       && (hi >= total || !(Span(lo, hi) !! reserved)
           || RefusedAsRead(total, Reserve(reserved, Span(lo, hi), check), entries[1..], check))
  }

  lemma {:induction false} RefusedIsExit(total: nat, o: Outcome, entries: seq<Entry>, check: bool)
    requires o.Done? && Written(entries)
    ensures Evaluate(total, o, entries, check) == Exit <==> RefusedAsRead(total, o.reserved, entries, check)
    decreases |entries|
  {
    if entries != [] && To(entries[0]) < LONG {
      var next := AddRange(total, o, From(entries[0]) % WORD, To(entries[0]) % WORD, check);
      if next.Done? { RefusedIsExit(total, next, entries[1..], check); }
    }
  }

  /** On a given machine a list is parsed as promised exactly when its numbers are small or it is refused as read. */
  lemma {:induction false} PromiseOnMachine(total: nat, reserved: set<nat>, entries: seq<Entry>, seps: seq<char>, check: bool)
    requires IsList(entries, seps) && Written(entries) && total < WORD
    ensures ParseList(total, reserved, WriteList(entries, seps), check) == Promised(total, Done({}, reserved), entries, check)
            <==> Small(entries) || RefusedAsRead(total, reserved, entries, check)
  {
    var o := Done({}, reserved);
    ListMeaning(total, o, entries, seps, check);
    RefusedIsExit(total, o, entries, check);
    if Small(entries) {
      SmallKeepsPromise(total, o, entries, check);
    } else if Fits(total, reserved, entries, check) {
      FitsIsSmall(total, reserved, entries, check);
    }
  }

  /** The number 2^32 is taken for core 0, and 2^32 - 1 makes the parser count for ever. */
  lemma {:induction false} LargeNumbersBreakPromise(total: nat, wraps: string, hangs: string)
    requires total > 0 && wraps == "4294967296" && hangs == "4294967295"
    ensures ParseList(total, {}, wraps, false) == Done({0}, {})
    ensures ParseList(total, {}, hangs, false) == Hang
  {
    LargeNumbers(wraps, hangs);
    ParsesLarge(total, wraps);
    ParsesLarge(total, hangs);
  }

  lemma {:induction false} ParsesLarge(total: nat, s: string)
    requires total > 0 && IsNumber(s)
    ensures Value(s, 10) == WORD ==> ParseList(total, {}, s, false) == Done({0}, {})
    ensures Value(s, 10) == WORD - 1 ==> ParseList(total, {}, s, false) == Hang
  {
    if Value(s, 10) < LONG { LargeList(total, s, Value(s, 10)); }
    assert {} + Span(0, 0) == {0};
  }

  lemma {:induction false} LargeNumbers(wraps: string, hangs: string)
    requires wraps == "4294967296" && hangs == "4294967295"
    ensures IsNumber(wraps) && Value(wraps, 10) == WORD
    ensures IsNumber(hangs) && Value(hangs, 10) == WORD - 1
  {
    var front := "429496729";
    NineDigits(front);
    ValueSnoc(front, '6', 10);
    ValueSnoc(front, '5', 10);
    assert front + ['6'] == wraps && front + ['5'] == hangs;
  }

  lemma {:induction false} FiveDigits(s: string)
    requires s == "42949"
    ensures IsNumber(s) && Value(s, 10) == 42949
  {
    ValueSnoc("", '4', 10);
    assert "" + ['4'] == "4";
    ValueSnoc("4", '2', 10);
    assert "4" + ['2'] == "42";
    ValueSnoc("42", '9', 10);
    assert "42" + ['9'] == "429";
    ValueSnoc("429", '4', 10);
    assert "429" + ['4'] == "4294";
    ValueSnoc("4294", '9', 10);
    assert "4294" + ['9'] == "42949";
  }

  lemma {:induction false} NineDigits(s: string)
    requires s == "429496729"
    ensures IsNumber(s) && Value(s, 10) == 429496729
  {
    var front := s[..5];
    FiveDigits(front);
    ValueSnoc(front, '6', 10);
    ValueSnoc(s[..6], '7', 10);
    ValueSnoc(s[..7], '2', 10);
    ValueSnoc(s[..8], '9', 10);
    assert s[..6] == front + ['6'] && s[..7] == s[..6] + ['7'] && s[..8] == s[..7] + ['2'] && s == s[..8] + ['9'];
  }

  lemma {:induction false} LargeList(total: nat, n: string, v: nat)
    requires IsNumber(n) && Value(n, 10) == v < LONG
    ensures ParseList(total, {}, n, false)
         == AddRange(total, Done({}, {}), v % WORD, v % WORD, false)
  {
    var entries := [One(n)];
    ListMeaning(total, Done({}, {}), entries, [], false);
    assert entries[1..] == [];
  }
}
