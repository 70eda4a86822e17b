/**
  The SMART / health log of an array: the page of every disk is merged into one result page, and a
  completion handler then adds what the array itself knows. The page is the SMART / Health Information
  log of the NVM Express Base Specification 1.4, section 5.14.1.2.
 */
module SmartLog {

  const SENSORS: nat := 8
  const BYTE_UNIT: nat := 512 * 1000
  const KELVIN: nat := 273
  const COMPONENTS: nat := 2
  const U16: nat := 0x1_0000
  const U64: nat := 0x1_0000_0000_0000_0000

  /** The fields that are combined over the disks. */
  datatype Vitals = Vitals(temperature: nat, spare: nat, threshold: nat, used: nat,
                           warningTime: nat, criticalTime: nat, sensors: seq<nat>)

  /** 128-bit counters are pairs of 64-bit halves, low half first. */
  datatype Page = Page(vitals: Vitals, unitsRead: (nat, nat), unitsWritten: (nat, nat),
                       readCommands: (nat, nat), writeCommands: (nat, nat))

  predicate WellFormed(v: Vitals) { |v.sensors| == SENSORS }

  function Max(a: nat, b: nat): (r: nat) { if b > a then b else a }
  function Min(a: nat, b: nat): (r: nat) { if b < a then b else a }

  function MergeVitals(r: Vitals, p: Vitals): (m: Vitals)
    requires WellFormed(r) && WellFormed(p)
  {
    if p.temperature == 0 then r
    else if r.temperature == 0 then p
    else Vitals(Max(r.temperature, p.temperature), Min(r.spare, p.spare), Min(r.threshold, p.threshold),
                Max(r.used, p.used), Max(r.warningTime, p.warningTime), Max(r.criticalTime, p.criticalTime),
                seq(SENSORS, i requires 0 <= i < SENSORS => Max(r.sensors[i], p.sensors[i])))
  }

  function MergePage(r: Page, p: Page): (m: Page)
    requires WellFormed(r.vitals) && WellFormed(p.vitals)
  {
    var first := r.vitals.temperature == 0 && p.vitals.temperature != 0;
    r.(vitals := MergeVitals(r.vitals, p.vitals), unitsRead := if first then p.unitsRead else r.unitsRead)
  }

  /** What the completion handler reads from the CPU and from the SMART log manager. */
  datatype Readings = Readings(cpuCelsius: nat, bytesRead: nat, bytesWritten: nat, readCmds: nat, writeCmds: nat)

  function Units(bytes: nat): (r: nat) {
    if bytes == 0 then 0 else bytes / BYTE_UNIT + 1
  }

  /** Puts `v` into the first sensor without a value, if there is one. */
  function FillFirstEmpty(sensors: seq<nat>, v: nat): (r: seq<nat>)
    ensures |r| == |sensors|
  {
    if sensors == [] then []
    else if sensors[0] == 0 then [v] + sensors[1..]
    else [sensors[0]] + FillFirstEmpty(sensors[1..], v)
  }

  function CpuKelvin(e: Readings): (r: nat) { (e.cpuCelsius + KELVIN) % U64 }

  function Average(temperature: nat, kelvin: nat): (r: nat) {
    (temperature + kelvin) % U64 / COMPONENTS % U16
  }

  function AddTemperature(p: Page, e: Readings): (r: Page) {
    var k := CpuKelvin(e);
    p.(vitals := p.vitals.(temperature := Average(p.vitals.temperature, k),
                           sensors := FillFirstEmpty(p.vitals.sensors, k % U16)))
  }

  /** The whole job of the completion handler. */
  function Handle(p: Page, e: Readings): (r: Page) {
    Page(AddTemperature(p, e).vitals, (Units(e.bytesRead), 0), (Units(e.bytesWritten), 0),
         (e.readCmds, 0), (e.writeCmds, 0))
  }

  // --- The result page as the object that all requests update ----------------------------------------

  class ResultPage {
    var temperature: nat
    var spare: nat
    var threshold: nat
    var used: nat
    var warningTime: nat
    var criticalTime: nat
    const sensor: array<nat>
    var unitsRead: (nat, nat)
    var unitsWritten: (nat, nat)
    var readCommands: (nat, nat)
    var writeCommands: (nat, nat)

    ghost function View(): (p: Page)
      reads this, sensor
    {
      Page(Vitals(temperature, spare, threshold, used, warningTime, criticalTime, sensor[..]),
           unitsRead, unitsWritten, readCommands, writeCommands)
    }

    constructor (initial: Page)
      requires WellFormed(initial.vitals)
      ensures fresh(sensor) && View() == initial
    {
      var v := initial.vitals;
      temperature, spare, threshold, used := v.temperature, v.spare, v.threshold, v.used;
      warningTime, criticalTime := v.warningTime, v.criticalTime;
      sensor := new nat[SENSORS](i requires 0 <= i < SENSORS => v.sensors[i]);
      unitsRead, unitsWritten := initial.unitsRead, initial.unitsWritten;
      readCommands, writeCommands := initial.readCommands, initial.writeCommands;
      new;
      assert sensor[..] == v.sensors;
    }

    /** One disk's page is merged into the result. */
    method CalculateVarBasedVal(p: Page)
      requires WellFormed(View().vitals) && WellFormed(p.vitals)
      modifies this, sensor
      ensures View() == MergePage(old(View()), p)
    {
      if temperature == 0 && p.vitals.temperature != 0 {
        unitsRead := p.unitsRead;
        temperature, spare, threshold := p.vitals.temperature, p.vitals.spare, p.vitals.threshold;
        used, warningTime, criticalTime := p.vitals.used, p.vitals.warningTime, p.vitals.criticalTime;
        CopySensors(p.vitals.sensors);
      } else if p.vitals.temperature != 0 {
        if p.vitals.temperature > temperature { temperature := p.vitals.temperature; }
        if p.vitals.spare < spare { spare := p.vitals.spare; }
        if p.vitals.threshold < threshold { threshold := p.vitals.threshold; }
        if p.vitals.used > used { used := p.vitals.used; }
        if p.vitals.warningTime > warningTime { warningTime := p.vitals.warningTime; }
        if p.vitals.criticalTime > criticalTime { criticalTime := p.vitals.criticalTime; }
        MaxSensors(p.vitals.sensors);
      }
    }

    method CopySensors(sensors: seq<nat>)
      requires sensor.Length == |sensors| == SENSORS
      modifies sensor
      ensures sensor[..] == sensors
    {
      for i := 0 to SENSORS
        invariant forall k :: 0 <= k < i ==> sensor[k] == sensors[k]
      {
        sensor[i] := sensors[i];
      }
    }

    method MaxSensors(sensors: seq<nat>)
      requires sensor.Length == |sensors| == SENSORS
      modifies sensor
      ensures sensor[..] == seq(SENSORS, i requires 0 <= i < SENSORS => Max(old(sensor[i]), sensors[i]))
    {
      for i := 0 to SENSORS
        invariant forall k :: 0 <= k < i ==> sensor[k] == Max(old(sensor[k]), sensors[k])
        invariant forall k :: i <= k < SENSORS ==> sensor[k] == old(sensor[k])
      {
        if sensors[i] > sensor[i] { sensor[i] := sensors[i]; }
      }
    }

    method AddComponentTemperature(e: Readings)
      requires WellFormed(View().vitals)
      modifies this`temperature, sensor
      ensures View() == AddTemperature(old(View()), e)
    {
      var k := (e.cpuCelsius + KELVIN) % U64;
      temperature := (temperature + k) % U64 / COMPONENTS % U16;
      ghost var before := sensor[..];
      var index := 0;
      while index < SENSORS && sensor[index] != 0
        invariant index <= SENSORS && sensor[..] == before
        invariant forall i :: 0 <= i < index ==> before[i] != 0
      {
        index := index + 1;
      }
      FillAt(before, k % U16, index);
      if index < SENSORS { sensor[index] := k % U16; }
      assert sensor[..] == FillFirstEmpty(before, k % U16);
    }

    method SetValFromSmartLogMgr(e: Readings)
      modifies this`unitsRead, this`unitsWritten, this`readCommands, this`writeCommands
      ensures View() == Page(old(View()).vitals, (Units(e.bytesRead), 0), (Units(e.bytesWritten), 0),
                             (e.readCmds, 0), (e.writeCmds, 0))
    {
      readCommands, writeCommands := (e.readCmds, 0), (e.writeCmds, 0);
      if e.bytesRead == 0 { unitsRead := (0, 0); } else { unitsRead := (e.bytesRead / BYTE_UNIT + 1, 0); }
      if e.bytesWritten == 0 { unitsWritten := (0, 0); } else { unitsWritten := (e.bytesWritten / BYTE_UNIT + 1, 0); }
    }

    /** The job of the completion handler. */
    method DoSpecificJob(e: Readings)
      requires WellFormed(View().vitals)
      modifies this, sensor
      ensures View() == Handle(old(View()), e)
    {
      AddComponentTemperature(e);
      SetValFromSmartLogMgr(e);
    }
  }

  lemma {:induction false} FillAt(sensors: seq<nat>, v: nat, k: nat)
    requires k <= |sensors| && (k < |sensors| ==> sensors[k] == 0)
    requires forall i :: 0 <= i < k ==> sensors[i] != 0
    ensures FillFirstEmpty(sensors, v) == if k < |sensors| then sensors[k := v] else sensors
  {
    if k == 0 {
      assert sensors != [] ==> [v] + sensors[1..] == sensors[0 := v];
    } else {
      FillAt(sensors[1..], v, k - 1);
      assert sensors == [sensors[0]] + sensors[1..];
    }
  }

  /** The units are thousands of 512 bytes, rounded up, and one more for a whole number of them. */
  lemma {:induction false} UnitsAre(bytes: nat)
    ensures bytes == 0 <==> Units(bytes) == 0
    ensures bytes > 0 ==> (Units(bytes) - 1) * (512 * 1000) <= bytes < Units(bytes) * (512 * 1000)
  {
  }

  /** The new temperature is the mean of the page's and the CPU's, rounded down, as long as it fits the field. */
  lemma {:induction false} AverageIsMean(t: nat, e: Readings)
    requires t + e.cpuCelsius + KELVIN < SPAN
    ensures 2 * Average(t, CpuKelvin(e)) <= t + e.cpuCelsius + 273 <= 2 * Average(t, CpuKelvin(e)) + 1
  {
    var k := e.cpuCelsius + KELVIN;
    assert CpuKelvin(e) == k && (t + k) % U64 == t + k;
  }

  /** The handler sets the counters from the array's own and touches the temperature and the first empty sensor only. */
  lemma {:induction false} HandlerSets(p: Page, e: Readings)
    ensures var r := Handle(p, e);
            && r.readCommands == (e.readCmds, 0) && r.writeCommands == (e.writeCmds, 0)
            && r.unitsRead == (Units(e.bytesRead), 0) && r.unitsWritten == (Units(e.bytesWritten), 0)
            && r.vitals.temperature == Average(p.vitals.temperature, CpuKelvin(e))
            && r.vitals.(temperature := 0, sensors := []) == p.vitals.(temperature := 0, sensors := [])
            && |r.vitals.sensors| == |p.vitals.sensors|
            && forall i :: 0 <= i < |p.vitals.sensors| ==>
                 r.vitals.sensors[i] == if p.vitals.sensors[i] == 0 && (forall j :: 0 <= j < i ==> p.vitals.sensors[j] != 0)
                                        then CpuKelvin(e) % U16 else p.vitals.sensors[i]
  {
    FillIs(p.vitals.sensors, CpuKelvin(e) % U16);
  }

  lemma {:induction false} FillIs(sensors: seq<nat>, v: nat)
    ensures forall i :: 0 <= i < |sensors| ==>
              FillFirstEmpty(sensors, v)[i] == if sensors[i] == 0 && (forall j :: 0 <= j < i ==> sensors[j] != 0)
                                               then v else sensors[i]
  {
    if k :| 0 <= k < |sensors| && sensors[k] == 0 && forall j :: 0 <= j < k ==> sensors[j] != 0 {
      FillAt(sensors, v, k);
    } else {
      NoneEmpty(sensors);
      FillAt(sensors, v, |sensors|);
    }
  }

  lemma {:induction false} NoneEmpty(sensors: seq<nat>)
    requires !exists k :: 0 <= k < |sensors| && sensors[k] == 0 && forall j :: 0 <= j < k ==> sensors[j] != 0
    ensures forall i :: 0 <= i < |sensors| ==> sensors[i] != 0
  {
    NoneEmptyBelow(sensors, |sensors|);
  }

  lemma {:induction false} NoneEmptyBelow(sensors: seq<nat>, n: nat)
    requires n <= |sensors|
    requires !exists k :: 0 <= k < |sensors| && sensors[k] == 0 && forall j :: 0 <= j < k ==> sensors[j] != 0
    ensures forall i :: 0 <= i < n ==> sensors[i] != 0
  {
    if n > 0 { NoneEmptyBelow(sensors, n - 1); }
  }

  // --- Merging in any order ------------------------------------------------------------------------------

  ghost predicate AllWellFormed(pages: seq<Page>) {
    forall i :: 0 <= i < |pages| ==> WellFormed(pages[i].vitals)
  }

  ghost predicate Indices(order: seq<nat>, n: nat) {
    forall k :: 0 <= k < |order| ==> order[k] < n
  }

  /** Merges the pages in the given order of disks. */
  ghost function MergeIn(r: Page, pages: seq<Page>, order: seq<nat>): (m: Page)
    requires WellFormed(r.vitals) && AllWellFormed(pages) && Indices(order, |pages|)
    ensures WellFormed(m.vitals)
    decreases |order|
  {
    if order == [] then r else MergeIn(MergePage(r, pages[order[0]]), pages, order[1..])
  }

  /** Merging leaves the other counters alone and takes the data units read of the first page with a temperature. */
  lemma {:induction false} MergedCounters(r: Page, pages: seq<Page>, order: seq<nat>, k: nat)
    requires WellFormed(r.vitals) && AllWellFormed(pages) && Indices(order, |pages|) && k <= |order|
    requires forall i :: 0 <= i < k ==> pages[order[i]].vitals.temperature == 0
    requires k < |order| ==> pages[order[k]].vitals.temperature != 0
    ensures var m := MergeIn(r, pages, order);
            && m.unitsWritten == r.unitsWritten && m.readCommands == r.readCommands && m.writeCommands == r.writeCommands
            && m.unitsRead == if r.vitals.temperature == 0 && k < |order| then pages[order[k]].unitsRead else r.unitsRead
    decreases |order|
  {
    if order != [] {
      var next := MergePage(r, pages[order[0]]);
      if k > 0 {
        MergedCounters(next, pages, order[1..], k - 1);
      } else {
        CountersStay(next, pages, order[1..]);
      }
    }
  }

  lemma {:induction false} CountersStay(r: Page, pages: seq<Page>, order: seq<nat>)
    requires WellFormed(r.vitals) && AllWellFormed(pages) && Indices(order, |pages|) && r.vitals.temperature != 0
    ensures var m := MergeIn(r, pages, order);
            && m.unitsRead == r.unitsRead && m.unitsWritten == r.unitsWritten
            && m.readCommands == r.readCommands && m.writeCommands == r.writeCommands
    decreases |order|
  {
    if order != [] { CountersStay(MergePage(r, pages[order[0]]), pages, order[1..]); }
  }

  /** Equal up to the data units read, which the first page assigns. */
  ghost predicate Alike(a: Page, b: Page) {
    a.(unitsRead := (0, 0)) == b.(unitsRead := (0, 0))
  }

  lemma {:induction false} MergeCommutes(r: Page, p: Page, q: Page)
    requires WellFormed(r.vitals) && WellFormed(p.vitals) && WellFormed(q.vitals)
    ensures Alike(MergePage(MergePage(r, p), q), MergePage(MergePage(r, q), p))
  {
    var a, b := MergePage(MergePage(r, p), q).vitals, MergePage(MergePage(r, q), p).vitals;
    assert a.sensors == b.sensors;
  }

  lemma {:induction false} AlikeMerges(a: Page, b: Page, pages: seq<Page>, order: seq<nat>)
    requires WellFormed(a.vitals) && WellFormed(b.vitals) && Alike(a, b)
    requires AllWellFormed(pages) && Indices(order, |pages|)
    ensures Alike(MergeIn(a, pages, order), MergeIn(b, pages, order))
    decreases |order|
  {
    if order != [] { AlikeMerges(MergePage(a, pages[order[0]]), MergePage(b, pages[order[0]]), pages, order[1..]); }
  }

  /** Any disk of the order may be merged first. */
  lemma {:induction false} MergeFirst(r: Page, pages: seq<Page>, order: seq<nat>, k: nat)
    requires WellFormed(r.vitals) && AllWellFormed(pages) && Indices(order, |pages|) && k < |order|
    ensures Indices(order[..k] + order[k + 1..], |pages|)
    ensures Alike(MergeIn(r, pages, order),
                  MergeIn(MergePage(r, pages[order[k]]), pages, order[..k] + order[k + 1..]))
    decreases |order|
  {
    var rest := order[..k] + order[k + 1..];
    if k == 0 {
      assert rest == order[1..];
    } else {
      var p, q := pages[order[0]], pages[order[k]];
      MergeFirst(MergePage(r, p), pages, order[1..], k - 1);
      assert rest[1..] == order[1..][..k - 1] + order[1..][k..];
      MergeCommutes(r, p, q);
      AlikeMerges(MergePage(MergePage(r, p), q), MergePage(MergePage(r, q), p), pages, rest[1..]);
    }
  }

  lemma {:induction false} RemoveAt(s: seq<nat>, k: nat)
    requires k < |s|
    ensures multiset(s[..k] + s[k + 1..]) == multiset(s) - multiset{s[k]}
  {
    assert s == s[..k] + [s[k]] + s[k + 1..];
  }

  /** Two orders of the same disks give the same page up to the data units read. */
  lemma {:induction false} AnyOrder(r: Page, pages: seq<Page>, a: seq<nat>, b: seq<nat>)
    requires WellFormed(r.vitals) && AllWellFormed(pages) && Indices(a, |pages|) && Indices(b, |pages|)
    requires multiset(a) == multiset(b)
    ensures Alike(MergeIn(r, pages, a), MergeIn(r, pages, b))
    decreases |a|
  {
    if a == [] {
      assert |multiset(b)| == 0;
    } else {
      assert a[0] in multiset(b);
      var k :| 0 <= k < |b| && b[k] == a[0];
      MergeFirst(r, pages, b, k);
      var rest := b[..k] + b[k + 1..];
      RemoveAt(a, 0);
      RemoveAt(b, k);
      assert a[..0] + a[1..] == a[1..];
      AnyOrder(MergePage(r, pages[a[0]]), pages, a[1..], rest);
    }
  }

  // --- What the merged page holds ---------------------------------------------------------------------------

  datatype Field = Temperature | Spare | Threshold | Used | WarningTime | CriticalTime | Sensor(i: nat)

  ghost function Get(v: Vitals, f: Field): (x: nat)
    requires WellFormed(v) && (f.Sensor? ==> f.i < SENSORS)
  {
    match f
    case Temperature => v.temperature
    case Spare => v.spare
    case Threshold => v.threshold
    case Used => v.used
    case WarningTime => v.warningTime
    case CriticalTime => v.criticalTime
    case Sensor(i) => v.sensors[i]
  }

  /** Spare and threshold keep the least value, all other fields the greatest. */
  ghost predicate Dominates(f: Field, x: nat, y: nat) {
    if f.Spare? || f.Threshold? then x <= y else y <= x
  }

  /** `x` is the value of field `f` in a responding page of the order, and dominates all of them. */
  ghost predicate Extreme(pages: seq<Page>, order: seq<nat>, f: Field, x: nat)
    requires AllWellFormed(pages) && Indices(order, |pages|) && (f.Sensor? ==> f.i < SENSORS)
  {
    && (exists k :: 0 <= k < |order| && pages[order[k]].vitals.temperature != 0
                 && Get(pages[order[k]].vitals, f) == x)
    && (forall k :: 0 <= k < |order| && pages[order[k]].vitals.temperature != 0 ==>
          Dominates(f, x, Get(pages[order[k]].vitals, f)))
  }

  /**
    From a result page with temperature zero, every field of the merged page is the greatest (for the
    spares, the least) value over the pages with non-zero temperature; with no such page nothing changes.
   */
  lemma {:induction false} MergedExtremes(r: Page, pages: seq<Page>, order: seq<nat>, f: Field)
    requires WellFormed(r.vitals) && AllWellFormed(pages) && Indices(order, |pages|)
    requires r.vitals.temperature == 0 && (f.Sensor? ==> f.i < SENSORS)
    ensures if exists k :: 0 <= k < |order| && pages[order[k]].vitals.temperature != 0
            then Extreme(pages, order, f, Get(MergeIn(r, pages, order).vitals, f))
            else MergeIn(r, pages, order) == r
  {
    if order != [] {
      var p := pages[order[0]];
      assert order == [order[0]] + order[1..];
      if p.vitals.temperature == 0 {
        MergedExtremes(r, pages, order[1..], f);
        if k :| 0 <= k < |order| && pages[order[k]].vitals.temperature != 0 {
          assert pages[order[1..][k - 1]].vitals.temperature != 0;
        }
      } else {
        MergedFrom(MergePage(r, p), pages, order[1..], f);
      }
    }
  }

  lemma {:induction false} MergedFrom(r: Page, pages: seq<Page>, order: seq<nat>, f: Field)
    requires WellFormed(r.vitals) && AllWellFormed(pages) && Indices(order, |pages|)
    requires r.vitals.temperature != 0 && (f.Sensor? ==> f.i < SENSORS)
    ensures var x := Get(MergeIn(r, pages, order).vitals, f);
            && (x == Get(r.vitals, f) || exists k :: 0 <= k < |order| && pages[order[k]].vitals.temperature != 0
                                                  && Get(pages[order[k]].vitals, f) == x)
            && Dominates(f, x, Get(r.vitals, f))
            && (forall k :: 0 <= k < |order| && pages[order[k]].vitals.temperature != 0 ==>
                  Dominates(f, x, Get(pages[order[k]].vitals, f)))
    decreases |order|
  {
    if order != [] {
      var p := pages[order[0]];
      var m := MergePage(r, p);
      MergedFrom(m, pages, order[1..], f);
      var x := Get(MergeIn(r, pages, order).vitals, f);
      assert Get(m.vitals, f) == Get(r.vitals, f) || (p.vitals.temperature != 0 && Get(m.vitals, f) == Get(p.vitals, f));
      if x != Get(m.vitals, f) {
        var k :| 0 <= k < |order[1..]| && pages[order[1..][k]].vitals.temperature != 0
              && Get(pages[order[1..][k]].vitals, f) == x;
        assert pages[order[k + 1]].vitals.temperature != 0;
      }
      forall k | 0 <= k < |order| && pages[order[k]].vitals.temperature != 0
        ensures Dominates(f, x, Get(pages[order[k]].vitals, f))
      {
        if k > 0 { assert pages[order[1..][k - 1]].vitals.temperature != 0; }
      }
    }
  }

  // --- Running the handler again -------------------------------------------------------------------------------

  ghost predicate AtMostOneEmpty(sensors: seq<nat>) {
    forall i, j :: 0 <= i < j < |sensors| ==> sensors[i] != 0 || sensors[j] != 0
  }

  lemma {:induction false} FillTwice(sensors: seq<nat>, v: nat)
    requires v != 0
    ensures FillFirstEmpty(FillFirstEmpty(sensors, v), v) == FillFirstEmpty(sensors, v) <==> AtMostOneEmpty(sensors)
  {
    if sensors != [] {
      var rest := sensors[1..];
      var once := FillFirstEmpty(sensors, v);
      if sensors[0] == 0 {
        assert once[1..] == rest;
        FillNothing(rest, v);
        assert AtMostOneEmpty(sensors) <==> forall i :: 0 <= i < |rest| ==> rest[i] != 0 by {
          assert forall i :: 0 <= i < |rest| ==> rest[i] == sensors[i + 1];
        }
      } else {
        FillTwice(rest, v);
        assert once[1..] == FillFirstEmpty(rest, v);
        assert AtMostOneEmpty(sensors) <==> AtMostOneEmpty(rest) by {
          assert forall i :: 0 <= i < |rest| ==> rest[i] == sensors[i + 1];
        }
      }
    }
  }

  lemma {:induction false} FillNothing(sensors: seq<nat>, v: nat)
    requires v != 0
    ensures FillFirstEmpty(sensors, v) == sensors <==> forall i :: 0 <= i < |sensors| ==> sensors[i] != 0
  {
    if sensors != [] {
      FillNothing(sensors[1..], v);
      assert sensors == [sensors[0]] + sensors[1..];
    }
  }

  /** Twice the width of the temperature field: what averaging makes of a reading depends on it modulo this. */
  const SPAN := 0x2_0000

  /** The reading, seen in the width of the field, is within the rounding distance of the temperature. */
  predicate Near(t: nat, k: nat) {
    var r := k % SPAN;
    r <= t + 2 && t <= r + 1 && t + r < SPAN
  }

  lemma {:induction false} HalfIn16(q: nat, x: nat)
    ensures (SPAN * q + x) / 2 % U16 == x / 2 % U16
  {
    assert (SPAN * q + x) / 2 == U16 * q + x / 2;
  }

  /** Without a carry out of 64 bits only the reading modulo the span counts. */
  lemma {:induction false} AverageIn16(t: nat, k: nat)
    requires t + k < U64
    ensures Average(t, k) == (t + k % SPAN) / 2 % U16
  {
    assert t + k == SPAN * (k / SPAN) + (t + k % SPAN);
    HalfIn16(k / SPAN, t + k % SPAN);
  }

  /** A reading so large that the sum leaves 64 bits lowers the temperature. */
  lemma {:induction false} CarryLowers(t: nat, k: nat)
    requires t < U16 && k < U64 <= t + k
    ensures Average(t, k) == (t - (U64 - k)) / 2 < t && k % SPAN == SPAN - (U64 - k)
  {
    var d := U64 - k;
    assert (t + k) % U64 == t - d;
    assert k == SPAN * (U64 / SPAN - 1) + (SPAN - d);
  }

  lemma {:induction false} CarryNeverSettles(t: nat, k: nat)
    requires t < U16 && k < U64 <= t + k
    ensures Average(Average(t, k), k) != Average(t, k) && !Near(t, k)
  {
    var d, v := U64 - k, Average(t, k);
    CarryLowers(t, k);
    if v >= d {
      CarryLowers(v, k);
    } else {
      AverageIn16(v, k);
      assert U16 / 2 <= (v + (SPAN - d)) / 2 < U16;
    }
  }

  lemma {:induction false} AverageTwice(t: nat, k: nat)
    requires t < U16 && k < U64
    ensures Average(Average(t, k), k) == Average(t, k) <==> Near(t, k)
  {
    if t + k >= U64 {
      CarryNeverSettles(t, k);
    } else {
      AverageIn16(t, k);
      var v := Average(t, k);
      if v + k >= U64 {
        CarryLowers(v, k);
      } else {
        AverageIn16(v, k);
        Settles16(t, k % SPAN);
      }
    }
  }

  lemma {:induction false} Settles16(t: nat, r: nat)
    requires t < U16 && r < SPAN
    ensures var v := (t + r) / 2 % U16;
            (v + r) / 2 % U16 == v <==> r <= t + 2 && t <= r + 1 && t + r < SPAN
  {
    if t + r < SPAN {
      assert (t + r) / 2 % U16 == (t + r) / 2;
    } else {
      assert (t + r) / 2 % U16 == (t + r) / 2 - U16;
    }
  }

  lemma {:induction false} FillZero(sensors: seq<nat>)
    ensures FillFirstEmpty(sensors, 0) == sensors
  {
    if sensors != [] {
      FillZero(sensors[1..]);
      assert sensors == [sensors[0]] + sensors[1..];
    }
  }

  /**
    The handler's job is repeated when its event cannot be sent. Repeating it with the same readings
    leaves the page alone exactly when the merged temperature was within the rounding distance of the
    CPU's, as the 16-bit field shows it, and at most one sensor was empty or the value to fill in is 0.
   */
  lemma {:induction false} RepeatIsHarmless(p: Page, e: Readings)
    requires p.vitals.temperature < U16
    ensures Handle(Handle(p, e), e) == Handle(p, e) <==>
              && Near(p.vitals.temperature, CpuKelvin(e))
              && (CpuKelvin(e) % U16 == 0 || AtMostOneEmpty(p.vitals.sensors))
  {
    AverageTwice(p.vitals.temperature, CpuKelvin(e));
    FillZero(p.vitals.sensors);
    if CpuKelvin(e) % U16 != 0 { FillTwice(p.vitals.sensors, CpuKelvin(e) % U16); }
  }

  /** For readings that fit the field the distance is the plain one, and an empty sensor is always filled. */
  lemma {:induction false} RepeatInRange(p: Page, e: Readings)
    requires p.vitals.temperature < U16 && e.cpuCelsius + KELVIN < U16
    ensures Handle(Handle(p, e), e) == Handle(p, e) <==>
              (CpuKelvin(e) <= p.vitals.temperature + 2 && p.vitals.temperature <= CpuKelvin(e) + 1
               && AtMostOneEmpty(p.vitals.sensors))
  {
    RepeatIsHarmless(p, e);
  }

  /** A repeated job averages the CPU temperature in twice and fills a second sensor. */
  lemma {:induction false} RepeatChangesPage()
    ensures exists p: Page, e: Readings :: p.vitals.temperature < U16 && e.cpuCelsius + KELVIN < U16
                        && Handle(Handle(p, e), e) != Handle(p, e)
  {
    var p := Page(Vitals(300, 100, 10, 1, 0, 0, seq(SENSORS, _ => 0)), (0, 0), (0, 0), (0, 0), (0, 0));
    var e := Readings(77, 0, 0, 0, 0);
    RepeatInRange(p, e);
  }
}
