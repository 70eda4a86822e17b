/** The options for a new array: data and spare devices of one size on one NUMA node. */
module ArrayCreation {
  import opened Options
  import opened Devices

  const LONG := 0x1_0000_0000_0000_0000

  /** The devices that share a key; a list of groups stands for an ordered map. */
  datatype Group = Group(key: int, devs: seq<Device>)

  function AddTo(groups: seq<Group>, key: int, dev: Device): (r: seq<Group>) {
    if groups == [] || key < groups[0].key then [Group(key, [dev])] + groups
    else if key == groups[0].key then [Group(key, groups[0].devs + [dev])] + groups[1..]
    else [groups[0]] + AddTo(groups[1..], key, dev)
  }

  function GroupBy(devs: seq<Device>, f: Device -> int): (r: seq<Group>) {
    if devs == [] then []
    else AddTo(GroupBy(devs[..|devs| - 1], f), f(devs[|devs| - 1]), devs[|devs| - 1])
  }

  function Where(devs: seq<Device>, p: Device -> bool): (r: seq<Device>) {
    if devs == [] then []
    else Where(devs[..|devs| - 1], p) + if p(devs[|devs| - 1]) then [devs[|devs| - 1]] else []
  }

  predicate Increasing(groups: seq<Group>) {
    forall i, j :: 0 <= i < j < |groups| ==> groups[i].key < groups[j].key
  }

  /** The devices under a key; none when the key is missing. */
  function Under(groups: seq<Group>, key: int): (r: seq<Device>) {
    if groups == [] then []
    else if groups[0].key == key then groups[0].devs
    else Under(groups[1..], key)
  }

  lemma {:induction false} AddToIs(groups: seq<Group>, key: int, dev: Device)
    requires Increasing(groups) && forall i :: 0 <= i < |groups| ==> groups[i].devs != []
    ensures var r := AddTo(groups, key, dev);
            && Increasing(r) && (forall i :: 0 <= i < |r| ==> r[i].devs != [])
            && (r[0].key == key || (groups != [] && r[0].key == groups[0].key))
            && Under(r, key) == Under(groups, key) + [dev]
            && forall k :: k != key ==> Under(r, k) == Under(groups, k)
    decreases |groups|
  {
    if groups != [] && groups[0].key < key {
      var rest := groups[1..];
      AddToIs(rest, key, dev);
      var r := AddTo(groups, key, dev);
      assert r[1..] == AddTo(rest, key, dev);
    } else if groups == [] || key < groups[0].key {
      var r := AddTo(groups, key, dev);
      assert r[1..] == groups;
      NotUnder(groups, key);
    } else {
      var r := AddTo(groups, key, dev);
      assert r[1..] == groups[1..];
    }
  }

  lemma {:induction false} NotUnder(groups: seq<Group>, key: int)
    requires forall i :: 0 <= i < |groups| ==> groups[i].key != key
    ensures Under(groups, key) == []
  {
    if groups != [] { NotUnder(groups[1..], key); }
  }

  lemma {:induction false} UnderAt(groups: seq<Group>, i: nat)
    requires Increasing(groups) && i < |groups|
    ensures Under(groups, groups[i].key) == groups[i].devs
  {
    if i > 0 { UnderAt(groups[1..], i - 1); }
  }

  lemma {:induction false} HasKey(groups: seq<Group>, key: int)
    requires Under(groups, key) != []
    ensures exists i :: 0 <= i < |groups| && groups[i].key == key
  {
    if groups[0].key != key {
      HasKey(groups[1..], key);
      var i :| 0 <= i < |groups[1..]| && groups[1..][i].key == key;
      assert groups[i + 1].key == key;
    }
  }

  /** Grouping lists every key in use once, in order, with the devices that have it in their old order. */
  lemma {:induction false} GroupByIs(devs: seq<Device>, f: Device -> int)
    ensures var r := GroupBy(devs, f);
            && Increasing(r) && (forall i :: 0 <= i < |r| ==> r[i].devs != [])
            && forall k :: Under(r, k) == Where(devs, (d: Device) => f(d) == k)
  {
    if devs != [] {
      var front, last := devs[..|devs| - 1], devs[|devs| - 1];
      GroupByIs(front, f);
      AddToIs(GroupBy(front, f), f(last), last);
    }
  }

  // --- The search ---------------------------------------------------------------------------------------------

  datatype Request = Request(buffers: seq<string>, dataCnt: int, spareCnt: int)

  datatype Code = SUCCESS | ARRAY_INSUFFICIENT_NUMA_DEVS

  datatype Creation = Creation(numaId: int, capacity: nat, data: seq<string>, spares: seq<string>, nvm: seq<string>)

  function Names(devs: seq<Device>): (r: seq<string>) { seq(|devs|, (i: nat) requires i < |devs| => devs[i].name) }

  function Clip(x: int, n: nat): (r: nat)
    ensures r <= n
  {
    if x < 0 then 0 else if x < n then x else n
  }

  /** The first buffer, if one is given, is a listed device on the node. */
  predicate BufferFits(all: seq<Device>, buffers: seq<string>, numa: int) {
    buffers != [] ==> FindName(all, buffers[0]).Some? && FindName(all, buffers[0]).value.numa == numa
  }

  predicate Eligible(all: seq<Device>, devs: seq<Device>, numa: int, req: Request) {
    |devs| >= req.dataCnt + req.spareCnt && BufferFits(all, req.buffers, numa)
  }

  /** The option for the devices of one size on one node: the first ones for data, the next ones for spares. */
  function Make(devs: seq<Device>, numa: int, size: int, req: Request): (r: Creation) {
    var a := Clip(req.dataCnt, |devs|);
    var b := a + Clip(req.spareCnt, |devs| - a);
    Creation(numa, size * req.dataCnt % LONG, Names(devs[..a]), Names(devs[a..b]),
             if req.buffers == [] then [] else [req.buffers[0]])
  }

  function SizeOptions(all: seq<Device>, groups: seq<Group>, numa: int, req: Request): (r: seq<Creation>) {
    if groups == [] then []
    else
      SizeOptions(all, groups[..|groups| - 1], numa, req)
      + var g := groups[|groups| - 1];
        if Eligible(all, g.devs, numa, req) then [Make(g.devs, numa, g.key, req)] else []
  }

  function BySize(): (f: Device -> int) { (d: Device) => d.size }

  function ByNuma(): (f: Device -> int) { (d: Device) => d.numa }

  function IsSystem(): (f: Device -> bool) { (d: Device) => d.cls == SYSTEM }

  function NumaOptions(all: seq<Device>, groups: seq<Group>, req: Request): (r: seq<Creation>) {
    if groups == [] then []
    else
      NumaOptions(all, groups[..|groups| - 1], req)
      + var g := groups[|groups| - 1]; SizeOptions(all, GroupBy(g.devs, BySize()), g.key, req)
  }

  function CreateOptions(all: seq<Device>, req: Request): (r: seq<Creation>) {
    NumaOptions(all, GroupBy(Where(all, IsSystem()), ByNuma()), req)
  }

  lemma {:induction false} NamesSnoc(devs: seq<Device>, lo: nat, hi: nat)
    requires lo <= hi < |devs|
    ensures Names(devs[lo..hi + 1]) == Names(devs[lo..hi]) + [devs[hi].name]
  {
  }

  method SelectDevices(devs: seq<Device>, dataCnt: int, spareCnt: int) returns (data: seq<string>, spares: seq<string>)
    ensures var a := Clip(dataCnt, |devs|);
            data == Names(devs[..a]) && spares == Names(devs[a..a + Clip(spareCnt, |devs| - a)])
  {
    data, spares := [], [];
    var dCnt, sCnt := dataCnt, spareCnt;
    ghost var a := Clip(dataCnt, |devs|);
    for i := 0 to |devs|
      invariant dCnt == dataCnt - Clip(dataCnt, i) && data == Names(devs[0..Clip(dataCnt, i)])
      invariant i <= a ==> sCnt == spareCnt && spares == []
      invariant i > a ==> sCnt == spareCnt - Clip(spareCnt, i - a)
      invariant i > a ==> spares == Names(devs[a..a + Clip(spareCnt, i - a)])
    {
      if dCnt > 0 {
        NamesSnoc(devs, 0, i);
        data := data + [devs[i].name];
        dCnt := dCnt - 1;
      } else if sCnt > 0 {
        NamesSnoc(devs, a, i);
        spares := spares + [devs[i].name];
        sCnt := sCnt - 1;
      }
    }
    assert devs[0..a] == devs[..a];
  }

  method SearchSizes(devMgr: DeviceManager, numa: int, groups: seq<Group>, req: Request) returns (r: seq<Creation>)
    ensures r == SizeOptions(devMgr.devices, groups, numa, req)
  {
    r := [];
    for k := 0 to |groups|
      invariant r == SizeOptions(devMgr.devices, groups[..k], numa, req)
    {
      assert groups[..k + 1][..k] == groups[..k];
      var devs := groups[k].devs;
      if |devs| >= req.dataCnt + req.spareCnt {
        var data, spares := SelectDevices(devs, req.dataCnt, req.spareCnt);
        var nvm := [];
        if |req.buffers| > 0 {
          var buf := devMgr.GetDev(req.buffers[0]);
          if buf.Some? && buf.value.numa == numa {
            nvm := [req.buffers[0]];
          } else {
            continue;
          }
        }
        r := r + [Creation(numa, groups[k].key * req.dataCnt % LONG, data, spares, nvm)];
      }
    }
    assert groups[..|groups|] == groups;
  }

  method NumaAwaredArrayCreation(devMgr: DeviceManager, req: Request) returns (code: Code, options: seq<Creation>)
    ensures options == CreateOptions(devMgr.devices, req)
    ensures code == SUCCESS <==> options != []
  {
    options := [];
    var groups := GroupBy(Where(devMgr.devices, IsSystem()), ByNuma());
    for k := 0 to |groups|
      invariant options == NumaOptions(devMgr.devices, groups[..k], req)
    {
      assert groups[..k + 1][..k] == groups[..k];
      var more := SearchSizes(devMgr, groups[k].key, GroupBy(groups[k].devs, BySize()), req);
      options := options + more;
    }
    assert groups[..|groups|] == groups;
    code := if options == [] then ARRAY_INSUFFICIENT_NUMA_DEVS else SUCCESS;
  }

  // --- One option for every suitable group --------------------------------------------------------------------

  /** The system devices of one node and size. */
  ghost function Alike(all: seq<Device>, numa: int, size: int): (r: seq<Device>) {
    Where(all, (d: Device) => d.cls == SYSTEM && d.numa == numa && d.size == size)
  }

  datatype Key = Key(numa: int, size: int)

  ghost function SizeKeys(all: seq<Device>, groups: seq<Group>, numa: int, req: Request): (r: seq<Key>) {
    if groups == [] then []
    else
      SizeKeys(all, groups[..|groups| - 1], numa, req)
      + var g := groups[|groups| - 1]; if Eligible(all, g.devs, numa, req) then [Key(numa, g.key)] else []
  }

  ghost function NumaKeys(all: seq<Device>, groups: seq<Group>, req: Request): (r: seq<Key>) {
    if groups == [] then []
    else
      NumaKeys(all, groups[..|groups| - 1], req)
      + var g := groups[|groups| - 1]; SizeKeys(all, GroupBy(g.devs, BySize()), g.key, req)
  }

  predicate Before(a: Key, b: Key) { a.numa < b.numa || (a.numa == b.numa && a.size < b.size) }

  ghost predicate InOrder(keys: seq<Key>) { forall i, j :: 0 <= i < j < |keys| ==> Before(keys[i], keys[j]) }

  /** Each option is the one made for the group of its key. */
  ghost predicate Match(options: seq<Creation>, keys: seq<Key>, all: seq<Device>, req: Request) {
    && |options| == |keys|
    && forall i :: 0 <= i < |keys| ==>
         options[i] == Make(Alike(all, keys[i].numa, keys[i].size), keys[i].numa, keys[i].size, req)
  }

  /** A group that gives an option: it has devices, enough of them, and the buffer is on its node. */
  ghost predicate Suitable(all: seq<Device>, key: Key, req: Request) {
    Alike(all, key.numa, key.size) != [] && Eligible(all, Alike(all, key.numa, key.size), key.numa, req)
  }

  lemma {:induction false} WhereTwice(devs: seq<Device>, p: Device -> bool, q: Device -> bool, both: Device -> bool)
    requires forall d :: both(d) <==> p(d) && q(d)
    ensures Where(Where(devs, p), q) == Where(devs, both)
  {
    if devs != [] {
      var front, last := devs[..|devs| - 1], devs[|devs| - 1];
      WhereTwice(front, p, q, both);
      if p(last) {
        assert (Where(front, p) + [last])[..|Where(front, p)|] == Where(front, p);
      } else {
        assert Where(front, p) + [] == Where(front, p);
      }
    }
  }

  /** The groups of the search hold the devices alike in node and size. */
  lemma {:induction false} GroupsAreAlike(all: seq<Device>, numa: int, size: int)
    ensures Under(GroupBy(Under(GroupBy(Where(all, IsSystem()), ByNuma()), numa), BySize()), size)
         == Alike(all, numa, size)
  {
    var system := Where(all, IsSystem());
    var onNuma := (d: Device) => ByNuma()(d) == numa;
    var ofSize := (d: Device) => BySize()(d) == size;
    var both := (d: Device) => d.cls == SYSTEM && d.numa == numa;
    var three := (d: Device) => d.cls == SYSTEM && d.numa == numa && d.size == size;
    GroupByIs(system, ByNuma());
    GroupByIs(Where(system, onNuma), BySize());
    WhereTwice(all, IsSystem(), onNuma, both);
    WhereTwice(all, both, ofSize, three);
  }

  /** `key` names a size of `groups` with enough devices, and `option` is made of them. */
  ghost predicate Made(all: seq<Device>, groups: seq<Group>, key: Key, option: Creation, req: Request) {
    exists g :: 0 <= g < |groups| && MadeFrom(all, groups[g], key, option, req)
  }

  ghost predicate MadeFrom(all: seq<Device>, g: Group, key: Key, option: Creation, req: Request) {
    g.key == key.size && Eligible(all, g.devs, key.numa, req) && option == Make(g.devs, key.numa, g.key, req)
  }

  lemma {:induction false} SizeKeysIs(all: seq<Device>, groups: seq<Group>, numa: int, req: Request)
    requires Increasing(groups)
    ensures var keys, options := SizeKeys(all, groups, numa, req), SizeOptions(all, groups, numa, req);
            && |keys| == |options| && InOrder(keys)
            && (forall i :: 0 <= i < |keys| ==>
                  keys[i].numa == numa && Made(all, groups, keys[i], options[i], req))
            && forall g :: 0 <= g < |groups| && Eligible(all, groups[g].devs, numa, req) ==>
                 Key(numa, groups[g].key) in keys
    decreases |groups|
  {
    if groups != [] {
      var n := |groups| - 1;
      var front, last := groups[..n], groups[n];
      SizeKeysIs(all, front, numa, req);
      var keys0, options0 := SizeKeys(all, front, numa, req), SizeOptions(all, front, numa, req);
      var keys, options := SizeKeys(all, groups, numa, req), SizeOptions(all, groups, numa, req);
      forall i | 0 <= i < |keys|
        ensures keys[i].numa == numa && Made(all, groups, keys[i], options[i], req)
        ensures i < |keys0| ==> keys[i].size < last.key
      {
        if i < |keys0| {
          assert keys[i] == keys0[i] && options[i] == options0[i];
          var g :| 0 <= g < n && MadeFrom(all, front[g], keys0[i], options0[i], req);
          assert MadeFrom(all, groups[g], keys[i], options[i], req);
        } else {
          assert MadeFrom(all, groups[n], keys[i], options[i], req);
        }
      }
      forall g | 0 <= g < |groups| && Eligible(all, groups[g].devs, numa, req)
        ensures Key(numa, groups[g].key) in keys
      {
        assert g < n ==> front[g] == groups[g];
      }
    }
  }

  /** The devices of one size among `devs`. */
  ghost function Sized(devs: seq<Device>, size: int): (r: seq<Device>) { Under(GroupBy(devs, BySize()), size) }

  ghost predicate GoodKey(all: seq<Device>, devs: seq<Device>, key: Key, req: Request) {
    Sized(devs, key.size) != [] && Eligible(all, Sized(devs, key.size), key.numa, req)
  }

  ghost predicate Good(all: seq<Device>, devs: seq<Device>, key: Key, option: Creation, req: Request) {
    GoodKey(all, devs, key, req) && option == Make(Sized(devs, key.size), key.numa, key.size, req)
  }

  lemma {:induction false} SizeLevel(all: seq<Device>, devs: seq<Device>, numa: int, req: Request)
    ensures var groups := GroupBy(devs, BySize());
            var keys, options := SizeKeys(all, groups, numa, req), SizeOptions(all, groups, numa, req);
            && |keys| == |options| && InOrder(keys)
            && (forall i :: 0 <= i < |keys| ==> keys[i].numa == numa && Good(all, devs, keys[i], options[i], req))
            && forall key: Key :: key.numa == numa && GoodKey(all, devs, key, req) ==> key in keys
  {
    var groups := GroupBy(devs, BySize());
    var keys, options := SizeKeys(all, groups, numa, req), SizeOptions(all, groups, numa, req);
    GroupByIs(devs, BySize());
    SizeKeysIs(all, groups, numa, req);
    forall i | 0 <= i < |keys| ensures Good(all, devs, keys[i], options[i], req) {
      var g :| 0 <= g < |groups| && MadeFrom(all, groups[g], keys[i], options[i], req);
      UnderAt(groups, g);
    }
    forall key: Key | key.numa == numa && GoodKey(all, devs, key, req) ensures key in keys {
      HasKey(groups, key.size);
      var g :| 0 <= g < |groups| && groups[g].key == key.size;
      UnderAt(groups, g);
    }
  }

  ghost predicate GoodOn(all: seq<Device>, g: Group, key: Key, option: Creation, req: Request) {
    g.key == key.numa && Good(all, g.devs, key, option, req)
  }

  ghost predicate GoodSomewhere(all: seq<Device>, groups: seq<Group>, key: Key, option: Creation, req: Request) {
    exists g :: 0 <= g < |groups| && GoodOn(all, groups[g], key, option, req)
  }

  /** The keys and options are those of the groups. */
  ghost predicate Listed(all: seq<Device>, groups: seq<Group>, keys: seq<Key>, options: seq<Creation>, req: Request) {
    && |keys| == |options| && InOrder(keys)
    && (forall i :: 0 <= i < |keys| ==> GoodSomewhere(all, groups, keys[i], options[i], req))
    && forall g, key: Key ::
         0 <= g < |groups| && key.numa == groups[g].key && GoodKey(all, groups[g].devs, key, req) ==> key in keys
  }

  lemma {:induction false} GoodLater(all: seq<Device>, groups: seq<Group>, g: Group, key: Key, option: Creation,
                                     req: Request)
    requires GoodSomewhere(all, groups, key, option, req) && Increasing(groups + [g])
    ensures GoodSomewhere(all, groups + [g], key, option, req) && key.numa < g.key
  {
    var k :| 0 <= k < |groups| && GoodOn(all, groups[k], key, option, req);
    assert (groups + [g])[k] == groups[k] && (groups + [g])[|groups|] == g;
  }

  lemma {:induction false} ListMore(all: seq<Device>, front: seq<Group>, last: Group, keys0: seq<Key>,
                                    options0: seq<Creation>, keys1: seq<Key>, options1: seq<Creation>, req: Request)
    requires Increasing(front + [last]) && Listed(all, front, keys0, options0, req)
    requires |keys1| == |options1| && InOrder(keys1)
    requires forall i :: 0 <= i < |keys1| ==> GoodOn(all, last, keys1[i], options1[i], req)
    requires forall key: Key :: key.numa == last.key && GoodKey(all, last.devs, key, req) ==> key in keys1
    ensures Listed(all, front + [last], keys0 + keys1, options0 + options1, req)
  {
    var groups, keys, options := front + [last], keys0 + keys1, options0 + options1;
    var n := |keys0|;
    forall i | 0 <= i < |keys|
      ensures GoodSomewhere(all, groups, keys[i], options[i], req)
      ensures if i < n then keys[i].numa < last.key else keys[i].numa == last.key
    {
      if i < n {
        GoodLater(all, front, last, keys0[i], options0[i], req);
      } else {
        assert GoodOn(all, groups[|front|], keys1[i - n], options1[i - n], req);
      }
    }
    forall i, j | 0 <= i < j < |keys| ensures Before(keys[i], keys[j]) {
      if j < n {
        assert Before(keys0[i], keys0[j]);
      } else if i >= n {
        assert Before(keys1[i - n], keys1[j - n]);
      }
    }
    forall g, key: Key | 0 <= g < |groups| && key.numa == groups[g].key && GoodKey(all, groups[g].devs, key, req)
      ensures key in keys
    {
      assert g < |front| ==> front[g] == groups[g];
    }
  }

  lemma {:induction false} NumaKeysIs(all: seq<Device>, groups: seq<Group>, req: Request)
    requires Increasing(groups)
    ensures Listed(all, groups, NumaKeys(all, groups, req), NumaOptions(all, groups, req), req)
    decreases |groups|
  {
    if groups != [] {
      var n := |groups| - 1;
      var front, last := groups[..n], groups[n];
      var bySize := GroupBy(last.devs, BySize());
      assert groups == front + [last];
      NumaKeysIs(all, front, req);
      SizeLevel(all, last.devs, last.key, req);
      ListMore(all, front, last, NumaKeys(all, front, req), NumaOptions(all, front, req),
               SizeKeys(all, bySize, last.key, req), SizeOptions(all, bySize, last.key, req), req);
    }
  }

  /**
    The options are one for every suitable group of system devices, in order of node and size, and each is
    made of the devices of its group.
   */
  lemma {:induction false} OneOptionPerGroup(all: seq<Device>, req: Request) returns (keys: seq<Key>)
    ensures InOrder(keys) && Match(CreateOptions(all, req), keys, all, req)
    ensures forall key :: key in keys <==> Suitable(all, key, req)
  {
    var groups := GroupBy(Where(all, IsSystem()), ByNuma());
    keys := NumaKeys(all, groups, req);
    var options := NumaOptions(all, groups, req);
    GroupByIs(Where(all, IsSystem()), ByNuma());
    NumaKeysIs(all, groups, req);
    forall i | 0 <= i < |keys|
      ensures Suitable(all, keys[i], req)
      ensures options[i] == Make(Alike(all, keys[i].numa, keys[i].size), keys[i].numa, keys[i].size, req)
    {
      assert GoodSomewhere(all, groups, keys[i], options[i], req);
      var g :| 0 <= g < |groups| && GoodOn(all, groups[g], keys[i], options[i], req);
      UnderAt(groups, g);
      GroupsAreAlike(all, keys[i].numa, keys[i].size);
    }
    forall key: Key | Suitable(all, key, req) ensures key in keys {
      GroupsAreAlike(all, key.numa, key.size);
      var onNode := Under(groups, key.numa);
      assert Sized(onNode, key.size) != [];
      assert onNode != [];
      HasKey(groups, key.numa);
      var g :| 0 <= g < |groups| && groups[g].key == key.numa;
      UnderAt(groups, g);
      assert GoodKey(all, groups[g].devs, key, req);
    }
  }

  // --- What an option holds ------------------------------------------------------------------------------------

  lemma {:induction false} WhereUnique(devs: seq<Device>, p: Device -> bool)
    requires Unique(devs)
    ensures Unique(Where(devs, p)) && forall d :: d in Where(devs, p) <==> d in devs && p(d)
  {
    if devs != [] {
      var n := |devs| - 1;
      WhereUnique(devs[..n], p);
      assert devs == devs[..n] + [devs[n]];
      var r := Where(devs[..n], p);
      forall i | 0 <= i < |r| ensures r[i].name != devs[n].name && r[i].sn != devs[n].sn {
        assert r[i] in devs[..n];
      }
    }
  }

  ghost predicate Distinct(names: seq<string>) { forall i, j :: 0 <= i < j < |names| ==> names[i] != names[j] }

  /**
    For non-negative counts an option holds exactly the requested numbers of data and spare devices, all with
    different names, each a system device of the option's node and of the size its capacity is counted in.
   */
  lemma {:induction false} OptionHolds(all: seq<Device>, key: Key, req: Request)
    requires Unique(all) && Suitable(all, key, req) && req.dataCnt >= 0 && req.spareCnt >= 0
    ensures var o := Make(Alike(all, key.numa, key.size), key.numa, key.size, req);
            && |o.data| == req.dataCnt && |o.spares| == req.spareCnt && Distinct(o.data + o.spares)
            && forall name :: name in o.data + o.spares ==>
                 exists d :: d in all && d.name == name && d.cls == SYSTEM && d.numa == key.numa && d.size == key.size
  {
    var p := (d: Device) => d.cls == SYSTEM && d.numa == key.numa && d.size == key.size;
    var devs := Alike(all, key.numa, key.size);
    var o := Make(devs, key.numa, key.size, req);
    WhereUnique(all, p);
    var used := req.dataCnt + req.spareCnt;
    assert o.data + o.spares == Names(devs[..used]);
    forall name | name in o.data + o.spares
      ensures exists d :: d in all && d.name == name && d.cls == SYSTEM && d.numa == key.numa && d.size == key.size
    {
      var i :| 0 <= i < used && devs[i].name == name;
      assert devs[i] in devs;
    }
  }

  /** After any history of the device list, every option has the requested devices, all with different names. */
  lemma {:induction false} OptionsAfterAnyHistory(ops: seq<Op>, req: Request, o: Creation)
    requires req.dataCnt >= 0 && req.spareCnt >= 0 && o in CreateOptions(Run(ops), req)
    ensures |o.data| == req.dataCnt && |o.spares| == req.spareCnt && Distinct(o.data + o.spares)
    ensures BufferFits(Run(ops), req.buffers, o.numaId)
  {
    var all := Run(ops);
    AlwaysUnique(ops);
    var keys := OneOptionPerGroup(all, req);
    var i :| 0 <= i < |keys| && CreateOptions(all, req)[i] == o;
    assert keys[i] in keys;
    OptionHolds(all, keys[i], req);
  }

  /** The sizes of devices, added up. */
  function TotalSize(devs: seq<Device>): (r: nat) {
    if devs == [] then 0 else TotalSize(devs[..|devs| - 1]) + devs[|devs| - 1].size
  }

  lemma {:induction false} SameSizes(devs: seq<Device>, size: int)
    requires forall i :: 0 <= i < |devs| ==> devs[i].size == size
    ensures TotalSize(devs) == size * |devs|
  {
    if devs != [] { SameSizes(devs[..|devs| - 1], size); }
  }

  /**
    For non-negative counts the data devices of an option are the first ones of its group and the spares the
    next ones, its capacity is the total size of its data devices in 64 bits, and its buffer is the first one given.
   */
  lemma {:induction false} OptionIs(all: seq<Device>, key: Key, req: Request)
    requires Unique(all) && Suitable(all, key, req) && req.dataCnt >= 0 && req.spareCnt >= 0
    ensures var group := Alike(all, key.numa, key.size);
            var o := Make(group, key.numa, key.size, req);
            && req.dataCnt + req.spareCnt <= |group| && o.numaId == key.numa
            && o.data == Names(group[..req.dataCnt])
            && o.spares == Names(group[req.dataCnt..req.dataCnt + req.spareCnt])
            && o.capacity == TotalSize(group[..req.dataCnt]) % LONG
            && (req.buffers == [] ==> o.nvm == []) && (req.buffers != [] ==> o.nvm == [req.buffers[0]])
  {
    var p := (d: Device) => d.cls == SYSTEM && d.numa == key.numa && d.size == key.size;
    var data := Alike(all, key.numa, key.size)[..req.dataCnt];
    WhereUnique(all, p);
    forall i | 0 <= i < |data| ensures data[i].size == key.size {
      assert data[i] in Where(all, p);
    }
    SameSizes(data, key.size);
  }

  /** With unique names, a group is suitable exactly when it is large enough and the first buffer's device is on its node. */
  lemma {:induction false} SuitableIs(all: seq<Device>, key: Key, req: Request)
    requires Unique(all)
    ensures Suitable(all, key, req) <==>
            && |Alike(all, key.numa, key.size)| > 0
            && |Alike(all, key.numa, key.size)| >= req.dataCnt + req.spareCnt
            && (req.buffers != [] ==> exists d :: d in all && d.name == req.buffers[0] && d.numa == key.numa)
  {
    if req.buffers != [] {
      FindNameIs(all, req.buffers[0]);
      if d :| d in all && d.name == req.buffers[0] && d.numa == key.numa { FindNameExact(all, d); }
    }
  }

  /** Filtering keeps the order: of two devices that pass, the one listed first comes first. */
  lemma {:induction false} WhereInOrder(devs: seq<Device>, p: Device -> bool, a: nat, b: nat)
    requires a < b < |devs| && p(devs[a]) && p(devs[b])
    ensures exists i, j :: 0 <= i < j < |Where(devs, p)| && Where(devs, p)[i] == devs[a] && Where(devs, p)[j] == devs[b]
  {
    var n := |devs| - 1;
    var front := Where(devs[..n], p);
    if b == n {
      WhereHas(devs[..n], p, a);
      var i :| 0 <= i < |front| && front[i] == devs[a];
      assert Where(devs, p)[i] == devs[a] && Where(devs, p)[|front|] == devs[b];
    } else {
      WhereInOrder(devs[..n], p, a, b);
      var i, j :| 0 <= i < j < |front| && front[i] == devs[..n][a] && front[j] == devs[..n][b];
      assert Where(devs, p)[i] == devs[a] && Where(devs, p)[j] == devs[b];
    }
  }

  lemma {:induction false} WhereHas(devs: seq<Device>, p: Device -> bool, a: nat)
    requires a < |devs| && p(devs[a])
    ensures devs[a] in Where(devs, p)
  {
    var n := |devs| - 1;
    if a < n {
      WhereHas(devs[..n], p, a);
      assert devs[..n][a] == devs[a];
    }
  }
}
