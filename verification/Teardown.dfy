/** Recursive teardown of buses (Bus.delocate, Server.aclose), and runs of registry operations. */
module Teardown {
  import opened Text
  import opened Registry

  // ---------------------------------------------------------------- live buses below a bus

  ghost function Below(s: Reg, p: BusPath): set<BusPath> {
    set q | q in s.buses && p <= q
  }

  lemma {:induction false} LiveLength(s: Reg, q: BusPath)
    requires TreeValid(s) && q in s.buses
    ensures |q| % 2 == 1
    decreases |q|
  {
    assert Attached(s, q);
    if |q| > 1 {
      LiveLength(s, Parent(q));
    }
  }

  /** A live bus strictly below another has an ancestor, or itself, among that bus's sub-buses. */
  lemma {:induction false} SubAbove(s: Reg, p: BusPath, q: BusPath) returns (c: BusPath)
    requires TreeValid(s) && p in s.buses && q in s.buses && p < q
    ensures c in s.buses[p].subs && c <= q
    decreases |q|
  {
    assert Attached(s, q);
    LiveLength(s, p);
    LiveLength(s, q);
    if |q| == |p| + 2 {
      assert Parent(q) == p;
      c := q;
    } else {
      assert p < Parent(q);
      c := SubAbove(s, p, Parent(q));
    }
  }

  lemma SubBelow(s: Reg, p: BusPath, c: BusPath)
    requires TreeValid(s) && p in s.buses && c in s.buses[p].subs
    ensures c in s.buses && p < c && |c| == |p| + 2 && |c| >= 3 && Parent(c) == p
  {
    assert SubsLive(s, p) && Attached(s, p);
    assert p == c[..|p|];
  }

  // ---------------------------------------------------------------- emptying and dropping one bus

  ghost predicate Unlocated(s: Reg, p: BusPath) {
    forall r :: 0 <= r < |s.objs| ==> s.objs[r].bus != Some(p)
  }

  lemma {:induction false} WithoutGone<T>(s: seq<T>, x: T)
    requires NoRepeats(s)
    ensures x !in Without(s, x) && NoRepeats(Without(s, x))
    ensures forall y :: y in s && y != x ==> y in Without(s, x)
  {
    if s != [] {
      assert s == [s[0]] + s[1..];
      assert NoRepeats(s[1..]);
      assert s[0] !in s[1..];
      if s[0] != x {
        WithoutGone(s[1..], x);
        assert s[0] !in Without(s[1..], x);
      }
    }
  }

  /** No other bus and no top-level entry refers to a dropped bus any more. */
  lemma DropBusRefs(s: Reg, p: BusPath, x: BusPath)
    requires TreeValid(s) && DictsValid(s) && p in s.buses && s.buses[p].subs == [] && x in s.buses && x != p
    ensures var t := DropBus(s, p);
            x in t.buses && p !in t.buses[x].subs && forall c :: c != p ==>
            (c in t.buses[x].subs <==> c in s.buses[x].subs)
  {
    assert SubsLive(s, x) && Attached(s, x);
    WithoutGone(s.buses[x].subs, p);
  }

  lemma DropBusTops(s: Reg, p: BusPath)
    requires TreeValid(s) && DictsValid(s) && p in s.buses
    ensures var t := DropBus(s, p);
            p !in t.tops && (forall c :: c != p ==> (c in t.tops <==> c in s.tops)) &&
            t.buses.Keys == s.buses.Keys - {p}
  {
    hide Parent;
    WithoutGone(s.tops, p);
  }

  lemma DropBusTree(s: Reg, p: BusPath)
    requires TreeValid(s) && DictsValid(s) && p in s.buses && s.buses[p].subs == []
    ensures TreeValid(DropBus(s, p))
  {
    hide Parent, DropBus, DictsValid, Without;
    var t := DropBus(s, p);
    DropBusTops(s, p);
    forall x | x in t.buses ensures SubsLive(t, x) {
      assert SubsLive(s, x);
      DropBusRefs(s, p, x);
    }
    forall x | x in t.buses ensures Attached(t, x) {
      assert Attached(s, x);
      if |x| != 1 {
        DropBusRefs(s, p, Parent(x));
      }
    }
  }

  lemma DropBusDicts(s: Reg, p: BusPath)
    requires DictsValid(s) && p in s.buses
    ensures DictsValid(DropBus(s, p))
  {
    hide Parent;
    WithoutGone(s.tops, p);
    forall x | x in s.buses ensures NoRepeats(Without(s.buses[x].subs, p)) {
      WithoutGone(s.buses[x].subs, p);
    }
  }

  lemma DropBusJournal(s: Reg, p: BusPath)
    requires Journalled(s) && TreeValid(s) && p in s.buses && s.buses[p].subs == [] && Unlocated(s, p)
    ensures Journalled(DropBus(s, p))
  {
    hide Replay, Without, Parent;
    var t := DropBus(s, p);
    ReplayLast(s.log, BusDeleted(p));
    forall q | q in s.buses ensures !(p < q) {
      if p < q {
        var c := SubAbove(s, p, q);
      }
    }
    assert SnapshotOf(t) == SnapshotOf(s).(buses := SnapshotOf(s).buses - {p});
  }

  lemma DropBusValid(s: Reg, p: BusPath)
    requires Valid(s) && p in s.buses && s.buses[p].subs == [] && Unlocated(s, p)
    ensures Valid(DropBus(s, p)) && DropBus(s, p).buses.Keys == s.buses.Keys - {p}
  {
    hide TreeValid, DictsValid, ListingsValid, Journalled, Parent, Without;
    DropBusTree(s, p);
    DropBusDicts(s, p);
    DropBusJournal(s, p);
    ListingsKept(s, DropBus(s, p));
  }

  /** for d in self.devices: d.delocate(bus=self) */
  function DelocateEach(s: Reg, p: BusPath, devs: seq<nat>): Reg
    decreases |devs|
  {
    if devs == [] then s
    else if devs[0] >= |s.objs| || !HasBus(s, p) then DelocateEach(s, p, devs[1..])
    else DelocateEach(Delocate(s, p, devs[0]), p, devs[1..])
  }

  /** Only locations at p are given up; the buses stay, and so do their sub-buses. */
  ghost predicate OnlyLeaves(s: Reg, t: Reg, p: BusPath) {
    t.ids == s.ids && t.tops == s.tops && |t.objs| == |s.objs| && t.buses.Keys == s.buses.Keys &&
    (forall q :: q in s.buses ==> t.buses[q].subs == s.buses[q].subs) &&
    (forall r :: 0 <= r < |s.objs| ==>
       t.objs[r].bus == s.objs[r].bus || (s.objs[r].bus == Some(p) && t.objs[r].bus == None))
  }

  lemma DelocateLeaves(s: Reg, p: BusPath, r: nat)
    requires Valid(s) && p in s.buses && r < |s.objs|
    ensures OnlyLeaves(s, Delocate(s, p, r), p) && Delocate(s, p, r).objs[r].bus != Some(p)
  {
  }

  ghost predicate NoneAt(s: Reg, p: BusPath, devs: seq<nat>) {
    forall x :: x in devs ==> x < |s.objs| && s.objs[x].bus != Some(p)
  }

  ghost predicate Known(s: Reg, devs: seq<nat>) {
    forall x :: x in devs ==> x < |s.objs|
  }

  lemma OnlyLeavesTwice(s: Reg, t: Reg, u: Reg, p: BusPath, r: nat, devs: seq<nat>)
    requires OnlyLeaves(s, t, p) && OnlyLeaves(t, u, p) && devs != [] && r == devs[0] && r < |s.objs|
    requires t.objs[r].bus != Some(p) && NoneAt(u, p, devs[1..])
    ensures OnlyLeaves(s, u, p) && NoneAt(u, p, devs)
  {
    assert devs == [devs[0]] + devs[1..];
  }

  lemma ValidHasBus(s: Reg, p: BusPath)
    requires Valid(s) && p in s.buses
    ensures HasBus(s, p) && Known(s, s.buses[p].devs)
  {
  }

  lemma {:induction false} DelocateEachLeaves(s: Reg, p: BusPath, devs: seq<nat>)
    requires Valid(s) && p in s.buses && Known(s, devs)
    ensures var t := DelocateEach(s, p, devs);
            Valid(t) && OnlyLeaves(s, t, p) && NoneAt(t, p, devs)
    decreases |devs|
  {
    hide Valid, Delocate, HasBus, NoneAt;
    if devs == [] {
      NoneAtEmpty(s, p);
    } else {
      ValidHasBus(s, p);
      assert devs[0] in devs;
      var t := Delocate(s, p, devs[0]);
      DelocateValid(s, p, devs[0]);
      DelocateLeaves(s, p, devs[0]);
      assert forall x :: x in devs[1..] ==> x in devs;
      DelocateEachLeaves(t, p, devs[1..]);
      OnlyLeavesTwice(s, t, DelocateEach(t, p, devs[1..]), p, devs[0], devs);
    }
  }

  lemma NoneAtEmpty(s: Reg, p: BusPath)
    ensures NoneAt(s, p, [])
  {
  }

  // ---------------------------------------------------------------- the recursion

  /** Who is still where, once the buses of a set are gone. */
  ghost predicate Evicted(s: Reg, t: Reg, gone: set<BusPath>) {
    t.ids == s.ids && |t.objs| == |s.objs| && t.buses.Keys == s.buses.Keys - gone &&
    forall r :: 0 <= r < |s.objs| ==>
      t.objs[r].bus == if s.objs[r].bus.Some? && s.objs[r].bus.value in gone then None else s.objs[r].bus
  }

  /** The dictionaries of the buses outside a subtree, after its root has been taken out of its parent's. */
  ghost predicate SubsAfter(s: Reg, t: Reg, p: BusPath) {
    t.tops == Without(s.tops, p) &&
    forall q :: q in t.buses && q in s.buses ==>
      t.buses[q].subs == if |p| >= 3 && q == Parent(p) then Without(s.buses[q].subs, p) else s.buses[q].subs
  }

  ghost predicate TornDown(s: Reg, t: Reg, p: BusPath) {
    Valid(t) && Evicted(s, t, Below(s, p)) && SubsAfter(s, t, p)
  }

  lemma TornValid(s: Reg, t: Reg, p: BusPath)
    requires TornDown(s, t, p)
    ensures Valid(t)
  {
  }

  /** The sub-buses are gone, the bus itself is still there. */
  ghost predicate SubsTorn(s: Reg, t: Reg, p: BusPath) {
    Valid(t) && Evicted(s, t, Below(s, p) - {p}) && t.tops == s.tops && p in t.buses && t.buses[p].subs == [] &&
    forall q :: q in t.buses && q in s.buses && q != p ==> t.buses[q].subs == s.buses[q].subs
  }

  lemma EvictedTwice(s: Reg, t: Reg, u: Reg, a: set<BusPath>, b: set<BusPath>)
    requires Evicted(s, t, a) && Evicted(t, u, b)
    ensures Evicted(s, u, a + b)
  {
  }

  lemma {:induction false} WithoutAbsent<T>(s: seq<T>, x: T)
    requires x !in s
    ensures Without(s, x) == s
  {
    if s != [] {
      WithoutAbsent(s[1..], x);
    }
  }

  lemma BelowChild(s: Reg, t: Reg, p: BusPath, c: BusPath)
    requires p < c && t.buses.Keys == s.buses.Keys - Below(s, c)
    ensures Below(s, c) <= Below(s, p) - {p} && Below(t, p) == Below(s, p) - Below(s, c)
    ensures p in s.buses ==> p in t.buses
  {
  }

  lemma ChildTorn(s: Reg, p: BusPath, c: BusPath, t: Reg)
    requires Valid(s) && p in s.buses && s.buses[p].subs != [] && c == s.buses[p].subs[0] && c in s.buses
    requires TornDown(s, t, c)
    ensures p in t.buses && t.tops == s.tops && t.buses[p].subs == s.buses[p].subs[1..]
    ensures Below(s, c) <= Below(s, p) - {p} && Below(t, p) == Below(s, p) - Below(s, c)
    ensures forall q :: q in t.buses && q in s.buses && q != p ==> t.buses[q].subs == s.buses[q].subs
  {
    hide Valid, Parent, Below, TreeValid, Evicted;
    ValidParts(s);
    SubBelow(s, p, c);
    NotATop(s, c);
    WithoutAbsent(s.tops, c);
    EvictedKeys(s, t, Below(s, c));
    BelowChild(s, t, p, c);
  }

  lemma NotATop(s: Reg, c: BusPath)
    requires TreeValid(s) && |c| >= 2
    ensures c !in s.tops
  {
  }

  lemma SubsTornTwice(s: Reg, p: BusPath, c: BusPath, t: Reg, u: Reg)
    requires Valid(s) && p in s.buses && s.buses[p].subs != [] && c == s.buses[p].subs[0] && c in s.buses
    requires TornDown(s, t, c) && p in t.buses && SubsTorn(t, u, p)
    ensures SubsTorn(s, u, p)
  {
    hide Valid, Evicted;
    ChildTorn(s, p, c, t);
    EvictedTwice(s, t, u, Below(s, c), Below(t, p) - {p});
    assert Below(s, c) + (Below(t, p) - {p}) == Below(s, p) - {p};
    EvictedKeys(s, u, Below(s, p) - {p});
    EvictedKeys(t, u, Below(t, p) - {p});
  }

  lemma EvictedKeys(s: Reg, t: Reg, gone: set<BusPath>)
    requires Evicted(s, t, gone)
    ensures t.buses.Keys == s.buses.Keys - gone
  {
  }

  /** The loop over the sub-buses. */
  ghost function TearSubs(s: Reg, p: BusPath): (t: Reg)
    requires Valid(s) && p in s.buses
    ensures SubsTorn(s, t, p)
    decreases Below(s, p), 0
  {
    if s.buses[p].subs == [] then
      NothingBelow(s, p);
      s
    else
      var c := s.buses[p].subs[0];
      ChildShrinks(s, p, c);
      var t := TearDown(s, c);
      ChildTorn(s, p, c, t);
      var u := TearSubs(t, p);
      SubsTornTwice(s, p, c, t, u);
      u
  }

  /** Bus.delocate: the sub-buses, then the devices located here, then the bus. */
  ghost function TearDown(s: Reg, p: BusPath): (t: Reg)
    requires Valid(s) && p in s.buses
    ensures TornDown(s, t, p)
    decreases Below(s, p), 1
  {
    var t := TearSubs(s, p);
    RootTorn(s, t, p);
    DropBus(DelocateEach(t, p, t.buses[p].devs), p)
  }

  lemma ChildShrinks(s: Reg, p: BusPath, c: BusPath)
    requires Valid(s) && p in s.buses && c in s.buses[p].subs
    ensures c in s.buses && Below(s, c) < Below(s, p) && c in Below(s, c)
  {
    hide Valid;
    ValidParts(s);
    SubBelow(s, p, c);
    assert p in Below(s, p) && p !in Below(s, c);
  }

  lemma NothingBelow(s: Reg, p: BusPath)
    requires Valid(s) && p in s.buses && s.buses[p].subs == []
    ensures Below(s, p) == {p} && SubsTorn(s, s, p)
  {
    hide Valid;
    ValidParts(s);
    forall q | q in Below(s, p) ensures q == p {
      if p < q {
        var c := SubAbove(s, p, q);
      }
    }
  }

  lemma DropEvicts(t: Reg, u: Reg, p: BusPath)
    requires p in t.buses && OnlyLeaves(t, u, p) && Unlocated(u, p)
    ensures p in u.buses && Evicted(t, DropBus(u, p), {p}) && SubsAfter(t, DropBus(u, p), p)
  {
  }

  lemma EachDeviceLeaves(t: Reg, p: BusPath)
    requires Valid(t) && p in t.buses && t.buses[p].subs == []
    ensures var u := DelocateEach(t, p, t.buses[p].devs);
            Valid(u) && OnlyLeaves(t, u, p) && Unlocated(u, p) && p in u.buses && u.buses[p].subs == []
  {
    hide Valid, DelocateEach;
    ValidHasBus(t, p);
    DelocateEachLeaves(t, p, t.buses[p].devs);
    LocatedAreListed(t, p);
  }

  lemma RootTorn(s: Reg, t: Reg, p: BusPath)
    requires Valid(s) && p in s.buses && SubsTorn(s, t, p)
    ensures var u := DelocateEach(t, p, t.buses[p].devs);
            p in u.buses && TornDown(s, DropBus(u, p), p)
  {
    hide Valid, DelocateEach, Parent, Without, DropBus, Evicted, OnlyLeaves, Unlocated;
    var u := DelocateEach(t, p, t.buses[p].devs);
    EachDeviceLeaves(t, p);
    DropBusValid(u, p);
    DropEvicts(t, u, p);
    EvictedTwice(s, t, DropBus(u, p), Below(s, p) - {p}, {p});
    assert Below(s, p) == Below(s, p) - {p} + {p};
    EvictedKeys(s, t, Below(s, p) - {p});
    EvictedKeys(t, DropBus(u, p), {p});
  }

  lemma LocatedAreListed(s: Reg, p: BusPath)
    requires Valid(s) && p in s.buses
    ensures forall r :: 0 <= r < |s.objs| && s.objs[r].bus == Some(p) ==> r in s.buses[p].devs
  {
  }

  // ---------------------------------------------------------------- Server.aclose

  lemma {:induction false} TopAbove(s: Reg, q: BusPath) returns (t: BusPath)
    requires TreeValid(s) && q in s.buses
    ensures t in s.tops && t <= q
    decreases |q|
  {
    assert Attached(s, q);
    if |q| == 1 {
      t := q;
    } else {
      t := TopAbove(s, Parent(q));
    }
  }

  /** Nothing of the server is left: no bus is live, and every device object is unlocated. */
  ghost predicate Closed(s: Reg, t: Reg) {
    Valid(t) && t.ids == s.ids && |t.objs| == |s.objs| && t.buses.Keys == {} &&
    forall r :: 0 <= r < |t.objs| ==> t.objs[r].bus == None
  }

  lemma NoTopsClosed(s: Reg)
    requires Valid(s) && s.tops == []
    ensures Closed(s, s)
  {
    hide Replay;
    forall q | q in s.buses ensures false {
      var t := TopAbove(s, q);
    }
  }

  /** The loop over the server's buses. */
  ghost function CloseServer(s: Reg): (t: Reg)
    requires Valid(s)
    ensures Closed(s, t)
    decreases |s.tops|
  {
    if s.tops == [] then
      NoTopsClosed(s);
      s
    else
      TopIsLive(s, s.tops[0]);
      var t := TearDown(s, s.tops[0]);
      EvictedKeys(s, t, Below(s, s.tops[0]));
      CloseServer(t)
  }

  function Count(log: seq<Event>, e: Event): nat {
    if log == [] then 0 else Count(log[..|log| - 1], e) + (if log[|log| - 1] == e then 1 else 0)
  }

  /** In a faithful journal, a bus has been deleted as often as it has been added, plus one if it is live. */
  lemma {:induction false} BusEventsBalance(log: seq<Event>, p: BusPath)
    requires Replay(log).Some?
    ensures Count(log, BusAdded(p)) == Count(log, BusDeleted(p)) + if p in Replay(log).value.buses then 1 else 0
  {
    if log != [] {
      BusEventsBalance(log[..|log| - 1], p);
    }
  }

  /** When a bus is deleted, no bus below it is live any more and no device is located at it. */
  lemma BusDeletedLast(log: seq<Event>, i: nat, p: BusPath)
    requires Replay(log).Some? && i < |log| && log[i] == BusDeleted(p)
    ensures var before := Replay(log[..i]);
            before.Some? && p in before.value.buses &&
            (forall q :: q in before.value.buses ==> !(p < q)) &&
            (forall id :: id in before.value.devs ==> before.value.devs[id] != Some(p))
  {
    ReplayPrefix(log, i + 1);
    assert log[..i + 1][..i] == log[..i];
  }

  lemma {:induction false} ReplayPrefix(log: seq<Event>, n: nat)
    requires Replay(log).Some? && n <= |log|
    ensures Replay(log[..n]).Some?
  {
    if n < |log| {
      ReplayPrefix(log[..|log| - 1], n);
      assert log[..|log| - 1][..n] == log[..n];
    } else {
      assert log[..n] == log;
    }
  }

  /** Closing a server announces exactly one deletion for each bus it ever announced. */
  lemma CloseBalances(s: Reg, p: BusPath)
    requires Valid(s)
    ensures Count(CloseServer(s).log, BusAdded(p)) == Count(CloseServer(s).log, BusDeleted(p))
  {
    hide Replay;
    BusEventsBalance(CloseServer(s).log, p);
  }

  // ---------------------------------------------------------------- runs

  datatype Op =
    | Register(id: string)                 // get_device
    | Alarm(path: BusPath, id: string)     // poll_alarm: get_device, then add_device
    | OpenTop(name: string)                // Server.get_bus
    | OpenPort(path: BusPath, id: string, port: string)
    | ScanAll(names: seq<(string, Dir)>)
    | ScanBus(path: BusPath, dir: Dir)
    | Lose(path: BusPath, dev: nat)        // Device.delocate
    | Add(path: BusPath, dev: nat)         // add_device
    | Delete(dev: nat)                     // delete_device, unless it raises
    | Setup(structs: Structs)              // classes set up elsewhere; what the server publishes

  /** What the code asks of its callers; of add_device and delete_device also that the journal survives, which
      AddDeviceValid and DeleteDeviceValid say exactly. */
  ghost predicate Allowed(s: Reg, op: Op) {
    match op
    case Register(id) => Canonical(id)
    case Alarm(p, id) => p in s.buses && Canonical(id)
    case OpenTop(_) => true
    case OpenPort(p, _, _) => p in s.buses
    case ScanAll(names) => forall e :: e in names ==> CanonicalDir(e.1)
    case ScanBus(p, d) => p in s.buses && CanonicalDir(d)
    case Lose(p, r) => p in s.buses && r < |s.objs|
    case Add(p, r) => p in s.buses && IsRegistered(s, r)
    case Delete(r) => r < |s.objs| && (s.objs[r].bus.None? ==> !IsLocated(s, s.objs[r].id))
    case Setup(c) => (c.Off? <==> s.structs.Off?) && (c.On? ==> s.structs.ready <= c.ready)
  }

  /** What the operation does; the guards are for the exceptions that Allowed and the invariant rule out. */
  function Apply(s: Reg, op: Op): Reg {
    match op
    case Register(id) => if DeviceOf(s, id).Some? then DeviceOf(s, id).value.0 else s
    case Alarm(p, id) =>
      if DeviceOf(s, id).None? then s
      else
        var (t, r) := DeviceOf(s, id).value;
        if HasBus(t, p) && r < |t.objs| then AddDevice(t, p, r) else t
    case OpenTop(name) => GetTopBus(s, name)
    case OpenPort(p, id, port) => if p in s.buses then GetSubBus(s, p, id, port) else s
    case ScanAll(names) => ScanBase(s, names).0
    case ScanBus(p, d) => Scan(s, p, d).0
    case Lose(p, r) => if HasBus(s, p) && r < |s.objs| then Delocate(s, p, r) else s
    case Add(p, r) => if HasBus(s, p) && r < |s.objs| then AddDevice(s, p, r) else s
    case Delete(r) => if r < |s.objs| && DeleteDevice(s, r).Some? then DeleteDevice(s, r).value else s
    case Setup(c) => s.(structs := c)
  }

  lemma ApplyValid(s: Reg, op: Op)
    requires Valid(s) && Allowed(s, op)
    ensures Valid(Apply(s, op))
  {
    hide Valid, GetDevice, GetTopBus, GetSubBus, Scan, ScanBase, Delocate, IsId;
    match op
    case Register(id) => GetDeviceValid(s, id);
    case Alarm(p, id) =>
      GetDeviceValid(s, id);
      GetDeviceFacts(s, id);
      var (t, r) := GetDevice(s, id);
      ValidHasBus(t, p);
      ValidParts(t);
      AddDeviceValid(t, p, r);
    case OpenTop(name) => GetTopBusValid(s, name);
    case OpenPort(p, id, port) => GetSubBusValid(s, p, id, port);
    case ScanAll(names) => ScanBaseValid(s, names);
    case ScanBus(p, d) => ScanValid(s, p, d);
    case Lose(p, r) =>
      ValidHasBus(s, p);
      DelocateValid(s, p, r);
    case Add(p, r) =>
      ValidHasBus(s, p);
      AddDeviceValid(s, p, r);
    case Delete(r) => DeleteDeviceValid(s, r);
    case Setup(c) => StructsValid(s, c);
  }

  function Empty(structs: Structs): Reg {
    Reg([], map[], map[], [], [], structs)
  }

  /** A history of the registry, from its creation, whatever classes had been set up before. */
  ghost predicate IsHistory(states: seq<Reg>, ops: seq<Op>) {
    |states| == |ops| + 1 && states[0] == Empty(states[0].structs) &&
    forall i :: 0 <= i < |ops| ==> Allowed(states[i], ops[i]) && states[i + 1] == Apply(states[i], ops[i])
  }

  lemma EmptyValid(structs: Structs)
    ensures Valid(Empty(structs))
  {
    assert SnapshotOf(Empty(structs)) == Snapshot(map[], {});
  }

  /** The journal is faithful in every reachable state: replaying it gives the registered ids with each device's
      current bus, and the live buses; and a located device is where its bus's dictionary has it. */
  lemma {:induction false} JournalFaithful(states: seq<Reg>, ops: seq<Op>, k: nat)
    requires IsHistory(states, ops) && k <= |ops|
    ensures Valid(states[k])
    ensures Replay(states[k].log) == Some(SnapshotOf(states[k]))
  {
    hide Replay, Apply, Allowed;
    if k == 0 {
      EmptyValid(states[0].structs);
    } else {
      JournalFaithful(states, ops, k - 1);
      assert Allowed(states[k - 1], ops[k - 1]);
      ApplyValid(states[k - 1], ops[k - 1]);
    }
  }

  /** Closing the server after any history leaves no device located and no bus live, and has announced for every
      bus exactly as many deletions as additions. */
  lemma CloseAfterHistory(states: seq<Reg>, ops: seq<Op>, p: BusPath)
    requires IsHistory(states, ops)
    ensures Valid(states[|ops|]) && Closed(states[|ops|], CloseServer(states[|ops|]))
    ensures var log := CloseServer(states[|ops|]).log;
            Replay(log).Some? && Count(log, BusAdded(p)) == Count(log, BusDeleted(p))
  {
    hide Replay, Apply, Allowed;
    JournalFaithful(states, ops, |ops|);
    CloseBalances(states[|ops|], p);
  }
}
