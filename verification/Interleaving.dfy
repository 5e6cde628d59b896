/** The registry between the awaits of scans and of teardowns, where other tasks may run: exactly which sequences of
    their atomic actions keep the event stream a faithful journal (asyncowfs/bus.py, device.py, service.py). */
module Interleaving {
  import opened Text
  import opened Registry
  import S = ScanTree
  import T = Teardown
  import L = LeftBehind

  // ---------------------------------------------------------------- actions

  /** What a task does between two awaits. A device is located and enters the dictionary in two actions. */
  datatype Act =
    | Make(id: string)                                // get_device
    | Ensure(name: string)                            // ensure_struct
    | Move(path: BusPath, dev: nat)                   // Device.locate
    | Enter(path: BusPath, dev: nat)                  // devices[id] = dev
    | Count(dev: nat, unseen: nat)
    | Lose(path: BusPath, dev: nat)                   // Device.delocate
    | OpenTop(name: string)
    | OpenPort(path: BusPath, id: string, port: string)
    | Delete(dev: nat)                                // delete_device
    | Drop(path: BusPath)                             // the end of Bus.delocate

  function Entered(s: Reg, p: BusPath, r: nat): Reg
    requires HasBus(s, p) && r < |s.objs|
  {
    s.(buses := s.buses[p := s.buses[p].(devs := WithEntry(s.objs, s.buses[p].devs, r))])
  }

  /** The action concerns device objects ever made and, but for locating, a live bus; and it does not raise. */
  ghost predicate Enabled(s: Reg, a: Act) {
    match a
    case Make(id) => id in s.ids || IsId(id)
    case Ensure(name) => Loads(s.structs, Family(name))
    case Move(_, r) => r < |s.objs|
    case Enter(p, r) => HasBus(s, p) && r < |s.objs|
    case Count(r, _) => r < |s.objs|
    case Lose(p, r) => HasBus(s, p) && r < |s.objs| && (s.objs[r].bus == Some(p) ==> S.ListsId(s, p, s.objs[r].id))
    case OpenTop(_) => true
    case OpenPort(p, _, _) => p in s.buses
    case Delete(r) => r < |s.objs| && DeleteDevice(s, r).Some?
    case Drop(p) => p in s.buses
  }

  ghost function Do(s: Reg, a: Act): Reg
    requires Enabled(s, a)
  {
    match a
    case Make(id) => GetDevice(s, id).0
    case Ensure(name) => EnsureStruct(s, name).0
    case Move(p, r) => Locate(s, p, r)
    case Enter(p, r) => Entered(s, p, r)
    case Count(r, n) => SetUnseen(s, r, n)
    case Lose(p, r) => Delocate(s, p, r)
    case OpenTop(name) => GetTopBus(s, name)
    case OpenPort(p, id, port) => GetSubBus(s, p, id, port)
    case Delete(r) => DeleteDevice(s, r).value
    case Drop(p) => DropBus(s, p)
  }

  /** What the code does not see to: that get_device does not make a second object for an id, that a device to be
      located is still registered and its bus still live, that no registered device is deleted while it is located,
      and that no bus is announced deleted before the buses below it and the devices at it are gone. */
  ghost predicate InPlace(s: Reg, a: Act)
    requires Enabled(s, a)
  {
    match a
    case Make(id) => WellSpelled(s, id)
    case Move(p, r) => s.objs[r].bus == Some(p) || (p in s.buses && IsRegistered(s, r))
    case Delete(r) => !IsLocated(s, s.objs[r].id)
    case Drop(p) => s.buses[p].subs == [] && T.Unlocated(s, p)
    case _ => true
  }

  // ---------------------------------------------------------------- what holds in between

  /** As in a valid registry, but a located device need not be in its bus's dictionary yet. */
  ghost predicate LocationsLive(s: Reg) {
    forall r :: 0 <= r < |s.objs| && s.objs[r].bus.Some? ==> IsRegistered(s, r) && s.objs[r].bus.value in s.buses
  }

  ghost predicate Between(s: Reg) {
    IdsValid(s) && LocationsLive(s) && ListingsValid(s) && TreeValid(s) && DictsValid(s) && Journalled(s)
  }

  /** It is valid again exactly when every located device has been entered. */
  lemma ValidIffEntered(s: Reg)
    ensures Valid(s) <==>
            Between(s) && forall r :: 0 <= r < |s.objs| && s.objs[r].bus.Some? && s.objs[r].bus.value in s.buses ==>
              r in s.buses[s.objs[r].bus.value].devs
  {
    hide Journalled, TreeValid, DictsValid, ListingsValid;
  }

  /** Actions that change neither ids, nor locations, nor live buses. */
  lemma QuietJournal(s: Reg, t: Reg)
    requires Journalled(s) && t.log == s.log && t.ids == s.ids && t.buses.Keys == s.buses.Keys && |t.objs| == |s.objs|
    requires forall r :: 0 <= r < |s.objs| ==> t.objs[r].id == s.objs[r].id && t.objs[r].bus == s.objs[r].bus
    ensures Journalled(t)
  {
    hide Replay;
    assert SnapshotOf(t) == SnapshotOf(s);
  }

  lemma DropJournalledIff(s: Reg, p: BusPath)
    requires Between(s) && p in s.buses
    ensures Journalled(DropBus(s, p)) <==> s.buses[p].subs == [] && T.Unlocated(s, p)
  {
    hide Replay, Without, Parent, TreeValid, DictsValid, ListingsValid;
    ReplayLast(s.log, BusDeleted(p));
    if s.buses[p].subs != [] {
      T.SubBelow(s, p, s.buses[p].subs[0]);
    } else if T.Unlocated(s, p) {
      T.DropBusJournal(s, p);
    } else {
      var r :| 0 <= r < |s.objs| && s.objs[r].bus == Some(p);
      assert SnapshotOf(s).devs[s.objs[r].id] == Some(p);
    }
  }

  lemma DoJournalledIff(s: Reg, a: Act)
    requires Between(s) && Enabled(s, a)
    ensures Journalled(Do(s, a)) <==> InPlace(s, a)
  {
    hide Journalled, ListingsValid, WithEntry, GetDevice, Delocate, Locate, DeleteDevice, DistinctIds, WellSpelled,
         Loads, DropBus, T.Unlocated, IsLocated, S.ListsId;
    match a
    case Make(id) => GetDeviceJournalledIff(s, id);
    case Ensure(name) => QuietJournal(s, Do(s, a));
    case Move(p, r) => LocateJournalledIff(s, p, r);
    case Enter(p, r) => QuietJournal(s, Do(s, a));
    case Count(r, n) => QuietJournal(s, Do(s, a));
    case Lose(p, r) => DelocateJournal(s, p, r);
    case OpenTop(name) =>
      if [name] !in s.tops {
        NotListedNotLive(s, [name]);
        BusAddedJournal(s, [name], Do(s, a));
      }
    case OpenPort(p, id, port) =>
      PortParent(s, p, id, port);
      if Port(p, id, port) !in s.buses[p].subs {
        NotListedNotLive(s, Port(p, id, port));
        BusAddedJournal(s, Port(p, id, port), Do(s, a));
      }
    case Delete(r) => DeleteDeviceJournalledIff(s, r);
    case Drop(p) => DropJournalledIff(s, p);
  }

  /** An action keeps what holds in between, whoever does it, exactly if it is in place; otherwise it breaks the
      journal. */
  lemma DoKeepsIff(s: Reg, a: Act)
    requires Between(s) && Enabled(s, a)
    ensures Between(Do(s, a)) <==> InPlace(s, a)
    ensures Journalled(Do(s, a)) <==> InPlace(s, a)
  {
    hide InPlace, Enabled, Do, TreeValid, DictsValid, ListingsValid, LocationsLive, Journalled;
    DoJournalledIff(s, a);
    if InPlace(s, a) {
      DoShape(s, a);
      DoListings(s, a);
      DoLocations(s, a);
    }
  }

  lemma DoShape(s: Reg, a: Act)
    requires Between(s) && Enabled(s, a) && InPlace(s, a)
    ensures TreeValid(Do(s, a)) && DictsValid(Do(s, a))
  {
    hide TreeValid, DictsValid, Journalled, ListingsValid, WithEntry, WithoutId, DistinctIds, Upper, Loads, IsId,
         Parent, DropBus, S.ListsId;
    var t := Do(s, a);
    match a
    case OpenTop(name) =>
      if [name] !in s.tops {
        NotListedNotLive(s, [name]);
        NewTopTree(s, [name], t);
        NewTopDicts(s, [name], t);
      }
    case OpenPort(p, id, port) =>
      PortParent(s, p, id, port);
      if Port(p, id, port) !in s.buses[p].subs {
        NotListedNotLive(s, Port(p, id, port));
        NewBusTree(s, p, Port(p, id, port), t);
        NewBusDicts(s, p, Port(p, id, port), t);
      }
    case Drop(p) =>
      T.DropBusTree(s, p);
      T.DropBusDicts(s, p);
    case _ => ShapeKept(s, t);
  }

  /** Buses keep their dictionaries, and new ones have none. */
  lemma SameListings(s: Reg, t: Reg)
    requires ListingsValid(s) && SameIds(s.objs, t.objs)
    requires forall p :: p in t.buses ==>
               (p in s.buses && t.buses[p].devs == s.buses[p].devs) || t.buses[p].devs == []
    ensures ListingsValid(t)
  {
    ListingsKept(s, t);
  }

  lemma DoListings(s: Reg, a: Act)
    requires Between(s) && Enabled(s, a)
    ensures ListingsValid(Do(s, a))
  {
    hide TreeValid, DictsValid, Journalled, WithEntry, WithoutId, Upper, Loads, IsId, Parent, LocationsLive,
         WithReady, S.ListsId, Without, DistinctIds, ListingsValid;
    var t := Do(s, a);
    match a
    case Enter(p, r) => ListingsKept(s, t);
    case Lose(p, r) =>
      if s.objs[r].bus == Some(p) {
        DistinctStays(s.objs, t.objs, t.buses[p].devs);
        ListingsKept(s, t);
      }
    case _ => SameListings(s, t);
  }

  lemma DoLocations(s: Reg, a: Act)
    requires Between(s) && Enabled(s, a) && InPlace(s, a)
    ensures IdsValid(Do(s, a)) && LocationsLive(Do(s, a))
  {
    hide TreeValid, DictsValid, Journalled, ListingsValid, WithEntry, WithoutId, DistinctIds, Loads, IsId, Upper,
         S.ListsId, Without, Parent;
  }

  // ---------------------------------------------------------------- runs of actions

  /** Actions of any number of tasks, in the order in which they happen. */
  ghost predicate IsRun(s: Reg, acts: seq<Act>)
    decreases |acts|
  {
    acts == [] || (Enabled(s, acts[0]) && IsRun(Do(s, acts[0]), acts[1..]))
  }

  ghost function After(s: Reg, acts: seq<Act>): Reg
    requires IsRun(s, acts)
    decreases |acts|
  {
    if acts == [] then s else After(Do(s, acts[0]), acts[1..])
  }

  /** Each action is in place when it happens. */
  ghost predicate AllInPlace(s: Reg, acts: seq<Act>)
    requires IsRun(s, acts)
    decreases |acts|
  {
    acts == [] || (InPlace(s, acts[0]) && AllInPlace(Do(s, acts[0]), acts[1..]))
  }

  /** After each of the actions, replaying the events gives the registered ids, each device's current bus, and the live
      buses. */
  ghost predicate JournalledThroughout(s: Reg, acts: seq<Act>) {
    forall k :: 0 <= k <= |acts| ==> IsRun(s, acts[..k]) && Journalled(After(s, acts[..k]))
  }

  lemma NoActs(s: Reg)
    ensures IsRun(s, []) && After(s, []) == s && AllInPlace(s, [])
  {
  }

  lemma FirstOfRun(s: Reg, acts: seq<Act>, k: nat)
    requires 0 < k <= |acts| && Enabled(s, acts[0])
    ensures IsRun(s, acts[..k]) <==> IsRun(Do(s, acts[0]), acts[1..][..k - 1])
    ensures IsRun(s, acts[..k]) ==> After(s, acts[..k]) == After(Do(s, acts[0]), acts[1..][..k - 1])
  {
    hide Enabled, Do;
    assert acts[..k][0] == acts[0] && acts[..k][1..] == acts[1..][..k - 1];
  }

  lemma ThroughoutFirst(s: Reg, acts: seq<Act>)
    requires acts != [] && Enabled(s, acts[0])
    ensures JournalledThroughout(s, acts) <==> Journalled(s) && JournalledThroughout(Do(s, acts[0]), acts[1..])
  {
    hide Enabled, Do, Journalled;
    NoActs(s);
    assert acts[..0] == [];
    forall k | 0 < k <= |acts|
      ensures IsRun(s, acts[..k]) <==> IsRun(Do(s, acts[0]), acts[1..][..k - 1])
      ensures IsRun(s, acts[..k]) ==> After(s, acts[..k]) == After(Do(s, acts[0]), acts[1..][..k - 1]) {
      FirstOfRun(s, acts, k);
    }
    if JournalledThroughout(s, acts) {
      assert IsRun(s, acts[..0]) && Journalled(After(s, acts[..0]));
      forall k | 0 <= k <= |acts[1..]|
        ensures IsRun(Do(s, acts[0]), acts[1..][..k]) && Journalled(After(Do(s, acts[0]), acts[1..][..k])) {
        assert IsRun(s, acts[..k + 1]) && Journalled(After(s, acts[..k + 1]));
      }
    }
    if Journalled(s) && JournalledThroughout(Do(s, acts[0]), acts[1..]) {
      forall k | 0 <= k <= |acts| ensures IsRun(s, acts[..k]) && Journalled(After(s, acts[..k])) {
        if k > 0 {
          assert IsRun(Do(s, acts[0]), acts[1..][..k - 1]);
        }
      }
    }
  }

  /** In any run of any tasks' actions, in whatever order they come, the event stream is a faithful journal throughout
      if and only if each action is in place when it happens. */
  lemma {:induction false} JournalBetween(s: Reg, acts: seq<Act>)
    requires Between(s) && IsRun(s, acts)
    ensures JournalledThroughout(s, acts) <==> AllInPlace(s, acts)
    ensures AllInPlace(s, acts) ==> Between(After(s, acts))
    decreases |acts|
  {
    hide Do, Enabled, InPlace, TreeValid, DictsValid, ListingsValid, LocationsLive, Replay, SnapshotOf,
         JournalledThroughout;
    if acts == [] {
      ThroughoutNone(s);
    } else {
      ThroughoutFirst(s, acts);
      DoKeepsIff(s, acts[0]);
      if InPlace(s, acts[0]) {
        JournalBetween(Do(s, acts[0]), acts[1..]);
      } else {
        ThroughoutStart(Do(s, acts[0]), acts[1..]);
      }
    }
  }

  lemma ThroughoutNone(s: Reg)
    ensures JournalledThroughout(s, []) <==> Journalled(s)
  {
    var none: seq<Act> := [];
    assert none[..0] == none;
    NoActs(s);
  }

  lemma ThroughoutStart(s: Reg, acts: seq<Act>)
    ensures JournalledThroughout(s, acts) ==> Journalled(s)
  {
    NoActs(s);
    assert acts[..0] == [];
  }

  // ---------------------------------------------------------------- a run that breaks the journal

  /** While a scan brings a device that is new, another task deletes it as soon as it hears DeviceAdded: nothing is
      raised, since the device is located nowhere yet. The scan then locates the deleted device. */
  lemma DeletedBeforeLocated(s: Reg, p: BusPath, id: string)
    requires Between(s) && p in s.buses && IsId(id) && id !in s.ids && Upper(id) !in s.ids
    ensures var acts := [Make(id), Delete(|s.objs|), Move(p, |s.objs|)];
            IsRun(s, acts) && JournalledThroughout(s, acts[..2]) && !Journalled(After(s, acts))
  {
    hide IsId, Upper, Between, Locate, JournalledThroughout;
    var r := |s.objs|;
    var t := Do(s, Make(id));
    DoKeepsIff(s, Make(id));
    var u := Do(t, Delete(r));
    DoKeepsIff(t, Delete(r));
    DoKeepsIff(u, Move(p, r));
    Running(s, Make(id), []);
    Running(t, Delete(r), []);
    Running(s, Make(id), [Delete(r)]);
    Running(u, Move(p, r), []);
    Running(t, Delete(r), [Move(p, r)]);
    Running(s, Make(id), [Delete(r), Move(p, r)]);
    var acts := [Make(id), Delete(r), Move(p, r)];
    assert acts[..2] == [Make(id), Delete(r)];
    JournalBetween(s, acts[..2]);
  }

  lemma Running(s: Reg, a: Act, acts: seq<Act>)
    requires Enabled(s, a) && IsRun(Do(s, a), acts)
    ensures IsRun(s, [a] + acts) && After(s, [a] + acts) == After(Do(s, a), acts)
    ensures AllInPlace(s, [a] + acts) <==> InPlace(s, a) && AllInPlace(Do(s, a), acts)
  {
    hide Enabled, Do, InPlace;
    assert ([a] + acts)[0] == a && ([a] + acts)[1..] == acts;
  }

  /** It is possible from the start. */
  lemma DeletedUnderScan(structs: Structs) returns (s: Reg, acts: seq<Act>)
    ensures s == GetTopBus(T.Empty(structs), "bus.0") && Between(s)
    ensures acts == [Make("10.0.0"), Delete(0), Move(["bus.0"], 0)] && IsRun(s, acts)
    ensures JournalledThroughout(s, acts[..2]) && !JournalledThroughout(s, acts)
  {
    hide IsId, Valid, Between;
    s, acts := GetTopBus(T.Empty(structs), "bus.0"), [Make("10.0.0"), Delete(0), Move(["bus.0"], 0)];
    T.EmptyValid(structs);
    GetTopBusValid(T.Empty(structs), "bus.0");
    ValidIffEntered(s);
    L.ExampleExists();
    DeletedBeforeLocated(s, ["bus.0"], "10.0.0");
    assert acts[..3] == acts;
  }

  // ---------------------------------------------------------------- scans and teardowns are such runs

  /** Undisturbed, the actions lead from one registry to the other, each in place. */
  ghost predicate Does(s: Reg, acts: seq<Act>, t: Reg) {
    IsRun(s, acts) && AllInPlace(s, acts) && After(s, acts) == t
  }

  lemma DoesNothing(s: Reg)
    ensures Does(s, [], s)
  {
  }

  lemma DoesOne(s: Reg, a: Act)
    requires Enabled(s, a) && InPlace(s, a)
    ensures Does(s, [a], Do(s, a))
  {
    hide Enabled, Do, InPlace;
    NoActs(Do(s, a));
    Running(s, a, []);
    assert [a] + [] == [a];
  }

  lemma {:induction false} DoesBoth(s: Reg, a: seq<Act>, t: Reg, b: seq<Act>, u: Reg)
    requires Does(s, a, t) && Does(t, b, u)
    ensures Does(s, a + b, u)
    decreases |a|
  {
    hide Enabled, Do, InPlace;
    if a == [] {
      assert a + b == b;
    } else {
      assert (a + b)[0] == a[0] && (a + b)[1..] == a[1..] + b;
      DoesBoth(Do(s, a[0]), a[1..], t, b, u);
    }
  }

  /** Bus.add_device: located, then entered. */
  lemma AddActs(s: Reg, p: BusPath, r: nat)
    requires HasBus(s, p) && IsRegistered(s, r)
    ensures Does(s, [Move(p, r), Enter(p, r)], AddDevice(s, p, r))
  {
    hide WithEntry, DistinctIds, Does;
    var t := Locate(s, p, r);
    WithEntryIds(s.objs, t.objs, s.buses[p].devs, r);
    DoesOne(s, Move(p, r));
    DoesOne(t, Enter(p, r));
    DoesBoth(s, [Move(p, r)], t, [Enter(p, r)], AddDevice(s, p, r));
    assert [Move(p, r)] + [Enter(p, r)] == [Move(p, r), Enter(p, r)];
  }

  lemma ReadyActs(s: Reg, name: string) returns (acts: seq<Act>)
    requires Valid(s) && Canonical(name) && IsId(name)
    ensures Does(s, acts, Ready(s, name).0)
  {
    hide Valid, GetDevice, Canonical, Loads, WithReady, Does, IsId, WellSpelled;
    var made := GetDevice(s, name).0;
    GetDeviceFacts(s, name);
    CanonicalSpelled(s, name);
    DoesOne(s, Make(name));
    acts := [Make(name)];
    if Loads(s.structs, Family(name)) {
      DoesOne(made, Ensure(name));
      DoesBoth(s, acts, made, [Ensure(name)], Ready(s, name).0);
      acts := acts + [Ensure(name)];
    }
  }

  lemma FoundActs(s: Reg, p: BusPath, name: string, left: seq<string>) returns (acts: seq<Act>)
    requires Valid(s) && p in s.buses && Canonical(name) && IsId(name)
    ensures Does(s, acts, Found(s, p, name, left).reg)
  {
    hide Valid, Ready, Canonical, DistinctIds, AddDevice, Does, Loads, Family, WithReady, IsId;
    var (t, r, ok) := Ready(s, name);
    ReadyValid(s, name);
    T.ValidHasBus(t, p);
    acts := ReadyActs(s, name);
    if ok {
      var u := t;
      if t.objs[r].bus != Some(p) {
        u := AddDevice(t, p, r);
        AddActs(t, p, r);
        DoesBoth(s, acts, t, [Move(p, r), Enter(p, r)], u);
        acts := acts + [Move(p, r), Enter(p, r)];
        AddStore(t, p, r);
      }
      if t.objs[r].bus != Some(p) || name in left {
        DoesOne(u, Count(r, 0));
        DoesBoth(s, acts, u, [Count(r, 0)], SetUnseen(u, r, 0));
        acts := acts + [Count(r, 0)];
      }
    }
  }

  lemma AddStore(s: Reg, p: BusPath, r: nat)
    requires HasBus(s, p) && r < |s.objs|
    ensures |AddDevice(s, p, r).objs| == |s.objs|
  {
    hide WithEntry, DistinctIds;
  }

  lemma LoseEnabled(s: Reg, p: BusPath, r: nat)
    requires Valid(s) && HasBus(s, p) && r < |s.objs|
    ensures Enabled(s, Lose(p, r))
  {
    hide TreeValid, DictsValid, Replay, SnapshotOf, DistinctIds, ListingsValid;
    if s.objs[r].bus == Some(p) {
      var i :| 0 <= i < |s.buses[p].devs| && s.buses[p].devs[i] == r;
    }
  }

  lemma MissedActs(s: Reg, p: BusPath, id: string) returns (acts: seq<Act>)
    requires Valid(s) && p in s.buses && Missed(s, p, id).Some?
    ensures Does(s, acts, Missed(s, p, id).value)
  {
    hide Valid, FindEntry, Does, Delocate, S.ListsId;
    T.ValidHasBus(s, p);
    var r := FindEntry(s.objs, s.buses[p].devs, id).value;
    if s.objs[r].unseen <= 2 {
      acts := [Count(r, s.objs[r].unseen + 1)];
    } else {
      LoseEnabled(s, p, r);
      acts := [Lose(p, r)];
    }
    DoesOne(s, acts[0]);
  }

  lemma {:induction false} MissedAllActs(s: Reg, p: BusPath, ids: seq<string>) returns (acts: seq<Act>)
    requires Valid(s) && p in s.buses
    ensures Does(s, acts, MissedAll(s, p, ids).0)
    decreases |ids|
  {
    hide Valid, Missed, Does;
    acts := [];
    DoesNothing(s);
    if ids != [] && Missed(s, p, ids[0]).Some? {
      var t := Missed(s, p, ids[0]).value;
      acts := MissedActs(s, p, ids[0]);
      MissedValid(s, p, ids[0]);
      var more := MissedAllActs(t, p, ids[1..]);
      DoesBoth(s, acts, t, more, MissedAll(s, p, ids).0);
      acts := acts + more;
    }
  }

  /** Every scan, wherever it breaks off, is a sequence of these actions. Undisturbed, they are in place; between any
      two of them those of other tasks may come. */
  lemma {:induction false} ScanActs(s: Reg, p: BusPath, d: Dir) returns (acts: seq<Act>)
    requires Valid(s) && p in s.buses && CanonicalDir(d)
    ensures Does(s, acts, Scan(s, p, d).0)
    decreases d, 1
  {
    hide Valid, Visit, MissedAll, CanonicalEntry, Does;
    acts := [];
    DoesNothing(s);
    if d.Dir? && HasBus(s, p) {
      var left := Listed(s.objs, s.buses[p].devs);
      var v := Visit(s, p, d.entries, left);
      acts := VisitActs(s, p, d.entries, left);
      if v.ok {
        VisitValid(s, p, d.entries, left);
        var more := MissedAllActs(v.reg, p, v.left);
        DoesBoth(s, acts, v.reg, more, Scan(s, p, d).0);
        acts := acts + more;
      }
    }
  }

  lemma {:induction false} VisitActs(s: Reg, p: BusPath, es: seq<Entry>, left: seq<string>) returns (acts: seq<Act>)
    requires Valid(s) && p in s.buses && forall e :: e in es ==> CanonicalEntry(e)
    ensures Does(s, acts, Visit(s, p, es, left).reg)
    decreases es, 0
  {
    hide Valid, VisitOne, CanonicalEntry, Does;
    acts := [];
    DoesNothing(s);
    if es != [] {
      assert es[0] in es;
      var v := VisitOne(s, p, es[0], left);
      acts := EntryActs(s, p, es[0], left);
      if v.ok {
        VisitOneValid(s, p, es[0], left);
        var more := VisitActs(v.reg, p, es[1..], v.left);
        DoesBoth(s, acts, v.reg, more, Visit(s, p, es, left).reg);
        acts := acts + more;
      }
    }
  }

  lemma {:induction false} EntryActs(s: Reg, p: BusPath, e: Entry, left: seq<string>) returns (acts: seq<Act>)
    requires Valid(s) && p in s.buses && CanonicalEntry(e)
    ensures Does(s, acts, VisitOne(s, p, e, left).reg)
    decreases e, 3
  {
    hide Valid, Found, ScanPort, IsId, IsCoupler, Canonical, CanonicalDir, Does;
    acts := [];
    DoesNothing(s);
    if IsId(e.name) {
      var v := Found(s, p, e.name, left);
      acts := FoundActs(s, p, e.name, left);
      FoundValid(s, p, e.name, left);
      if v.ok && IsCoupler(e.name) {
        var (a, okA) := ScanPort(v.reg, p, e.name, "main", e.main);
        var main := PortActs(v.reg, p, e.name, "main", e.main);
        ScanPortValid(v.reg, p, e.name, "main", e.main);
        DoesBoth(s, acts, v.reg, main, a);
        acts := acts + main;
        if okA {
          var aux := PortActs(a, p, e.name, "aux", e.aux);
          DoesBoth(s, acts, a, aux, VisitOne(s, p, e, left).reg);
          acts := acts + aux;
        }
      }
    }
  }

  lemma {:induction false} PortActs(s: Reg, p: BusPath, name: string, port: string, d: Dir) returns (acts: seq<Act>)
    requires Valid(s) && p in s.buses && CanonicalDir(d)
    ensures Does(s, acts, ScanPort(s, p, name, port, d).0)
    decreases d, 2
  {
    hide Valid, Scan, GetSubBus, CanonicalDir, Does;
    var open := OpenPort(p, Upper(name), port);
    var t := GetSubBus(s, p, Upper(name), port);
    DoesOne(s, open);
    GetSubBusValid(s, p, Upper(name), port);
    acts := ScanActs(t, Port(p, Upper(name), port), d);
    DoesBoth(s, [open], t, acts, ScanPort(s, p, name, port, d).0);
    acts := [open] + acts;
  }

  lemma {:induction false} LeaveActs(s: Reg, p: BusPath, devs: seq<nat>) returns (acts: seq<Act>)
    requires Valid(s) && p in s.buses && T.Known(s, devs)
    ensures Does(s, acts, T.DelocateEach(s, p, devs))
    decreases |devs|
  {
    hide Valid, Delocate, HasBus, Does, S.ListsId;
    acts := [];
    DoesNothing(s);
    if devs != [] {
      T.ValidHasBus(s, p);
      assert devs[0] in devs && forall x :: x in devs[1..] ==> x in devs;
      var t := Delocate(s, p, devs[0]);
      LoseEnabled(s, p, devs[0]);
      DoesOne(s, Lose(p, devs[0]));
      DelocateValid(s, p, devs[0]);
      T.DelocateLeaves(s, p, devs[0]);
      var more := LeaveActs(t, p, devs[1..]);
      DoesBoth(s, [Lose(p, devs[0])], t, more, T.DelocateEach(s, p, devs));
      acts := [Lose(p, devs[0])] + more;
    }
  }

  lemma {:induction false} SubsActs(s: Reg, p: BusPath) returns (acts: seq<Act>)
    requires Valid(s) && p in s.buses
    ensures Does(s, acts, T.TearSubs(s, p))
    decreases T.Below(s, p), 0
  {
    hide Valid, Does, T.TornDown;
    acts := [];
    DoesNothing(s);
    if s.buses[p].subs != [] {
      var c := s.buses[p].subs[0];
      T.ChildShrinks(s, p, c);
      var t := T.TearDown(s, c);
      T.ChildTorn(s, p, c, t);
      T.TornValid(s, t, c);
      acts := TearActs(s, c);
      var more := SubsActs(t, p);
      DoesBoth(s, acts, t, more, T.TearSubs(s, p));
      acts := acts + more;
    }
  }

  /** So is every teardown of a bus. */
  lemma {:induction false} TearActs(s: Reg, p: BusPath) returns (acts: seq<Act>)
    requires Valid(s) && p in s.buses
    ensures Does(s, acts, T.TearDown(s, p))
    decreases T.Below(s, p), 1
  {
    hide Valid, Does, T.TearSubs, T.DelocateEach, T.OnlyLeaves, T.Unlocated, T.Evicted, DropBus, T.TornDown;
    var t := T.TearSubs(s, p);
    var u := T.DelocateEach(t, p, t.buses[p].devs);
    acts := SubsActs(s, p);
    T.EachDeviceLeaves(t, p);
    T.ValidHasBus(t, p);
    var leave := LeaveActs(t, p, t.buses[p].devs);
    DoesBoth(s, acts, t, leave, u);
    DoesOne(u, Drop(p));
    DoesBoth(s, acts + leave, u, [Drop(p)], T.TearDown(s, p));
    acts := acts + leave + [Drop(p)];
  }

  /** And so is aclose. */
  lemma {:induction false} CloseActs(s: Reg) returns (acts: seq<Act>)
    requires Valid(s)
    ensures Does(s, acts, T.CloseServer(s))
    decreases |s.tops|
  {
    hide Valid, Does, T.Evicted;
    acts := [];
    DoesNothing(s);
    if s.tops != [] {
      ValidParts(s);
      TopIsLive(s, s.tops[0]);
      var t := T.TearDown(s, s.tops[0]);
      acts := TearActs(s, s.tops[0]);
      var more := CloseActs(t);
      DoesBoth(s, acts, t, more, T.CloseServer(s));
      acts := acts + more;
    }
  }
}
