/** What the event stream says about the dictionaries of the buses (asyncowfs/bus.py, event.py): it determines them, the
    entries that devices have left behind included. */
module Dictionaries {
  import opened Text
  import opened Registry
  import opened ScanTree
  import opened OneId
  import T = Teardown

  // ---------------------------------------------------------------- listening

  /** Where the device of an id is, as the events tell it. */
  function PlaceTold(log: seq<Event>, id: string): Option<BusPath> {
    if log == [] then None
    else
      var before := PlaceTold(log[..|log| - 1], id);
      match log[|log| - 1]
      case DeviceLocated(i, p) => if i == id then Some(p) else before
      case DeviceNotFound(i) => if i == id then None else before
      case _ => before
  }

  /** Whether a bus has an entry of an id: from when a device is located there until it is lost from there. */
  function EntryTold(log: seq<Event>, x: BusPath, id: string): bool {
    if log == [] then false
    else
      var rest := log[..|log| - 1];
      var before := EntryTold(rest, x, id);
      match log[|log| - 1]
      case DeviceLocated(i, p) => before || (i == id && p == x)
      case DeviceNotFound(i) => before && !(i == id && PlaceTold(rest, id) == Some(x))
      case BusAdded(p) => before && p != x
      case BusDeleted(p) => before && p != x
      case _ => before
  }

  lemma ToldLast(log: seq<Event>, e: Event, x: BusPath, id: string)
    ensures EntryTold(log + [e], x, id) ==
            match e
            case DeviceLocated(i, p) => EntryTold(log, x, id) || (i == id && p == x)
            case DeviceNotFound(i) => EntryTold(log, x, id) && !(i == id && PlaceTold(log, id) == Some(x))
            case BusAdded(p) => EntryTold(log, x, id) && p != x
            case BusDeleted(p) => EntryTold(log, x, id) && p != x
            case _ => EntryTold(log, x, id)
  {
    assert (log + [e])[..|log|] == log;
  }

  predicate Concerns(e: Event, id: string) {
    (e.DeviceLocated? || e.DeviceNotFound?) && e.id == id
  }

  /** The device was located at the bus, and since then it was not located there again, nor the bus added or deleted. */
  predicate LastHere(log: seq<Event>, x: BusPath, id: string, i: nat) {
    i < |log| && log[i] == DeviceLocated(id, x) &&
    forall j :: i < j < |log| ==> log[j] != DeviceLocated(id, x) && log[j] != BusAdded(x) && log[j] != BusDeleted(x)
  }

  /** What next happened to its location is that it was lost. */
  predicate LostNext(log: seq<Event>, id: string, i: nat) {
    exists j :: i < j < |log| && log[j] == DeviceNotFound(id) && forall k :: i < k < j ==> !Concerns(log[k], id)
  }

  lemma {:induction false} PlaceSince(log: seq<Event>, id: string, x: BusPath) returns (i: nat)
    requires PlaceTold(log, id) == Some(x)
    ensures i < |log| && log[i] == DeviceLocated(id, x) && forall j :: i < j < |log| ==> !Concerns(log[j], id)
  {
    i := |log| - 1;
    if log[i] != DeviceLocated(id, x) {
      i := PlaceSince(log[..|log| - 1], id, x);
    }
  }

  lemma {:induction false} PlaceStays(log: seq<Event>, id: string, x: BusPath, i: nat)
    requires i < |log| && log[i] == DeviceLocated(id, x) && forall j :: i < j < |log| ==> !Concerns(log[j], id)
    ensures PlaceTold(log, id) == Some(x)
  {
    if i < |log| - 1 {
      assert !Concerns(log[|log| - 1], id);
      PlaceStays(log[..|log| - 1], id, x, i);
    }
  }

  lemma LostLast(log: seq<Event>, id: string, i: nat)
    requires i < |log| - 1 && LostNext(log, id, i)
    ensures LostNext(log[..|log| - 1], id, i) ||
            (log[|log| - 1] == DeviceNotFound(id) && forall k :: i < k < |log| - 1 ==> !Concerns(log[k], id))
  {
    var j :| i < j < |log| && log[j] == DeviceNotFound(id) && forall k :: i < k < j ==> !Concerns(log[k], id);
    if j < |log| - 1 {
      var rest := log[..|log| - 1];
      assert rest[j] == DeviceNotFound(id) && forall k :: i < k < j ==> !Concerns(rest[k], id);
    }
  }

  lemma ToldSince(log: seq<Event>, x: BusPath, id: string) returns (i: nat)
    requires log != [] && EntryTold(log, x, id)
    requires var rest := log[..|log| - 1];
             EntryTold(rest, x, id) ==> exists i :: LastHere(rest, x, id, i) && !LostNext(rest, id, i)
    ensures LastHere(log, x, id, i) && !LostNext(log, id, i)
  {
    var n := |log| - 1;
    var rest := log[..n];
    if log[n] == DeviceLocated(id, x) {
      i := n;
    } else {
      i :| LastHere(rest, x, id, i) && !LostNext(rest, id, i);
      if LostNext(log, id, i) {
        LostLast(log, id, i);
        PlaceStays(rest, id, x, i);
      }
    }
  }

  lemma SinceTold(log: seq<Event>, x: BusPath, id: string, i: nat)
    requires log != [] && LastHere(log, x, id, i) && !LostNext(log, id, i)
    requires var rest := log[..|log| - 1];
             LastHere(rest, x, id, i) && !LostNext(rest, id, i) ==> EntryTold(rest, x, id)
    ensures EntryTold(log, x, id)
  {
    var n := |log| - 1;
    var rest := log[..n];
    if i < n {
      assert LastHere(rest, x, id, i);
      if j :| i < j < |rest| && rest[j] == DeviceNotFound(id) && forall k :: i < k < j ==> !Concerns(rest[k], id) {
        assert log[j] == DeviceNotFound(id) && forall k :: i < k < j ==> !Concerns(log[k], id);
      }
      if log[n] == DeviceNotFound(id) && PlaceTold(rest, id) == Some(x) {
        var j := PlaceSince(rest, id, x);
        assert log[j] == DeviceLocated(id, x) && Concerns(log[i], id);
        assert i == j;
        assert forall k :: i < k < n ==> !Concerns(log[k], id);
      }
    }
  }

  /** In one sentence: a bus has an entry of an id exactly if the last time that the device was located there, since the
      bus was added, was not next followed by its loss. */
  lemma {:induction false} EntryToldIff(log: seq<Event>, x: BusPath, id: string)
    ensures EntryTold(log, x, id) <==> exists i :: LastHere(log, x, id, i) && !LostNext(log, id, i)
  {
    if log != [] {
      var n := |log| - 1;
      EntryToldIff(log[..n], x, id);
      if EntryTold(log, x, id) {
        var i := ToldSince(log, x, id);
      }
      if i :| LastHere(log, x, id, i) && !LostNext(log, id, i) {
        SinceTold(log, x, id, i);
      }
    }
  }

  lemma {:induction false} PlaceReplayed(log: seq<Event>, id: string)
    requires Replay(log).Some?
    ensures PlaceTold(log, id) == var n := Replay(log).value; if id in n.devs then n.devs[id] else None
  {
    if log != [] {
      PlaceReplayed(log[..|log| - 1], id);
    }
  }

  lemma PlaceKnown(s: Reg, id: string)
    requires Valid(s)
    ensures PlaceTold(s.log, id) == if id in s.ids then s.objs[s.ids[id]].bus else None
  {
    hide TreeValid, DictsValid, LocationsValid, ListingsValid, Replay;
    PlaceReplayed(s.log, id);
  }

  /** The events tell every dictionary. */
  ghost predicate Told(s: Reg) {
    forall x, id {:trigger ListsId(s, x, id)} :: ListsId(s, x, id) <==> EntryTold(s.log, x, id)
  }

  // ---------------------------------------------------------------- one operation

  /** The same dictionaries, and an event that says nothing about them. */
  lemma SameTold(s: Reg, t: Reg)
    requires Told(s) && forall x, id :: ListsId(t, x, id) <==> ListsId(s, x, id)
    requires t.log == s.log || exists e :: t.log == s.log + [e] && (e.DeviceAdded? || e.DeviceDeleted?)
    ensures Told(t)
  {
    hide ListsId;
    forall x, id ensures ListsId(t, x, id) <==> EntryTold(t.log, x, id) {
      assert ListsId(t, x, id) <==> ListsId(s, x, id);
      if t.log != s.log {
        var e :| t.log == s.log + [e] && (e.DeviceAdded? || e.DeviceDeleted?);
        ToldLast(s.log, e, x, id);
      }
    }
  }

  lemma MadeTold(s: Reg, name: string)
    requires Valid(s) && Told(s)
    ensures Told(GetDevice(s, name).0)
  {
    hide Valid, ListsId, Told;
    ValidListings(s);
    var t := GetDevice(s, name).0;
    forall x, id ensures ListsId(t, x, id) <==> ListsId(s, x, id) {
      ListsMember(s, x, id);
      ListsMember(t, x, id);
    }
    SameTold(s, t);
  }

  lemma StructsTold(s: Reg, c: Structs)
    requires Told(s)
    ensures Told(s.(structs := c))
  {
    hide ListsId, Told;
    var t := s.(structs := c);
    forall x, id ensures ListsId(t, x, id) <==> ListsId(s, x, id) {
      ListsMember(s, x, id);
      ListsMember(t, x, id);
    }
    SameTold(s, t);
  }

  lemma CountTold(s: Reg, r: nat, n: nat)
    requires Told(s) && r < |s.objs|
    ensures Told(SetUnseen(s, r, n))
  {
    hide ListsId, Told;
    var t := SetUnseen(s, r, n);
    forall x, id ensures ListsId(t, x, id) <==> ListsId(s, x, id) {
      ListsMember(s, x, id);
      ListsMember(t, x, id);
    }
    SameTold(s, t);
  }

  /** Dictionaries that change at one bus and for one id only. */
  lemma OneTold(s: Reg, t: Reg, p: BusPath, id: string, e: Event)
    requires Told(s) && t.log == s.log + [e]
    requires (e == DeviceLocated(id, p) && ListsId(t, p, id)) ||
             (e == DeviceNotFound(id) && PlaceTold(s.log, id) == Some(p) && !ListsId(t, p, id))
    requires forall x, i :: (x != p || i != id) ==> (ListsId(t, x, i) <==> ListsId(s, x, i))
    ensures Told(t)
  {
    hide ListsId;
    forall x, i ensures ListsId(t, x, i) <==> EntryTold(t.log, x, i) {
      ToldLast(s.log, e, x, i);
      assert (x != p || i != id) ==> (ListsId(t, x, i) <==> ListsId(s, x, i));
      assert ListsId(s, x, i) <==> EntryTold(s.log, x, i);
    }
  }

  lemma AddTold(s: Reg, p: BusPath, r: nat)
    requires Valid(s) && Told(s) && p in s.buses && r < |s.objs|
    ensures HasBus(s, p) && Told(AddDevice(s, p, r))
  {
    hide Valid, ListsId, Told, DistinctIds, WithEntry;
    T.ValidHasBus(s, p);
    ValidListings(s);
    var t, id := AddDevice(s, p, r), s.objs[r].id;
    assert forall y :: y in t.buses[p].devs <==> y == r || (y in s.buses[p].devs && s.objs[y].id != id);
    forall x, i ensures ListsId(t, x, i) <==> ListsId(s, x, i) || (x == p && i == id) {
      ListsMember(s, x, i);
      ListsMember(t, x, i);
      if x == p && i == id {
        assert r in t.buses[p].devs && r < |t.objs| && t.objs[r].id == id;
      }
    }
    if s.objs[r].bus == Some(p) {
      assert r in s.buses[p].devs;
      ListsMember(s, p, id);
      SameTold(s, t);
    } else {
      OneTold(s, t, p, id, DeviceLocated(id, p));
    }
  }

  lemma DelocateTold(s: Reg, p: BusPath, r: nat)
    requires Valid(s) && Told(s) && p in s.buses && r < |s.objs|
    ensures HasBus(s, p) && Told(Delocate(s, p, r))
  {
    hide Valid, ListsId, Told, DistinctIds, WithoutId;
    T.ValidHasBus(s, p);
    ValidListings(s);
    if s.objs[r].bus == Some(p) {
      var t, id := Delocate(s, p, r), s.objs[r].id;
      PlaceKnown(s, id);
      assert t.buses.Keys == s.buses.Keys && forall x :: x in s.buses && x != p ==> t.buses[x] == s.buses[x];
      assert forall y :: y in t.buses[p].devs <==> y in s.buses[p].devs && s.objs[y].id != id;
      forall x, i ensures ListsId(t, x, i) <==> ListsId(s, x, i) && (x != p || i != id) {
        ListsMember(s, x, i);
        ListsMember(t, x, i);
      }
      OneTold(s, t, p, id, DeviceNotFound(id));
    }
  }

  /** A new bus has no entries. */
  lemma BusTold(s: Reg, t: Reg, q: BusPath)
    requires Told(s) && q !in s.buses && q in t.buses && t.buses[q].devs == [] && t.objs == s.objs
    requires t.log == s.log + [BusAdded(q)] && t.buses.Keys == s.buses.Keys + {q}
    requires forall x :: x in s.buses ==> t.buses[x].devs == s.buses[x].devs
    ensures Told(t)
  {
    forall x, id ensures ListsId(t, x, id) <==> EntryTold(t.log, x, id) {
      ToldLast(s.log, BusAdded(q), x, id);
      assert ListsId(s, x, id) <==> EntryTold(s.log, x, id);
    }
  }

  lemma PortTold(s: Reg, p: BusPath, id: string, port: string)
    requires Valid(s) && Told(s) && p in s.buses
    ensures Told(GetSubBus(s, p, id, port))
  {
    hide Valid, Told, Parent;
    ValidParts(s);
    PortParent(s, p, id, port);
    var q := Port(p, id, port);
    if q !in s.buses[p].subs {
      NotListedNotLive(s, q);
      BusTold(s, GetSubBus(s, p, id, port), q);
    }
  }

  lemma TopTold(s: Reg, name: string)
    requires Valid(s) && Told(s)
    ensures Told(GetTopBus(s, name))
  {
    hide Valid, Told, Parent;
    ValidParts(s);
    if [name] !in s.tops {
      NotListedNotLive(s, [name]);
      BusTold(s, GetTopBus(s, name), [name]);
    }
  }

  // ---------------------------------------------------------------- a scan

  lemma FoundTold(s: Reg, p: BusPath, name: string, left: seq<string>)
    requires Valid(s) && Told(s) && p in s.buses && Canonical(name)
    ensures Told(Found(s, p, name, left).reg)
  {
    hide Valid, Told, GetDevice, Canonical, WithEntry, DistinctIds, Loads, Family, WithReady;
    var made := GetDevice(s, name).0;
    var (t, r, ok) := Ready(s, name);
    ReadyValid(s, name);
    MadeTold(s, name);
    StructsTold(made, t.structs);
    if t.objs[r].bus == Some(p) {
      CountTold(t, r, 0);
    } else {
      AddTold(t, p, r);
      CountTold(AddDevice(t, p, r), r, 0);
    }
  }

  lemma MissedTold(s: Reg, p: BusPath, id: string)
    requires Valid(s) && Told(s) && p in s.buses && Missed(s, p, id).Some?
    ensures Told(Missed(s, p, id).value)
  {
    hide Valid, Told, FindEntry, Delocate;
    T.ValidHasBus(s, p);
    var r := FindEntry(s.objs, s.buses[p].devs, id).value;
    DelocateTold(s, p, r);
    CountTold(s, r, s.objs[r].unseen + 1);
  }

  lemma {:induction false} MissedAllTold(s: Reg, p: BusPath, ids: seq<string>)
    requires Valid(s) && Told(s) && p in s.buses
    ensures Told(MissedAll(s, p, ids).0)
    decreases |ids|
  {
    hide Valid, Told, Missed;
    if ids != [] && Missed(s, p, ids[0]).Some? {
      MissedTold(s, p, ids[0]);
      MissedValid(s, p, ids[0]);
      MissedAllTold(Missed(s, p, ids[0]).value, p, ids[1..]);
    }
  }

  lemma {:induction false} ScanTold(s: Reg, p: BusPath, d: Dir)
    requires Valid(s) && Told(s) && p in s.buses && CanonicalDir(d)
    ensures Told(Scan(s, p, d).0)
    decreases d, 1
  {
    hide Valid, Told, MissedAll, Visit, CanonicalEntry;
    if d.Dir? && HasBus(s, p) {
      var left := Listed(s.objs, s.buses[p].devs);
      var v := Visit(s, p, d.entries, left);
      VisitTold(s, p, d.entries, left);
      VisitValid(s, p, d.entries, left);
      MissedAllTold(v.reg, p, v.left);
    }
  }

  lemma {:induction false} VisitTold(s: Reg, p: BusPath, es: seq<Entry>, left: seq<string>)
    requires Valid(s) && Told(s) && p in s.buses && forall e :: e in es ==> CanonicalEntry(e)
    ensures Told(Visit(s, p, es, left).reg)
    decreases es, 0
  {
    hide Valid, Told, VisitOne, CanonicalEntry;
    if es != [] {
      assert es[0] in es;
      var v := VisitOne(s, p, es[0], left);
      EntryVisitTold(s, p, es[0], left);
      VisitOneValid(s, p, es[0], left);
      VisitTold(v.reg, p, es[1..], v.left);
    }
  }

  lemma {:induction false} EntryVisitTold(s: Reg, p: BusPath, e: Entry, left: seq<string>)
    requires Valid(s) && Told(s) && p in s.buses && CanonicalEntry(e)
    ensures Told(VisitOne(s, p, e, left).reg)
    decreases e, 3
  {
    hide Valid, Told, Found, ScanPort, IsId, IsCoupler, Canonical, CanonicalDir;
    if IsId(e.name) {
      var v := Found(s, p, e.name, left);
      FoundTold(s, p, e.name, left);
      FoundValid(s, p, e.name, left);
      if v.ok && IsCoupler(e.name) {
        var a := ScanPort(v.reg, p, e.name, "main", e.main).0;
        PortScanTold(v.reg, p, e.name, "main", e.main);
        ScanPortValid(v.reg, p, e.name, "main", e.main);
        PortScanTold(a, p, e.name, "aux", e.aux);
      }
    }
  }

  lemma {:induction false} PortScanTold(s: Reg, p: BusPath, name: string, port: string, d: Dir)
    requires Valid(s) && Told(s) && p in s.buses && CanonicalDir(d)
    ensures Told(ScanPort(s, p, name, port, d).0)
    decreases d, 2
  {
    hide Valid, Told, Scan, GetSubBus, CanonicalDir;
    PortTold(s, p, Upper(name), port);
    GetSubBusValid(s, p, Upper(name), port);
    ScanTold(GetSubBus(s, p, Upper(name), port), Port(p, Upper(name), port), d);
  }

  lemma {:induction false} BaseTold(s: Reg, es: seq<(string, Dir)>)
    requires Valid(s) && Told(s) && forall e :: e in es ==> CanonicalDir(e.1)
    ensures Told(ScanBase(s, es).0)
    decreases |es|
  {
    hide Valid, Told, Scan, GetTopBus, CanonicalDir;
    if es != [] {
      assert es[0] in es;
      if "bus." <= es[0].0 {
        var t := GetTopBus(s, es[0].0);
        TopTold(s, es[0].0);
        GetTopBusValid(s, es[0].0);
        ScanTold(t, [es[0].0], es[0].1);
        ScanValid(t, [es[0].0], es[0].1);
        BaseTold(Scan(t, [es[0].0], es[0].1).0, es[1..]);
      } else {
        BaseTold(s, es[1..]);
      }
    }
  }

  // ---------------------------------------------------------------- every history

  lemma DeletedTold(s: Reg, r: nat)
    requires Told(s) && r < |s.objs| && DeleteDevice(s, r).Some?
    ensures Told(DeleteDevice(s, r).value)
  {
    hide Told;
    var t := DeleteDevice(s, r).value;
    forall x, i ensures ListsId(t, x, i) <==> ListsId(s, x, i) {
    }
    SameTold(s, t);
  }

  lemma OpTold(s: Reg, op: T.Op)
    requires Valid(s) && Told(s) && T.Allowed(s, op)
    ensures Told(T.Apply(s, op))
  {
    hide Valid, Told, GetDevice, GetTopBus, GetSubBus, Scan, ScanBase, Delocate, AddDevice, DeleteDevice, CanonicalDir,
         IsId;
    match op
    case Register(id) => MadeTold(s, id);
    case Alarm(p, id) =>
      MadeTold(s, id);
      GetDeviceValid(s, id);
      GetDeviceFacts(s, id);
      var (t, r) := GetDevice(s, id);
      AddTold(t, p, r);
    case OpenTop(name) => TopTold(s, name);
    case OpenPort(p, id, port) => PortTold(s, p, id, port);
    case ScanAll(names) => BaseTold(s, names);
    case ScanBus(p, d) => ScanTold(s, p, d);
    case Lose(p, r) => DelocateTold(s, p, r);
    case Add(p, r) => AddTold(s, p, r);
    case Delete(r) =>
      if r < |s.objs| && DeleteDevice(s, r).Some? {
        DeletedTold(s, r);
      }
    case Setup(c) => StructsTold(s, c);
  }

  lemma EmptyTold(c: Structs)
    ensures Told(T.Empty(c))
  {
  }

  /** In every reachable state the events tell exactly the entries of every dictionary, those that devices have left
      behind included. */
  lemma {:induction false} DictionariesTold(states: seq<Reg>, ops: seq<T.Op>, k: nat)
    requires T.IsHistory(states, ops) && k <= |ops|
    ensures forall x, id :: ListsId(states[k], x, id) <==> EntryTold(states[k].log, x, id)
  {
    hide T.Apply, T.Allowed, ListsId, EntryTold;
    if k == 0 {
      EmptyTold(states[0].structs);
    } else {
      DictionariesTold(states, ops, k - 1);
      T.JournalFaithful(states, ops, k - 1);
      assert T.Allowed(states[k - 1], ops[k - 1]);
      OpTold(states[k - 1], ops[k - 1]);
    }
  }
}
