/** The bus and device registry (asyncowfs/service.py, bus.py, device.py): devices are found by scanning,
    located at a bus, lost again after several scans without them, and torn down with their bus. Objects are
    numbers in a store, so that two objects with one id, and one object listed by two buses, stay apart. */
module Registry {
  import opened Text
  import Accessors

  type BusPath = seq<string>

  // ---------------------------------------------------------------- device ids

  predicate IsHexDigit(c: char) {
    '0' <= c <= '9' || 'a' <= c <= 'f' || 'A' <= c <= 'F'
  }

  predicate IsHex(s: string) {
    s != "" && forall i :: 0 <= i < |s| ==> IsHexDigit(s[i])
  }

  /** split_id succeeds: three hexadecimal numbers between dots. */
  predicate IsId(name: string) {
    var parts := Split(name, '.');
    |parts| == 3 && IsHex(parts[0]) && IsHex(parts[1]) && IsHex(parts[2])
  }

  function HexDigit(c: char): nat {
    if '0' <= c <= '9' then c as int - '0' as int
    else if 'a' <= c <= 'f' then c as int - 'a' as int + 10
    else if 'A' <= c <= 'F' then c as int - 'A' as int + 10
    else 0
  }

  function HexValue(s: string): nat {
    if s == "" then 0 else 16 * HexValue(s[..|s| - 1]) + HexDigit(s[|s| - 1])
  }

  const COUPLER_FAMILY := 0x1F

  /** The first number of an id; it decides the class of the device. */
  function Family(name: string): nat {
    HexValue(Split(name, '.')[0])
  }

  /** SwitchDevice: the device carries two more buses. */
  predicate IsCoupler(name: string) {
    Family(name) == COUPLER_FAMILY
  }

  function UpperChar(c: char): char {
    if 'a' <= c <= 'z' then (c as int - 'a' as int + 'A' as int) as char else c
  }

  function Upper(s: string): (u: string)
    ensures |u| == |s|
  {
    seq(|s|, i requires 0 <= i < |s| => UpperChar(s[i]))
  }

  predicate Canonical(name: string) {
    Upper(name) == name
  }

  // ---------------------------------------------------------------- the state

  datatype Dev = Dev(id: string, bus: Option<BusPath>, unseen: nat)

  /** A live bus: the devices in its dictionary, in insertion order, and its live sub-buses. */
  datatype BusRec = BusRec(devs: seq<nat>, subs: seq<BusPath>)

  datatype Event =
    | DeviceAdded(id: string)
    | DeviceLocated(id: string, bus: BusPath)
    | DeviceNotFound(id: string)
    | DeviceDeleted(id: string)
    | BusAdded(path: BusPath)
    | BusDeleted(path: BusPath)

  /** Off without load_structs; otherwise the families whose class is set up, and the structure that the server
      publishes for each family. */
  datatype Structs = Off | On(ready: set<nat>, published: map<nat, seq<Accessors.Item>>)

  datatype Reg = Reg(
    objs: seq<Dev>,              // every device object ever made
    ids: map<string, nat>,       // the service's dictionary
    buses: map<BusPath, BusRec>, // the live buses
    tops: seq<BusPath>,          // the server's dictionary of buses
    log: seq<Event>,
    structs: Structs
  )

  function Parent(p: BusPath): BusPath
    requires |p| >= 2
  {
    p[..|p| - 2]
  }

  function Port(p: BusPath, id: string, port: string): BusPath {
    p + [id, port]
  }

  predicate DistinctIds(objs: seq<Dev>, devs: seq<nat>) {
    (forall i :: 0 <= i < |devs| ==> devs[i] < |objs|) &&
    (forall i, j :: 0 <= i < j < |devs| ==> objs[devs[i]].id != objs[devs[j]].id)
  }

  // ---------------------------------------------------------------- dictionaries

  /** devices[dev.id] = dev */
  function WithEntry(objs: seq<Dev>, devs: seq<nat>, r: nat): (after: seq<nat>)
    requires DistinctIds(objs, devs) && r < |objs|
    ensures DistinctIds(objs, after)
    ensures forall x :: x in after <==> x == r || (x in devs && objs[x].id != objs[r].id)
  {
    if devs == [] then [r]
    else if objs[devs[0]].id == objs[r].id then
      assert devs == [devs[0]] + devs[1..];
      [r] + devs[1..]
    else
      assert devs == [devs[0]] + devs[1..];
      [devs[0]] + WithEntry(objs, devs[1..], r)
  }

  /** del devices[id] */
  function WithoutId(objs: seq<Dev>, devs: seq<nat>, id: string): (after: seq<nat>)
    requires DistinctIds(objs, devs)
    ensures DistinctIds(objs, after)
    ensures forall x :: x in after <==> x in devs && objs[x].id != id
  {
    if devs == [] then []
    else
      assert devs == [devs[0]] + devs[1..];
      if objs[devs[0]].id == id then devs[1..] else [devs[0]] + WithoutId(objs, devs[1..], id)
  }

  function Listed(objs: seq<Dev>, devs: seq<nat>): (ids: seq<string>)
    requires forall i :: 0 <= i < |devs| ==> devs[i] < |objs|
    ensures |ids| == |devs|
  {
    seq(|devs|, i requires 0 <= i < |devs| => objs[devs[i]].id)
  }

  lemma ListedId(objs: seq<Dev>, devs: seq<nat>, i: nat)
    requires (forall i :: 0 <= i < |devs| ==> devs[i] < |objs|) && i < |devs|
    ensures Listed(objs, devs)[i] == objs[devs[i]].id
  {
  }

  function Without<T(==)>(s: seq<T>, x: T): (after: seq<T>)
    ensures forall y :: y in after ==> y in s
  {
    if s == [] then [] else if s[0] == x then s[1..] else [s[0]] + Without(s[1..], x)
  }

  // ---------------------------------------------------------------- the operations

  function Logged(s: Reg, e: Event): Reg {
    s.(log := s.log + [e])
  }

  /** Service.get_device: looked up by the id as given, stored under the upper-case one. */
  function GetDevice(s: Reg, id: string): (Reg, nat) {
    if id in s.ids then (s, s.ids[id])
    else
      var made := s.(objs := s.objs + [Dev(Upper(id), None, 0)], ids := s.ids[Upper(id) := |s.objs|]);
      (Logged(made, DeviceAdded(Upper(id))), |s.objs|)
  }

  /** ensure_struct does not raise: there is nothing to load, or the family's structure is published and unbroken. */
  predicate Loads(c: Structs, family: nat) {
    c.Off? || family in c.ready || (family in c.published && Accessors.Unbroken(c.published[family]))
  }

  function WithReady(c: Structs, family: nat): Structs {
    if c.Off? then c else c.(ready := c.ready + {family})
  }

  /** Service.ensure_struct for a scanned device; false stands for an exception. */
  function EnsureStruct(s: Reg, name: string): (Reg, bool) {
    if Loads(s.structs, Family(name)) then (s.(structs := WithReady(s.structs, Family(name))), true) else (s, false)
  }

  /** ensure_struct raises exactly for a family that is not set up and whose structure is missing or broken; only that
      family is then set up. */
  lemma EnsureStructRaisesIff(s: Reg, name: string, given: Accessors.Given)
    ensures var (t, ok) := EnsureStruct(s, name);
            var family := Family(name);
            (!ok <==>
               s.structs.On? && family !in s.structs.ready &&
               (family in s.structs.published ==> Accessors.Setup(s.structs.published[family], [], given).None?)) &&
            (if s.structs.Off? || !ok then t == s
             else t == s.(structs := t.structs) && t.structs == On(s.structs.ready + {family}, s.structs.published))
  {
    hide Family;
    if s.structs.On? && Family(name) in s.structs.published {
      Accessors.SetupSucceedsIff(s.structs.published[Family(name)], [], given);
    }
  }

  /** How a scan may change what is set up: classes are added whose structure could be loaded. */
  ghost predicate Advanced(c: Structs, d: Structs) {
    (c.Off? <==> d.Off?) &&
    (c.On? ==> c.ready <= d.ready && d.published == c.published && forall f :: f in d.ready ==> Loads(c, f))
  }

  /** No family among the ids is one whose class cannot be set up. */
  ghost predicate Loadable(c: Structs, ids: set<string>) {
    forall id :: id in ids ==> Loads(c, Family(id))
  }

  lemma AdvancedLoads(c: Structs, d: Structs, ids: set<string>)
    requires Advanced(c, d)
    ensures Loadable(c, ids) <==> Loadable(d, ids)
  {
  }

  predicate HasBus(s: Reg, p: BusPath) {
    p in s.buses && DistinctIds(s.objs, s.buses[p].devs)
  }

  function SetBus(s: Reg, r: nat, bus: Option<BusPath>): Reg
    requires r < |s.objs|
  {
    s.(objs := s.objs[r := s.objs[r].(bus := bus)])
  }

  function SetUnseen(s: Reg, r: nat, unseen: nat): Reg
    requires r < |s.objs|
  {
    s.(objs := s.objs[r := s.objs[r].(unseen := unseen)])
  }

  /** Device.locate */
  function Locate(s: Reg, p: BusPath, r: nat): Reg
    requires r < |s.objs|
  {
    if s.objs[r].bus == Some(p) then s
    else Logged(SetBus(s, r, Some(p)), DeviceLocated(s.objs[r].id, p))
  }

  /** Bus.add_device. The device stays in the dictionary of the bus it came from. */
  function AddDevice(s: Reg, p: BusPath, r: nat): Reg
    requires HasBus(s, p) && r < |s.objs|
  {
    var located := Locate(s, p, r);
    located.(buses := s.buses[p := s.buses[p].(devs := WithEntry(s.objs, s.buses[p].devs, r))])
  }

  /** Device.delocate: only at the bus where the device is. */
  function Delocate(s: Reg, p: BusPath, r: nat): Reg
    requires HasBus(s, p) && r < |s.objs|
  {
    if s.objs[r].bus != Some(p) then s
    else
      var gone := s.(buses := s.buses[p := s.buses[p].(devs := WithoutId(s.objs, s.buses[p].devs, s.objs[r].id))]);
      Logged(SetBus(gone, r, None), DeviceNotFound(s.objs[r].id))
  }

  /** Bus.get_bus on a live bus: a missing sub-bus is made. */
  function GetSubBus(s: Reg, p: BusPath, id: string, port: string): Reg
    requires p in s.buses
  {
    var q := Port(p, id, port);
    if q in s.buses[p].subs then s
    else
      Logged(s.(buses := s.buses[p := s.buses[p].(subs := s.buses[p].subs + [q])][q := BusRec([], [])]), BusAdded(q))
  }

  /** Server.get_bus, for the top-level names a server lists. */
  function GetTopBus(s: Reg, name: string): Reg {
    if [name] in s.tops then s
    else Logged(s.(tops := s.tops + [[name]], buses := s.buses[[name] := BusRec([], [])]), BusAdded([name]))
  }

  /** Service.get_device for any string: None stands for the NotADevice error. */
  function DeviceOf(s: Reg, id: string): Option<(Reg, nat)> {
    if id !in s.ids && !IsId(id) then None else Some(GetDevice(s, id))
  }

  /** Service.delete_device for any device object: whatever is registered under its id goes. None stands for the
      RuntimeError on a located device, and for the KeyError on an id that is not registered. */
  function DeleteDevice(s: Reg, r: nat): Option<Reg>
    requires r < |s.objs|
  {
    var id := s.objs[r].id;
    if s.objs[r].bus.Some? || id !in s.ids then None else Some(Logged(s.(ids := s.ids - {id}), DeviceDeleted(id)))
  }

  /** The end of Bus.delocate, once the bus is empty. */
  function DropBus(s: Reg, p: BusPath): Reg
    requires p in s.buses
  {
    var rest := s.buses - {p};
    var buses := if |p| >= 3 && Parent(p) in rest
                 then rest[Parent(p) := rest[Parent(p)].(subs := Without(rest[Parent(p)].subs, p))]
                 else rest;
    Logged(s.(buses := buses, tops := Without(s.tops, p)), BusDeleted(p))
  }

  // ---------------------------------------------------------------- the journal

  datatype Snapshot = Snapshot(devs: map<string, Option<BusPath>>, buses: set<BusPath>)

  ghost function SnapshotOf(s: Reg): Snapshot
    requires forall id :: id in s.ids ==> s.ids[id] < |s.objs|
  {
    Snapshot(map id | id in s.ids :: s.objs[s.ids[id]].bus, s.buses.Keys)
  }

  /** What a listener does with one event; None when the event is out of place. */
  ghost function Heard(n: Snapshot, e: Event): Option<Snapshot> {
    match e
    case DeviceAdded(id) => if id in n.devs then None else Some(n.(devs := n.devs[id := None]))
    case DeviceLocated(id, p) =>
      if id !in n.devs || p !in n.buses || n.devs[id] == Some(p) then None else Some(n.(devs := n.devs[id := Some(p)]))
    case DeviceNotFound(id) =>
      if id !in n.devs || n.devs[id].None? then None else Some(n.(devs := n.devs[id := None]))
    case DeviceDeleted(id) => if id !in n.devs || n.devs[id].Some? then None else Some(n.(devs := n.devs - {id}))
    case BusAdded(p) =>
      if p in n.buses || p == [] || (|p| >= 3 && Parent(p) !in n.buses) then None else Some(n.(buses := n.buses + {p}))
    case BusDeleted(p) =>
      if p !in n.buses || (exists q :: q in n.buses && p < q) || (exists id :: id in n.devs && n.devs[id] == Some(p))
      then None
      else Some(n.(buses := n.buses - {p}))
  }

  ghost function Replay(log: seq<Event>): Option<Snapshot> {
    if log == [] then Some(Snapshot(map[], {}))
    else
      var before := Replay(log[..|log| - 1]);
      if before.None? then None else Heard(before.value, log[|log| - 1])
  }

  lemma ReplayLast(log: seq<Event>, e: Event)
    ensures Replay(log + [e]) == match Replay(log) case None => None case Some(n) => Heard(n, e)
  {
  }

  // ---------------------------------------------------------------- the invariant

  /** Registered ids lead to their object. */
  ghost predicate IdsValid(s: Reg) {
    forall id :: id in s.ids ==> s.ids[id] < |s.objs| && s.objs[s.ids[id]].id == id
  }

  /** The device object is the registered one of its id. */
  predicate IsRegistered(s: Reg, r: nat) {
    r < |s.objs| && s.objs[r].id in s.ids && s.ids[s.objs[r].id] == r
  }

  /** The registered device of the id is at some bus. */
  predicate IsLocated(s: Reg, id: string) {
    id in s.ids && s.ids[id] < |s.objs| && s.objs[s.ids[id]].bus.Some?
  }

  /** A located device is the registered one of its id, and its bus is live and lists it. */
  ghost predicate LocationsValid(s: Reg) {
    forall r :: 0 <= r < |s.objs| && s.objs[r].bus.Some? ==>
      IsRegistered(s, r) && s.objs[r].bus.value in s.buses && r in s.buses[s.objs[r].bus.value].devs
  }

  ghost predicate ListingsValid(s: Reg) {
    forall p :: p in s.buses ==> DistinctIds(s.objs, s.buses[p].devs)
  }

  ghost predicate Attached(s: Reg, q: BusPath) {
    if |q| == 1 then q in s.tops else |q| >= 3 && Parent(q) in s.buses && q in s.buses[Parent(q)].subs
  }

  ghost predicate SubsLive(s: Reg, p: BusPath)
    requires p in s.buses
  {
    forall c :: c in s.buses[p].subs ==> |c| == |p| + 2 && Parent(c) == p && c in s.buses
  }

  /** The live buses form trees under the top-level ones. */
  ghost predicate TreeValid(s: Reg) {
    (forall t :: t in s.tops ==> |t| == 1 && t in s.buses) &&
    (forall p {:trigger SubsLive(s, p)} :: p in s.buses ==> SubsLive(s, p)) &&
    (forall q {:trigger Attached(s, q)} :: q in s.buses ==> Attached(s, q))
  }

  ghost predicate NoRepeats<T>(s: seq<T>) {
    forall i, j :: 0 <= i < j < |s| ==> s[i] != s[j]
  }

  ghost predicate DictsValid(s: Reg) {
    NoRepeats(s.tops) && forall p :: p in s.buses ==> NoRepeats(s.buses[p].subs)
  }

  /** Replaying the event log gives the registry, every device's current bus, and the live buses. */
  ghost predicate Journalled(s: Reg) {
    IdsValid(s) && Replay(s.log) == Some(SnapshotOf(s))
  }

  ghost predicate Valid(s: Reg) {
    IdsValid(s) && LocationsValid(s) && ListingsValid(s) && TreeValid(s) && DictsValid(s) && Journalled(s)
  }

  // ---------------------------------------------------------------- every operation keeps it

  /** Objects keep their ids. */
  ghost predicate SameIds(a: seq<Dev>, b: seq<Dev>) {
    |a| <= |b| && forall r :: 0 <= r < |a| ==> b[r].id == a[r].id
  }

  lemma ShapeKept(s: Reg, t: Reg)
    requires TreeValid(s) && DictsValid(s)
    requires t.tops == s.tops && t.buses.Keys == s.buses.Keys
    requires forall p :: p in s.buses ==> t.buses[p].subs == s.buses[p].subs
    ensures TreeValid(t) && DictsValid(t)
  {
    hide Parent;
    forall q | q in t.buses ensures Attached(t, q) && SubsLive(t, q) {
      assert Attached(s, q) && SubsLive(s, q);
    }
  }

  lemma ListingsKept(s: Reg, t: Reg)
    requires ListingsValid(s) && SameIds(s.objs, t.objs)
    requires forall p :: p in t.buses ==>
               (p in s.buses && t.buses[p].devs == s.buses[p].devs) || DistinctIds(t.objs, t.buses[p].devs)
    ensures ListingsValid(t)
  {
  }

  /** get_device does not make a second object for a registered id: the id is registered as it is spelled, or not at
      all. An upper-case id always is. */
  predicate WellSpelled(s: Reg, id: string) {
    id in s.ids || Upper(id) !in s.ids
  }

  /** The journal survives get_device exactly then: otherwise a listener hears of a device that it already knows. */
  lemma GetDeviceJournalledIff(s: Reg, id: string)
    requires Journalled(s)
    ensures Journalled(GetDevice(s, id).0) <==> WellSpelled(s, id)
  {
    hide Replay, Upper;
    var t := GetDevice(s, id).0;
    if id !in s.ids {
      ReplayLast(s.log, DeviceAdded(Upper(id)));
      if WellSpelled(s, id) {
        assert t.ids == s.ids[Upper(id) := |s.objs|] && t.objs == s.objs + [Dev(Upper(id), None, 0)];
        assert SnapshotOf(t) == SnapshotOf(s).(devs := SnapshotOf(s).devs[Upper(id) := None]);
      }
    }
  }

  /** get_device of an id that is not registered makes one object, located nowhere and not missed by any scan yet; of
      one that is, nothing. */
  lemma GetDeviceMeaning(s: Reg, id: string)
    ensures var (t, r) := GetDevice(s, id);
            if id in s.ids then t == s && r == s.ids[id]
            else
              |t.objs| == |s.objs| + 1 && t.objs[..|s.objs|] == s.objs && r == |s.objs| &&
              t.objs[r] == Dev(Upper(id), None, 0) && t.ids == s.ids[Upper(id) := r] && t.buses == s.buses &&
              t.tops == s.tops && t.log == s.log + [DeviceAdded(Upper(id))]
  {
  }

  lemma GetDeviceValid(s: Reg, id: string)
    requires Valid(s)
    ensures var (t, r) := GetDevice(s, id);
            (Valid(t) <==> WellSpelled(s, id)) &&
            (WellSpelled(s, id) ==> r < |t.objs| && t.objs[r].id in t.ids && t.ids[t.objs[r].id] == r) &&
            (Canonical(id) ==> Valid(t) && r < |t.objs| && id in t.ids && t.ids[id] == r)
  {
    hide TreeValid, DictsValid, ListingsValid, Upper, Replay, SnapshotOf;
    var (t, r) := GetDevice(s, id);
    GetDeviceJournalledIff(s, id);
    if id !in s.ids && WellSpelled(s, id) {
      ShapeKept(s, t);
      ListingsKept(s, t);
    }
  }

  /** The journal survives locate exactly if the device is there already, or the bus is live and the device registered:
      otherwise a listener hears of a bus or a device that it does not know, or takes the device for another one. */
  lemma LocateJournalledIff(s: Reg, p: BusPath, r: nat)
    requires Journalled(s) && r < |s.objs|
    ensures Journalled(Locate(s, p, r)) <==> s.objs[r].bus == Some(p) || (p in s.buses && IsRegistered(s, r))
  {
    hide Replay;
    var t, id := Locate(s, p, r), s.objs[r].id;
    if s.objs[r].bus != Some(p) {
      ReplayLast(s.log, DeviceLocated(id, p));
      if IsRegistered(s, r) {
        assert SnapshotOf(t) == SnapshotOf(s).(devs := SnapshotOf(s).devs[id := Some(p)]);
      } else if id in s.ids {
        assert t.objs[t.ids[id]] == s.objs[s.ids[id]];
        assert SnapshotOf(t).devs[id] == SnapshotOf(s).devs[id];
      }
    }
  }

  lemma SameJournal(s: Reg, t: Reg)
    requires s.objs == t.objs && s.ids == t.ids && s.buses.Keys == t.buses.Keys && s.log == t.log
    ensures Journalled(s) <==> Journalled(t)
  {
    hide Replay;
    if IdsValid(s) {
      assert SnapshotOf(s) == SnapshotOf(t);
    }
  }

  lemma AddDeviceLocations(s: Reg, p: BusPath, r: nat)
    requires LocationsValid(s) && HasBus(s, p) && r < |s.objs|
    ensures LocationsValid(AddDevice(s, p, r)) <==> IsRegistered(s, r)
  {
    var t := AddDevice(s, p, r);
    assert t.objs[r].bus == Some(p) && t.objs[r].id == s.objs[r].id;
  }

  /** add_device keeps the invariant, and the journal, exactly if the device object is the registered one of its id. */
  lemma AddDeviceValid(s: Reg, p: BusPath, r: nat)
    requires Valid(s) && p in s.buses && r < |s.objs|
    ensures Valid(AddDevice(s, p, r)) <==> IsRegistered(s, r)
    ensures Journalled(AddDevice(s, p, r)) <==> IsRegistered(s, r)
  {
    hide TreeValid, DictsValid, Replay, SnapshotOf, LocationsValid;
    var t := AddDevice(s, p, r);
    LocateJournalledIff(s, p, r);
    SameJournal(Locate(s, p, r), t);
    AddDeviceLocations(s, p, r);
    LocatedRegistered(s, r);
    ShapeKept(s, t);
    DistinctStays(s.objs, t.objs, t.buses[p].devs);
    ListingsKept(s, t);
  }

  lemma LocatedRegistered(s: Reg, r: nat)
    requires LocationsValid(s) && r < |s.objs|
    ensures s.objs[r].bus.Some? ==> IsRegistered(s, r)
  {
  }

  /** add_device changes nothing but the device's bus and the bus's entry of its id. */
  lemma AddDeviceMeaning(s: Reg, p: BusPath, r: nat)
    requires HasBus(s, p) && r < |s.objs|
    ensures var t := AddDevice(s, p, r);
            |t.objs| == |s.objs| && t.objs[r] == Dev(s.objs[r].id, Some(p), s.objs[r].unseen) &&
            (forall x :: 0 <= x < |s.objs| && x != r ==> t.objs[x] == s.objs[x]) &&
            t.ids == s.ids && t.tops == s.tops && t.buses.Keys == s.buses.Keys &&
            (forall q :: q in s.buses && q != p ==> t.buses[q] == s.buses[q]) && t.buses[p].subs == s.buses[p].subs &&
            (forall x :: x in t.buses[p].devs <==> x == r || (x in s.buses[p].devs && s.objs[x].id != s.objs[r].id)) &&
            t.log == s.log + if s.objs[r].bus == Some(p) then [] else [DeviceLocated(s.objs[r].id, p)]
  {
    hide WithEntry, DistinctIds;
    assert s.log + [] == s.log;
  }

  lemma DistinctStays(a: seq<Dev>, b: seq<Dev>, devs: seq<nat>)
    requires DistinctIds(a, devs) && SameIds(a, b)
    ensures DistinctIds(b, devs)
  {
  }

  /** A dictionary depends on the ids of its devices only. */
  lemma {:induction false} WithEntryIds(objs: seq<Dev>, after: seq<Dev>, devs: seq<nat>, r: nat)
    requires DistinctIds(objs, devs) && r < |objs| && SameIds(objs, after)
    ensures DistinctIds(after, devs) && WithEntry(after, devs, r) == WithEntry(objs, devs, r)
  {
    DistinctStays(objs, after, devs);
    if devs != [] {
      assert devs == [devs[0]] + devs[1..];
      WithEntryIds(objs, after, devs[1..], r);
    }
  }

  lemma DelocateJournal(s: Reg, p: BusPath, r: nat)
    requires Journalled(s) && HasBus(s, p) && r < |s.objs|
    requires s.objs[r].bus.Some? ==> IsRegistered(s, r)
    ensures Journalled(Delocate(s, p, r))
  {
    hide Replay, WithoutId, DistinctIds;
    var t := Delocate(s, p, r);
    var id := s.objs[r].id;
    if s.objs[r].bus == Some(p) {
      assert t.buses.Keys == s.buses.Keys;
      ReplayLast(s.log, DeviceNotFound(id));
      assert SnapshotOf(t) == SnapshotOf(s).(devs := SnapshotOf(s).devs[id := None]);
    }
  }

  lemma DelocateLocations(s: Reg, p: BusPath, r: nat)
    requires IdsValid(s) && LocationsValid(s) && HasBus(s, p) && r < |s.objs|
    ensures LocationsValid(Delocate(s, p, r))
  {
  }

  lemma DelocateValid(s: Reg, p: BusPath, r: nat)
    requires Valid(s) && p in s.buses && r < |s.objs|
    ensures Valid(Delocate(s, p, r))
  {
    hide TreeValid, DictsValid, Journalled;
    var t := Delocate(s, p, r);
    DelocateJournal(s, p, r);
    DelocateLocations(s, p, r);
    ShapeKept(s, t);
    DistinctStays(s.objs, t.objs, t.buses[p].devs);
    ListingsKept(s, t);
  }

  lemma SetUnseenValid(s: Reg, r: nat, unseen: nat)
    requires Valid(s) && r < |s.objs|
    ensures Valid(SetUnseen(s, r, unseen))
  {
    hide TreeValid, DictsValid, ListingsValid;
    var t := SetUnseen(s, r, unseen);
    assert SnapshotOf(t) == SnapshotOf(s);
    ShapeKept(s, t);
    ListingsKept(s, t);
  }

  /** A live bus has a live parent, so a path its parent does not list is not live. */
  lemma NotListedNotLive(s: Reg, q: BusPath)
    requires TreeValid(s)
    requires if |q| == 1 then q !in s.tops else |q| >= 3 && Parent(q) in s.buses && q !in s.buses[Parent(q)].subs
    ensures q !in s.buses
  {
    hide Parent;
    assert q in s.buses ==> Attached(s, q);
  }

  lemma NewBusTree(s: Reg, p: BusPath, q: BusPath, t: Reg)
    requires TreeValid(s) && p in s.buses && |q| == |p| + 2 && Parent(q) == p && q !in s.buses
    requires t.tops == s.tops
    requires t.buses == s.buses[p := s.buses[p].(subs := s.buses[p].subs + [q])][q := BusRec([], [])]
    ensures TreeValid(t)
  {
    hide Parent;
    assert Attached(s, p);
    forall x | x in t.buses ensures Attached(t, x) {
      if x != q {
        assert Attached(s, x);
      }
    }
    forall x | x in t.buses ensures SubsLive(t, x) {
      assert x in s.buses ==> SubsLive(s, x);
    }
  }

  lemma NewBusDicts(s: Reg, p: BusPath, q: BusPath, t: Reg)
    requires DictsValid(s) && p in s.buses && q !in s.buses[p].subs
    requires t.tops == s.tops
    requires t.buses == s.buses[p := s.buses[p].(subs := s.buses[p].subs + [q])][q := BusRec([], [])]
    ensures DictsValid(t)
  {
  }

  lemma BusAddedJournal(s: Reg, q: BusPath, t: Reg)
    requires Journalled(s) && q !in s.buses && q != [] && (|q| >= 3 ==> Parent(q) in s.buses)
    requires t.objs == s.objs && t.ids == s.ids && t.buses.Keys == s.buses.Keys + {q} && t.log == s.log + [BusAdded(q)]
    ensures Journalled(t)
  {
  }

  lemma SubIsLive(s: Reg, p: BusPath, q: BusPath)
    requires TreeValid(s) && p in s.buses && q in s.buses[p].subs
    ensures q in s.buses
  {
    assert SubsLive(s, p);
  }

  lemma PortParent(s: Reg, p: BusPath, id: string, port: string)
    requires TreeValid(s) && p in s.buses
    ensures var q := Port(p, id, port); Parent(q) == p && |q| == |p| + 2 && |q| >= 3
  {
    assert Attached(s, p);
  }

  lemma BusesOnlyValid(s: Reg, t: Reg)
    requires IdsValid(s) && LocationsValid(s) && t.objs == s.objs && t.ids == s.ids
    requires forall p :: p in s.buses ==> p in t.buses && t.buses[p].devs == s.buses[p].devs
    ensures IdsValid(t) && LocationsValid(t)
  {
  }

  lemma GetSubBusValid(s: Reg, p: BusPath, id: string, port: string)
    requires Valid(s) && p in s.buses
    ensures Valid(GetSubBus(s, p, id, port)) && Port(p, id, port) in GetSubBus(s, p, id, port).buses
  {
    hide DictsValid, ListingsValid, Journalled;
    hide TreeValid, LocationsValid, IdsValid;
    var q := Port(p, id, port);
    var t := GetSubBus(s, p, id, port);
    PortParent(s, p, id, port);
    if q in s.buses[p].subs {
      SubIsLive(s, p, q);
    } else {
      NotListedNotLive(s, q);
      BusesOnlyValid(s, t);
      NewBusTree(s, p, q, t);
      NewBusDicts(s, p, q, t);
      ListingsKept(s, t);
      BusAddedJournal(s, q, t);
    }
  }

  lemma NewTopTree(s: Reg, q: BusPath, t: Reg)
    requires TreeValid(s) && |q| == 1 && q !in s.buses
    requires t.tops == s.tops + [q] && t.buses == s.buses[q := BusRec([], [])]
    ensures TreeValid(t)
  {
    hide Parent;
    forall x | x in t.buses ensures Attached(t, x) {
      if x != q {
        assert Attached(s, x);
      }
    }
    forall x | x in t.buses ensures SubsLive(t, x) {
      assert x in s.buses ==> SubsLive(s, x);
    }
  }

  lemma NewTopDicts(s: Reg, q: BusPath, t: Reg)
    requires DictsValid(s) && q !in s.tops
    requires t.tops == s.tops + [q] && t.buses == s.buses[q := BusRec([], [])]
    ensures DictsValid(t)
  {
  }

  lemma TopIsLive(s: Reg, q: BusPath)
    requires TreeValid(s) && q in s.tops
    ensures q in s.buses
  {
  }

  lemma GetTopBusValid(s: Reg, name: string)
    requires Valid(s)
    ensures Valid(GetTopBus(s, name)) && [name] in GetTopBus(s, name).buses
  {
    hide TreeValid, LocationsValid, IdsValid, DictsValid, ListingsValid, Journalled;
    var t := GetTopBus(s, name);
    if [name] in s.tops {
      TopIsLive(s, [name]);
    } else {
      NotListedNotLive(s, [name]);
      BusesOnlyValid(s, t);
      NewTopTree(s, [name], t);
      NewTopDicts(s, [name], t);
      ListingsKept(s, t);
      BusAddedJournal(s, [name], t);
    }
  }

  /** The journal survives the deletion exactly if the registered device of the id, which need not be the object given,
      is located nowhere. */
  lemma DeleteDeviceJournalledIff(s: Reg, r: nat)
    requires Journalled(s) && r < |s.objs| && DeleteDevice(s, r).Some?
    ensures Journalled(DeleteDevice(s, r).value) <==> !IsLocated(s, s.objs[r].id)
  {
    hide Replay;
    var t, id := DeleteDevice(s, r).value, s.objs[r].id;
    ReplayLast(s.log, DeviceDeleted(id));
    if !IsLocated(s, id) {
      assert SnapshotOf(t) == SnapshotOf(s).(devs := SnapshotOf(s).devs - {id});
    }
  }

  lemma DeleteDeviceValid(s: Reg, r: nat)
    requires Valid(s) && r < |s.objs|
    ensures DeleteDevice(s, r).Some? <==> s.objs[r].bus.None? && s.objs[r].id in s.ids
    ensures DeleteDevice(s, r).Some? ==>
              (Valid(DeleteDevice(s, r).value) <==> !IsLocated(s, s.objs[r].id)) &&
              (IsRegistered(s, r) ==> Valid(DeleteDevice(s, r).value))
  {
    hide TreeValid, DictsValid, ListingsValid, Replay, SnapshotOf;
    if DeleteDevice(s, r).Some? {
      var t := DeleteDevice(s, r).value;
      DeleteDeviceJournalledIff(s, r);
      ShapeKept(s, t);
      ListingsKept(s, t);
    }
  }

  // ---------------------------------------------------------------- scanning

  /** What the server lists below a bus. A coupler entry leads to two more directories; a directory that
      cannot be read stands for any exception while listing it. */
  datatype Dir = Unreadable | Dir(entries: seq<Entry>)
  datatype Entry = Entry(name: string, main: Dir, aux: Dir)

  /** A scan under way: the registry, the ids not seen again so far, and whether no exception was raised. */
  datatype Visited = Visited(reg: Reg, left: seq<string>, ok: bool)

  /** The device of a listed id, and whether its class is set up. */
  function Ready(s: Reg, name: string): (Reg, nat, bool) {
    var (made, r) := GetDevice(s, name);
    var (t, ok) := EnsureStruct(made, name);
    (t, r, ok)
  }

  /** One listed id: the device is made if need be, its class is set up, and it is located here. */
  function Found(s: Reg, p: BusPath, name: string, left: seq<string>): Visited {
    var (t, r, ok) := Ready(s, name);
    if !ok || r >= |t.objs| || !HasBus(t, p) then Visited(t, left, false)
    else if t.objs[r].bus == Some(p) then
      if name !in left then Visited(t, left, false) else Visited(SetUnseen(t, r, 0), Without(left, name), true)
    else Visited(SetUnseen(AddDevice(t, p, r), r, 0), left, true)
  }

  function Entries(s: Reg, p: BusPath): seq<nat> {
    if p in s.buses then s.buses[p].devs else []
  }

  function FindEntry(objs: seq<Dev>, devs: seq<nat>, id: string): (r: Option<nat>)
    requires forall i :: 0 <= i < |devs| ==> devs[i] < |objs|
    ensures r.Some? ==> r.value in devs && r.value < |objs| && objs[r.value].id == id
    ensures r.None? ==> forall x :: x in devs ==> objs[x].id != id
  {
    if devs == [] then None
    else if objs[devs[0]].id == id then Some(devs[0])
    else
      assert devs == [devs[0]] + devs[1..];
      FindEntry(objs, devs[1..], id)
  }

  /** One id that was not listed: lost after more than two scans without it, counted otherwise. */
  function Missed(s: Reg, p: BusPath, id: string): Option<Reg> {
    if !HasBus(s, p) then None
    else
      var r := FindEntry(s.objs, s.buses[p].devs, id);
      if r.None? then None
      else if s.objs[r.value].unseen > 2 then Some(Delocate(s, p, r.value))
      else Some(SetUnseen(s, r.value, s.objs[r.value].unseen + 1))
  }

  function MissedAll(s: Reg, p: BusPath, ids: seq<string>): (Reg, bool)
    decreases |ids|
  {
    if ids == [] then (s, true)
    else
      var t := Missed(s, p, ids[0]);
      if t.None? then (s, false) else MissedAll(t.value, p, ids[1..])
  }

  /** Bus._scan_one */
  function Scan(s: Reg, p: BusPath, d: Dir): (Reg, bool)
    decreases d, 1
  {
    if d.Unreadable? || !HasBus(s, p) then (s, false)
    else
      var v := Visit(s, p, d.entries, Listed(s.objs, s.buses[p].devs));
      if !v.ok then (v.reg, false) else MissedAll(v.reg, p, v.left)
  }

  function Visit(s: Reg, p: BusPath, es: seq<Entry>, left: seq<string>): Visited
    decreases es, 0
  {
    if es == [] then Visited(s, left, true)
    else
      var v := VisitOne(s, p, es[0], left);
      if !v.ok then v else Visit(v.reg, p, es[1..], v.left)
  }

  function VisitOne(s: Reg, p: BusPath, e: Entry, left: seq<string>): Visited
    decreases e, 3
  {
    if !IsId(e.name) then Visited(s, left, true)
    else
      var v := Found(s, p, e.name, left);
      if !v.ok || !IsCoupler(e.name) then v
      else
        var (a, okA) := ScanPort(v.reg, p, e.name, "main", e.main);
        if !okA then Visited(a, v.left, false)
        else
          var (b, okB) := ScanPort(a, p, e.name, "aux", e.aux);
          Visited(b, v.left, okB)
  }

  function ScanPort(s: Reg, p: BusPath, id: string, port: string, d: Dir): (Reg, bool)
    decreases d, 2
  {
    if p !in s.buses then (s, false) else Scan(GetSubBus(s, p, Upper(id), port), Port(p, Upper(id), port), d)
  }

  /** Server._scan_base: every listed name that starts with "bus." */
  function ScanBase(s: Reg, es: seq<(string, Dir)>): (Reg, bool)
    decreases |es|
  {
    if es == [] then (s, true)
    else if !("bus." <= es[0].0) then ScanBase(s, es[1..])
    else
      var (t, ok) := Scan(GetTopBus(s, es[0].0), [es[0].0], es[0].1);
      if !ok then (t, false) else ScanBase(t, es[1..])
  }

  // ---------------------------------------------------------------- scanning keeps the invariant

  ghost predicate CanonicalDir(d: Dir) {
    d.Dir? ==> forall e :: e in d.entries ==> CanonicalEntry(e)
  }

  ghost predicate CanonicalEntry(e: Entry) {
    IsId(e.name) ==>
      Canonical(e.name) && (IsCoupler(e.name) ==> CanonicalDir(e.main) && CanonicalDir(e.aux))
  }

  /** Scanning and registering never remove a live bus. */
  ghost predicate Grows(s: Reg, t: Reg) {
    s.buses.Keys <= t.buses.Keys
  }

  lemma GetDeviceFacts(s: Reg, id: string)
    ensures var t := GetDevice(s, id).0; t.buses == s.buses && t.tops == s.tops && t.structs == s.structs
  {
  }

  /** Which classes are set up is not part of the invariant. */
  lemma StructsValid(s: Reg, c: Structs)
    requires Valid(s)
    ensures Valid(s.(structs := c))
  {
    hide TreeValid, DictsValid, Replay;
    var t := s.(structs := c);
    ShapeKept(s, t);
    assert SnapshotOf(t) == SnapshotOf(s);
  }

  lemma ReadyValid(s: Reg, name: string)
    requires Valid(s) && (Canonical(name) || WellSpelled(s, name))
    ensures var (t, r, ok) := Ready(s, name);
            Valid(t) && t.buses == s.buses && t.tops == s.tops &&
            r < |t.objs| && t.objs[r].id in t.ids && t.ids[t.objs[r].id] == r &&
            (ok <==> Loads(s.structs, Family(name))) &&
            t.structs == if ok then WithReady(s.structs, Family(name)) else s.structs
  {
    hide Valid, GetDevice, WellSpelled, Canonical, Loads, WithReady;
    var made := GetDevice(s, name).0;
    GetDeviceValid(s, name);
    GetDeviceFacts(s, name);
    CanonicalSpelled(s, name);
    StructsValid(made, WithReady(made.structs, Family(name)));
  }

  lemma CanonicalSpelled(s: Reg, name: string)
    ensures Canonical(name) ==> WellSpelled(s, name)
  {
  }

  lemma FoundValid(s: Reg, p: BusPath, name: string, left: seq<string>)
    requires Valid(s) && p in s.buses && (Canonical(name) || WellSpelled(s, name))
    ensures Valid(Found(s, p, name, left).reg) && Grows(s, Found(s, p, name, left).reg)
  {
    hide Valid, Ready, Canonical, WellSpelled;
    var (t, r, ok) := Ready(s, name);
    ReadyValid(s, name);
    ValidParts(t);
    if t.objs[r].bus == Some(p) {
      SetUnseenValid(t, r, 0);
    } else {
      AddDeviceValid(t, p, r);
      SetUnseenValid(AddDevice(t, p, r), r, 0);
    }
  }

  lemma ValidParts(s: Reg)
    requires Valid(s)
    ensures IdsValid(s) && LocationsValid(s) && ListingsValid(s) && TreeValid(s) && DictsValid(s) && Journalled(s)
  {
  }

  lemma MissedValid(s: Reg, p: BusPath, id: string)
    requires Valid(s) && p in s.buses && Missed(s, p, id).Some?
    ensures Valid(Missed(s, p, id).value) && Grows(s, Missed(s, p, id).value)
  {
    hide Valid;
    var r := FindEntry(s.objs, s.buses[p].devs, id).value;
    DelocateValid(s, p, r);
    SetUnseenValid(s, r, s.objs[r].unseen + 1);
  }

  lemma {:induction false} MissedAllValid(s: Reg, p: BusPath, ids: seq<string>)
    requires Valid(s) && p in s.buses
    ensures Valid(MissedAll(s, p, ids).0) && Grows(s, MissedAll(s, p, ids).0)
    decreases |ids|
  {
    hide Valid, Missed;
    if ids != [] && Missed(s, p, ids[0]).Some? {
      MissedValid(s, p, ids[0]);
      MissedAllValid(Missed(s, p, ids[0]).value, p, ids[1..]);
    }
  }

  /** Every scan keeps the invariant, wherever it breaks off, over upper-case ids. Module Spelling has the others. */
  lemma {:induction false} ScanValid(s: Reg, p: BusPath, d: Dir)
    requires Valid(s) && p in s.buses && CanonicalDir(d)
    ensures Valid(Scan(s, p, d).0) && Grows(s, Scan(s, p, d).0)
    decreases d, 1
  {
    hide Valid, MissedAll;
    if d.Dir? && HasBus(s, p) {
      var left := Listed(s.objs, s.buses[p].devs);
      VisitValid(s, p, d.entries, left);
      MissedAllValid(Visit(s, p, d.entries, left).reg, p, Visit(s, p, d.entries, left).left);
    }
  }

  lemma {:induction false} VisitValid(s: Reg, p: BusPath, es: seq<Entry>, left: seq<string>)
    requires Valid(s) && p in s.buses && forall e :: e in es ==> CanonicalEntry(e)
    ensures Valid(Visit(s, p, es, left).reg) && Grows(s, Visit(s, p, es, left).reg)
    decreases es, 0
  {
    hide Valid, VisitOne, CanonicalEntry;
    if es != [] {
      assert es[0] in es;
      VisitOneValid(s, p, es[0], left);
      var v := VisitOne(s, p, es[0], left);
      VisitValid(v.reg, p, es[1..], v.left);
    }
  }

  lemma {:induction false} VisitOneValid(s: Reg, p: BusPath, e: Entry, left: seq<string>)
    requires Valid(s) && p in s.buses && CanonicalEntry(e)
    ensures Valid(VisitOne(s, p, e, left).reg) && Grows(s, VisitOne(s, p, e, left).reg)
    decreases e, 3
  {
    hide Valid, Found, IsId, IsCoupler, ScanPort;
    if IsId(e.name) {
      var v := Found(s, p, e.name, left);
      FoundValid(s, p, e.name, left);
      if v.ok && IsCoupler(e.name) {
        var a := ScanPort(v.reg, p, e.name, "main", e.main);
        ScanPortValid(v.reg, p, e.name, "main", e.main);
        ScanPortValid(a.0, p, e.name, "aux", e.aux);
      }
    }
  }

  lemma {:induction false} ScanPortValid(s: Reg, p: BusPath, id: string, port: string, d: Dir)
    requires Valid(s) && p in s.buses && CanonicalDir(d)
    ensures Valid(ScanPort(s, p, id, port, d).0) && Grows(s, ScanPort(s, p, id, port, d).0)
    decreases d, 2
  {
    hide Valid, Scan;
    GetSubBusValid(s, p, Upper(id), port);
    ScanValid(GetSubBus(s, p, Upper(id), port), Port(p, Upper(id), port), d);
  }

  lemma {:induction false} ScanBaseValid(s: Reg, es: seq<(string, Dir)>)
    requires Valid(s) && forall e :: e in es ==> CanonicalDir(e.1)
    ensures Valid(ScanBase(s, es).0) && Grows(s, ScanBase(s, es).0)
    decreases |es|
  {
    hide Valid, Scan, GetTopBus;
    if es != [] {
      if "bus." <= es[0].0 {
        GetTopBusValid(s, es[0].0);
        GetTopBusGrows(s, es[0].0);
        ScanValid(GetTopBus(s, es[0].0), [es[0].0], es[0].1);
        ScanBaseValid(Scan(GetTopBus(s, es[0].0), [es[0].0], es[0].1).0, es[1..]);
      } else {
        ScanBaseValid(s, es[1..]);
      }
    }
  }

  lemma GetTopBusGrows(s: Reg, name: string)
    ensures Grows(s, GetTopBus(s, name))
  {
  }
}
