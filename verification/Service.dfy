/** The service, its devices and their buses as objects (asyncowfs/service.py, bus.py, device.py), method by method
    proved to do what Registry and Teardown say about the registry's value. */
module Service {
  import opened Text
  import opened Registry
  import Accessors
  import Teardown

  class Device {
    const id: string
    ghost const serial: nat
    var bus: Bus?
    var unseen: nat

    constructor (name: string, ghost serial: nat)
      ensures id == Upper(name) && this.serial == serial && bus == null && unseen == 0
    {
      id, this.serial, bus, unseen := Upper(name), serial, null, 0;
    }

    ghost function Value(): Dev
      reads this
    {
      Dev(id, if bus == null then None else Some(bus.path), unseen)
    }
  }

  class Bus {
    const path: BusPath
    var devices: seq<Device>  // a dictionary by id, in insertion order
    var subs: seq<Bus>        // a dictionary by the last two components

    constructor (path: BusPath)
      ensures this.path == path && devices == [] && subs == []
    {
      this.path, devices, subs := path, [], [];
    }
  }

  // ---------------------------------------------------------------- dictionaries of objects

  ghost function Serials(ds: seq<Device>): (rs: seq<nat>)
    ensures |rs| == |ds|
  {
    seq(|ds|, i requires 0 <= i < |ds| => ds[i].serial)
  }

  ghost function Paths(bs: seq<Bus>): (ps: seq<BusPath>)
    ensures |ps| == |bs|
  {
    seq(|bs|, i requires 0 <= i < |bs| => bs[i].path)
  }

  function Put(ds: seq<Device>, d: Device): seq<Device> {
    if ds == [] then [d] else if ds[0].id == d.id then [d] + ds[1..] else [ds[0]] + Put(ds[1..], d)
  }

  function Drop(ds: seq<Device>, id: string): seq<Device> {
    if ds == [] then [] else if ds[0].id == id then ds[1..] else [ds[0]] + Drop(ds[1..], id)
  }

  function Ids(ds: seq<Device>): seq<string> {
    seq(|ds|, i requires 0 <= i < |ds| => ds[i].id)
  }

  function WithoutBus(bs: seq<Bus>, b: Bus): seq<Bus> {
    if bs == [] then [] else if bs[0] == b then bs[1..] else [bs[0]] + WithoutBus(bs[1..], b)
  }

  /** The objects in the store are the ones in the value. */
  ghost predicate InStore(objs: seq<Dev>, ds: seq<Device>) {
    forall i :: 0 <= i < |ds| ==> ds[i].serial < |objs| && objs[ds[i].serial].id == ds[i].id
  }

  lemma ConsSerials(d: Device, rest: seq<Device>)
    ensures Serials([d] + rest) == [d.serial] + Serials(rest)
  {
  }

  lemma InStoreTail(objs: seq<Dev>, ds: seq<Device>)
    requires ds != [] && InStore(objs, ds) && DistinctIds(objs, Serials(ds))
    ensures InStore(objs, ds[1..]) && Serials(ds) == [ds[0].serial] + Serials(ds[1..]) &&
            DistinctIds(objs, Serials(ds[1..]))
    ensures Serials(ds)[0] == ds[0].serial && Serials(ds)[1..] == Serials(ds[1..])
    ensures ds[0].serial < |objs| && objs[ds[0].serial].id == ds[0].id
  {
    assert Serials(ds)[1..] == Serials(ds[1..]);
    assert DistinctIds(objs, Serials(ds)[1..]);
  }

  lemma {:induction false} PutIsWithEntry(objs: seq<Dev>, ds: seq<Device>, d: Device)
    requires InStore(objs, ds) && DistinctIds(objs, Serials(ds)) && d.serial < |objs| && objs[d.serial].id == d.id
    ensures Serials(Put(ds, d)) == WithEntry(objs, Serials(ds), d.serial)
  {
    if ds == [] {
      assert Serials([d]) == [d.serial];
    } else {
      InStoreTail(objs, ds);
      hide DistinctIds, InStore, Serials;
      PutIsWithEntry(objs, ds[1..], d);
      ConsSerials(d, ds[1..]);
      ConsSerials(ds[0], Put(ds[1..], d));
    }
  }

  lemma {:induction false} PutMembers(ds: seq<Device>, d: Device)
    ensures forall x :: x in Put(ds, d) ==> x == d || x in ds
  {
    if ds != [] {
      PutMembers(ds[1..], d);
    }
  }

  lemma {:induction false} DropIsWithoutId(objs: seq<Dev>, ds: seq<Device>, id: string)
    requires InStore(objs, ds) && DistinctIds(objs, Serials(ds))
    ensures Serials(Drop(ds, id)) == WithoutId(objs, Serials(ds), id)
  {
    if ds != [] {
      InStoreTail(objs, ds);
      hide DistinctIds, InStore, Serials;
      DropIsWithoutId(objs, ds[1..], id);
      ConsSerials(ds[0], Drop(ds[1..], id));
    }
  }

  lemma {:induction false} DropMembers(ds: seq<Device>, id: string)
    ensures forall x :: x in Drop(ds, id) ==> x in ds
  {
    if ds != [] {
      DropMembers(ds[1..], id);
    }
  }

  // ---------------------------------------------------------------- the service

  class Registrar {
    ghost var made: seq<Device>           // every device object, by serial number
    ghost var live: map<BusPath, Bus>     // every live bus, by path
    var ids: map<string, Device>
    var tops: seq<Bus>
    var events: seq<Event>
    var structs: Structs

    constructor (structs: Structs)
      ensures Wired() && State() == Teardown.Empty(structs) && fresh(Objects())
    {
      made, live, ids, tops, events, this.structs := [], map[], map[], [], [], structs;
    }

    ghost function Objects(): set<object>
      reads this
    {
      {this as object} + (set d: Device | d in made :: d as object) + (set p | p in live :: live[p] as object)
    }

    ghost predicate Known(d: Device)
      reads this
    {
      d.serial < |made| && made[d.serial] == d
    }

    ghost predicate Live(b: Bus)
      reads this
    {
      b.path in live && live[b.path] == b
    }

    ghost predicate DeviceWired(i: nat)
      requires i < |made|
      reads this, made[i]
    {
      made[i].serial == i && (made[i].bus != null ==> Live(made[i].bus))
    }

    ghost predicate BusWired(p: BusPath)
      requires p in live
      reads this, live[p]
    {
      live[p].path == p && (forall d :: d in live[p].devices ==> Known(d)) &&
      (forall c :: c in live[p].subs ==> Live(c))
    }

    ghost predicate Wired()
      reads this, made, live.Values
    {
      (forall i {:trigger made[i]} :: 0 <= i < |made| ==> DeviceWired(i)) &&
      (forall id :: id in ids ==> Known(ids[id])) &&
      (forall p {:trigger live[p]} :: p in live ==> BusWired(p)) &&
      (forall c :: c in tops ==> Live(c))
    }

    ghost function DeviceValues(): (objs: seq<Dev>)
      reads this, made
      ensures |objs| == |made| && forall i {:trigger objs[i]} {:trigger made[i]} :: 0 <= i < |made| ==>
              objs[i] == made[i].Value()
    {
      seq(|made|, i requires 0 <= i < |made| reads this, made => made[i].Value())
    }

    ghost function BusValues(): (buses: map<BusPath, BusRec>)
      reads this, live.Values
      ensures buses.Keys == live.Keys
      ensures forall p {:trigger buses[p]} {:trigger live[p]} :: p in live ==>
              buses[p] == BusRec(Serials(live[p].devices), Paths(live[p].subs))
    {
      map p | p in live :: BusRec(Serials(live[p].devices), Paths(live[p].subs))
    }

    ghost function IdValues(): (m: map<string, nat>)
      reads this
      ensures m.Keys == ids.Keys && forall id {:trigger m[id]} {:trigger ids[id]} :: id in ids ==>
              m[id] == ids[id].serial
    {
      map id | id in ids :: ids[id].serial
    }

    /** The registry as a value. */
    ghost function State(): Reg
      reads this, made, live.Values
    {
      Reg(DeviceValues(), IdValues(), BusValues(), Paths(tops), events, structs)
    }

    /** Service.get_device; null stands for NotADevice. */
    method GetDevice(id: string) returns (d: Device?)
      requires Wired()
      modifies this`made, this`ids, this`events
      ensures Wired() && fresh(Objects() - old(Objects())) && old(made) <= made
      ensures d == null <==> DeviceOf(old(State()), id).None?
      ensures d == null ==> State() == old(State())
      ensures d != null ==> Known(d) && Some((State(), d.serial)) == DeviceOf(old(State()), id)
    {
      hide IsId;
      if id in ids {
        return ids[id];
      }
      if !IsId(id) {
        return null;
      }
      var dev := new Device(id, |made|);
      d := dev;
      made := made + [dev];
      ids := ids[d.id := dev];
      events := events + [DeviceAdded(d.id)];
      AfterNew(dev);
      WiredNew(dev);
      assert forall x :: x in Objects() ==> x == dev || x in old(Objects());
    }

    /** Service.ensure_struct; false stands for an exception. What the class had before makes no difference to that. */
    method EnsureStruct(name: string) returns (ok: bool)
      requires Wired()
      modifies this`structs
      ensures Wired() && (State(), ok) == Registry.EnsureStruct(old(State()), name)
    {
      hide Family;
      ok := true;
      if structs.On? && Family(name) !in structs.ready {
        if Family(name) !in structs.published {
          return false;
        }
        var given := Accessors.Given({}, {});
        var accessors := Accessors.SetupAccessors(structs.published[Family(name)], [], given);
        Accessors.SetupSucceedsIff(structs.published[Family(name)], [], given);
        if accessors.None? {
          return false;
        }
        structs := structs.(ready := structs.ready + {Family(name)});
      }
      StructsOnly();
      assert structs.On? && Family(name) in old(structs).ready ==> structs.ready + {Family(name)} == structs.ready;
    }

    twostate lemma StructsOnly()
      requires old(Wired()) && made == old(made) && live == old(live) && tops == old(tops) && ids == old(ids)
      requires events == old(events)
      requires forall i {:trigger made[i]} :: 0 <= i < |made| ==>
               made[i].bus == old(made[i].bus) && made[i].unseen == old(made[i].unseen)
      requires forall p {:trigger live[p]} :: p in live ==>
               live[p].subs == old(live[p].subs) && live[p].devices == old(live[p].devices)
      ensures Wired() && State() == old(State()).(structs := structs)
    {
      forall i | 0 <= i < |made| ensures DeviceWired(i) && DeviceValues()[i] == old(DeviceValues())[i] {
        assert old(DeviceWired(i));
        assert DeviceValues()[i] == made[i].Value();
        assert old(DeviceValues())[i] == old(made[i].Value());
      }
      forall p | p in live ensures BusWired(p) && BusValues()[p] == old(BusValues())[p] {
        assert old(BusWired(p));
        assert BusValues()[p] == BusRec(Serials(live[p].devices), Paths(live[p].subs));
        assert old(BusValues())[p] == old(BusRec(Serials(live[p].devices), Paths(live[p].subs)));
      }
      forall x | x in ids ensures Known(ids[x]) {
        assert old(Known(ids[x]));
      }
      forall c | c in tops ensures Live(c) {
        assert old(Live(c));
      }
    }

    twostate predicate Made(new d: Device)
      reads this, d, made, live.Values
    {
      old(Wired()) && made == old(made) + [d] && ids == old(ids)[d.id := d] && live == old(live) && tops == old(tops) &&
      structs == old(structs) &&
      d.serial == |old(made)| && d.bus == null && d.unseen == 0 &&
      (forall i :: 0 <= i < |old(made)| ==> made[i].bus == old(made[i].bus) && made[i].unseen == old(made[i].unseen)) &&
      (forall p :: p in old(live) ==> live[p].devices == old(live[p].devices) && live[p].subs == old(live[p].subs))
    }

    /** The value, once a device has been made. */
    twostate lemma AfterNew(new d: Device)
      requires Made(d) && events == old(events) + [DeviceAdded(d.id)]
      ensures State() == Logged(old(State()).(objs := old(State()).objs + [Dev(d.id, None, 0)],
                                              ids := old(State()).ids[d.id := |old(made)|]), DeviceAdded(d.id))
    {
      hide Wired;
      assert State().objs == old(State()).objs + [Dev(d.id, None, 0)];
      assert State().ids == old(State()).ids[d.id := |old(made)|];
      assert State().buses == old(State()).buses;
    }

    twostate lemma WiredNew(new d: Device)
      requires Made(d)
      ensures Wired() && Known(d)
    {
      hide State;
      forall p | p in live ensures BusWired(p) {
        assert old(BusWired(p));
      }
      forall i | 0 <= i < |made| ensures DeviceWired(i) {
        assert i < |made| - 1 ==> old(DeviceWired(i));
      }
      forall x | x in ids ensures Known(ids[x]) {
        assert x in old(ids) ==> old(Known(ids[x]));
      }
      forall c | c in tops ensures Live(c) {
        assert old(Live(c));
      }
    }

    /** The objects that a live bus lists are in the store. */
    lemma Stored(b: Bus)
      requires Wired() && Live(b)
      ensures InStore(State().objs, b.devices) && State().buses[b.path] == BusRec(Serials(b.devices), Paths(b.subs))
    {
      assert BusWired(b.path);
      forall i | 0 <= i < |b.devices| ensures Known(b.devices[i]) {
        assert b.devices[i] in b.devices;
      }
    }

    /** Only one device and one dictionary of devices have changed, and they are still wired up. */
    twostate predicate Edited(new r: nat, new p: BusPath)
      reads this, made, live.Values
    {
      old(Wired()) && made == old(made) && ids == old(ids) && tops == old(tops) && live == old(live) &&
      structs == old(structs) && r < |made| && p in live && (made[r].bus == null || Live(made[r].bus)) &&
      (forall x :: x in live[p].devices ==> x == made[r] || x in old(live[p].devices)) &&
      (forall i {:trigger made[i]} :: 0 <= i < |made| && i != r ==>
         made[i].bus == old(made[i].bus) && made[i].unseen == old(made[i].unseen)) &&
      (forall q {:trigger live[q]} :: q in live ==>
         live[q].subs == old(live[q].subs) && (live[q] != live[p] ==> live[q].devices == old(live[q].devices)))
    }

    twostate lemma StillWired(new r: nat, new p: BusPath)
      requires Edited(r, p)
      ensures Wired()
    {
      forall i | 0 <= i < |made| ensures DeviceWired(i) {
        assert old(DeviceWired(i));
      }
      forall q | q in live ensures BusWired(q) {
        assert old(BusWired(q)) && old(BusWired(p)) && old(DeviceWired(r));
      }
      forall id | id in ids ensures Known(ids[id]) {
        assert old(Known(ids[id]));
      }
      forall c | c in tops ensures Live(c) {
        assert old(Live(c));
      }
    }

    /** The value, when one device and one dictionary have changed. */
    twostate lemma OneOfEach(new r: nat, new p: BusPath)
      requires Edited(r, p)
      ensures State() == old(State()).(objs := old(State()).objs[r := made[r].Value()],
                                       buses := old(State()).buses[p :=
                                           BusRec(Serials(live[p].devices), Paths(live[p].subs))],
                                       log := events)
    {
      forall i | 0 <= i < |made| ensures DeviceValues()[i] == old(DeviceValues())[r := made[r].Value()][i] {
        assert old(DeviceWired(i));
        assert DeviceValues()[i] == made[i].Value();
        assert old(DeviceValues())[i] == old(made[i].Value());
      }
      forall q | q in live
        ensures BusValues()[q] == old(BusValues())[p := BusRec(Serials(live[p].devices), Paths(live[p].subs))][q] {
        assert old(BusWired(q)) && old(BusWired(p));
        assert BusValues()[q] == BusRec(Serials(live[q].devices), Paths(live[q].subs));
        assert old(BusValues())[q] == old(BusRec(Serials(live[q].devices), Paths(live[q].subs)));
      }
    }

    /** Device.locate */
    method Locate(d: Device, b: Bus)
      requires Wired() && Known(d) && Live(b)
      modifies d`bus, this`events
      ensures Wired()
      ensures State() == Registry.Locate(old(State()), b.path, d.serial)
      ensures d.bus == b && d.unseen == old(d.unseen) && events == State().log
    {
      hide DistinctIds;
      KnownValue(d);
      Stored(b);
      if d.bus != b {
        d.bus := b;
        events := events + [DeviceLocated(d.id, b.path)];
        StillWired(d.serial, b.path);
        OneOfEach(d.serial, b.path);
      }
    }

    lemma KnownValue(d: Device)
      requires Wired() && Known(d)
      ensures d.serial < |State().objs| && State().objs[d.serial] == d.Value() && (d.bus != null ==> Live(d.bus))
    {
      assert DeviceWired(d.serial);
    }

    method AddDevice(b: Bus, d: Device)
      requires Wired() && Known(d) && Live(b) && HasBus(State(), b.path)
      modifies d`bus, b`devices, this`events
      ensures Wired()
      ensures State() == Registry.AddDevice(old(State()), b.path, d.serial)
    {
      hide DistinctIds, WithEntry;
      KnownValue(d);
      SameDistinct(State().objs, Registry.Locate(State(), b.path, d.serial).objs, Serials(b.devices), d.serial);
      Stored(b);
      Locate(d, b);
      Enter(b, d);
    }

    /** self._devices[dev.id] = dev */
    method Enter(b: Bus, d: Device)
      requires Wired() && Known(d) && Live(b) && DistinctIds(State().objs, Serials(b.devices))
      modifies b`devices
      ensures Wired() && d.serial < |old(State()).objs|
      ensures State() == old(State()).(buses := old(State()).buses[b.path :=
                           BusRec(WithEntry(old(State()).objs, Serials(old(b.devices)), d.serial), Paths(b.subs))])
    {
      hide DistinctIds, WithEntry;
      KnownValue(d);
      Stored(b);
      PutIsWithEntry(State().objs, b.devices, d);
      PutMembers(b.devices, d);
      b.devices := Put(b.devices, d);
      StillWired(d.serial, b.path);
      OneOfEach(d.serial, b.path);
    }

    /** Moving a device does not change the ids of a dictionary. */
    lemma SameDistinct(objs: seq<Dev>, after: seq<Dev>, devs: seq<nat>, r: nat)
      requires r < |objs| && |after| == |objs| && (forall i :: 0 <= i < |objs| ==> after[i].id == objs[i].id)
      ensures DistinctIds(after, devs) <==> DistinctIds(objs, devs)
      ensures DistinctIds(objs, devs) ==> WithEntry(after, devs, r) == WithEntry(objs, devs, r)
    {
      if DistinctIds(objs, devs) {
        WithEntryIds(objs, after, devs, r);
      }
    }

    /** Device.delocate */
    method Delocate(b: Bus, d: Device)
      requires Wired() && Known(d) && Live(b) && HasBus(State(), b.path)
      modifies d`bus, b`devices, this`events
      ensures Wired()
      ensures State() == Registry.Delocate(old(State()), b.path, d.serial)
    {
      hide WithoutId, DistinctIds;
      KnownValue(d);
      if d.bus == b {
        Stored(b);
        DropIsWithoutId(State().objs, b.devices, d.id);
        DropMembers(b.devices, d.id);
        b.devices := Drop(b.devices, d.id);
        d.bus := null;
        events := events + [DeviceNotFound(d.id)];
        StillWired(d.serial, b.path);
        OneOfEach(d.serial, b.path);
      }
    }

    // ---------------------------------------------------------------- buses

    /** Objects stay where they are; there may be more of them. */
    twostate predicate Grown()
      reads this
    {
      old(made) <= made && forall p :: p in old(live) ==> p in live && live[p] == old(live)[p]
    }

    method FindBus(bs: seq<Bus>, path: BusPath) returns (found: Bus?)
      ensures found != null ==> found in bs && found.path == path
      ensures found == null <==> path !in Paths(bs)
    {
      found := null;
      var n := 0;
      while n < |bs|
        invariant n <= |bs| && forall i :: 0 <= i < n ==> bs[i].path != path
      {
        if bs[n].path == path {
          assert Paths(bs)[n] == path;
          return bs[n];
        }
        n := n + 1;
      }
    }

    /** A bus has just been made, and is listed nowhere else. */
    twostate predicate Opened(new q: Bus)
      reads this, q, made, live.Values
    {
      old(Wired()) && made == old(made) && ids == old(ids) && q.path !in old(live) && live == old(live)[q.path := q] &&
      structs == old(structs) &&
      q.devices == [] && q.subs == [] && (forall c :: c in tops ==> c == q || c in old(tops)) &&
      (forall i {:trigger made[i]} :: 0 <= i < |made| ==>
          made[i].bus == old(made[i].bus) && made[i].unseen == old(made[i].unseen)) &&
      (forall p {:trigger old(live)[p]} :: p in old(live) ==>
         live[p].devices == old(live[p].devices) &&
         forall c :: c in live[p].subs ==> c == q || c in old(live[p].subs))
    }

    twostate lemma WiredOpened(new q: Bus)
      requires Opened(q)
      ensures Wired() && Live(q)
    {
      forall i | 0 <= i < |made| ensures DeviceWired(i) {
        assert old(DeviceWired(i));
      }
      forall p | p in live ensures BusWired(p) {
        if p != q.path {
          assert old(BusWired(p));
        }
      }
      forall id | id in ids ensures Known(ids[id]) {
        assert old(Known(ids[id]));
      }
      forall c | c in tops ensures Live(c) {
        assert c in old(tops) ==> old(Live(c));
      }
    }

    twostate lemma ValuesOpened(new q: Bus)
      requires Opened(q)
      ensures State().objs == old(State()).objs && State().ids == old(State()).ids
      ensures forall p :: p in old(live) ==> State().buses[p] == BusRec(old(State()).buses[p].devs, Paths(live[p].subs))
      ensures State().buses.Keys == old(State()).buses.Keys + {q.path} && State().buses[q.path] == BusRec([], [])
    {
      forall i | 0 <= i < |made| ensures DeviceValues()[i] == old(DeviceValues())[i] {
        assert DeviceValues()[i] == made[i].Value();
        assert old(DeviceValues())[i] == old(made[i].Value());
      }
      forall p | p in old(live) ensures State().buses[p] == BusRec(old(State()).buses[p].devs, Paths(live[p].subs)) {
        assert BusValues()[p] == BusRec(Serials(live[p].devices), Paths(live[p].subs));
        assert old(BusValues())[p] == old(BusRec(Serials(live[p].devices), Paths(live[p].subs)));
      }
      assert Serials([]) == [] && Paths([]) == [];
    }

    /** Bus.get_bus */
    method GetSubBus(b: Bus, id: string, port: string) returns (q: Bus)
      requires Wired() && Live(b) && Valid(State())
      modifies this`live, this`events, b`subs
      ensures Wired() && Grown() && Live(q) && q.path == Port(b.path, id, port)
      ensures made == old(made) && forall p :: p in live ==> p in old(live) || fresh(live[p])
      ensures State() == Registry.GetSubBus(old(State()), b.path, id, port)
    {
      hide Valid;
      Stored(b);
      var path := Port(b.path, id, port);
      var found := FindBus(b.subs, path);
      if found != null {
        assert BusWired(b.path);
        return found;
      }
      PathNew(b, id, port);
      q := OpenBus(b, path);
    }

    method OpenBus(b: Bus, path: BusPath) returns (q: Bus)
      requires Wired() && Live(b) && path !in live
      modifies this`live, this`events, b`subs
      ensures Wired() && Grown() && Live(q) && q.path == path && fresh(q) && live == old(live)[path := q] &&
              made == old(made)
      ensures State() == Logged(old(State()).(buses := old(State()).buses[b.path :=
                           old(State()).buses[b.path].(subs := old(State()).buses[b.path].subs + [path])][path :=
                               BusRec([], [])]),
                           BusAdded(path))
    {
      hide Wired, State;
      q := new Bus(path);
      live := live[path := q];
      b.subs := b.subs + [q];
      events := events + [BusAdded(path)];
      LiveDistinct(b);
      OpenedBelow(b.path, q);
      WiredOpened(q);
      OpenedState(b.path, q);
    }

    twostate lemma LiveDistinct(b: Bus)
      requires old(Wired()) && old(Live(b))
      ensures forall x :: x in old(live) && old(live)[x] == b ==> x == b.path
    {
      forall x | x in old(live) && old(live)[x] == b ensures x == b.path {
        assert old(BusWired(x));
      }
    }

    twostate lemma OpenedState(new p: BusPath, new q: Bus)
      requires old(Wired()) && Opened(q) && p in old(live) && tops == old(tops) &&
               events == old(events) + [BusAdded(q.path)]
      requires live[p].subs == old(live[p].subs) + [q]
      requires forall x {:trigger old(live)[x]} :: x in old(live) && live[x] != live[p] ==>
               live[x].subs == old(live[x].subs)
      ensures State() == Logged(old(State()).(buses := old(State()).buses[p :=
                           old(State()).buses[p].(subs := old(State()).buses[p].subs + [q.path])][q.path :=
                               BusRec([], [])]),
                           BusAdded(q.path))
    {
      hide Opened, Wired, State, Paths, Serials;
      OpenedRest(q);
      OpenedAt(p, q);
      OthersOpened(p, q);
      var b, c := old(State()).buses, State().buses;
      assert c == b[p := c[p]][q.path := c[q.path]];
    }

    twostate lemma OpenedAt(new p: BusPath, new q: Bus)
      requires Opened(q) && p in old(live) && live[p].subs == old(live[p].subs) + [q]
      ensures p in old(State()).buses && q.path !in old(State()).buses
      ensures State().buses.Keys == old(State()).buses.Keys + {q.path} && State().buses[q.path] == BusRec([], [])
      ensures State().buses[p] == old(State()).buses[p].(subs := old(State()).buses[p].subs + [q.path])
    {
      ValuesOpened(q);
      assert Paths(live[p].subs) == Paths(old(live[p].subs)) + [q.path];
      assert old(State()).buses[p] == old(BusRec(Serials(live[p].devices), Paths(live[p].subs)));
    }

    twostate lemma OpenedRest(new q: Bus)
      requires Opened(q) && tops == old(tops)
      ensures State().objs == old(State()).objs && State().ids == old(State()).ids
      ensures State().tops == old(State()).tops && State().log == events && old(State()).log == old(events)
      ensures State().structs == old(State()).structs
    {
      ValuesOpened(q);
    }

    twostate lemma OthersOpened(new p: BusPath, new q: Bus)
      requires old(Wired()) && Opened(q) && p in old(live)
      requires forall x {:trigger old(live)[x]} :: x in old(live) && live[x] != live[p] ==>
               live[x].subs == old(live[x].subs)
      ensures forall x :: x in old(State()).buses && x != p ==>
              x in State().buses && State().buses[x] == old(State()).buses[x]
    {
      ValuesOpened(q);
      forall x | x in old(live) && x != p ensures State().buses[x] == old(State()).buses[x] {
        assert old(BusWired(x)) && old(BusWired(p));
        assert old(BusValues())[x] == old(BusRec(Serials(live[x].devices), Paths(live[x].subs)));
      }
    }

    twostate lemma OpenedBelow(new p: BusPath, new q: Bus)
      requires old(Wired()) && p in old(live) && q.path !in old(live) && live == old(live)[q.path := q]
      requires made == old(made) && ids == old(ids) && tops == old(tops) && q.devices == [] && q.subs == []
      requires structs == old(structs)
      requires live[p].subs == old(live[p].subs) + [q] && live[p].devices == old(live[p].devices)
      requires forall i {:trigger made[i]} :: 0 <= i < |made| ==>
               made[i].bus == old(made[i].bus) && made[i].unseen == old(made[i].unseen)
      requires forall x {:trigger old(live)[x]} :: x in old(live) && live[x] != live[p] ==>
                 live[x].devices == old(live[x].devices) && live[x].subs == old(live[x].subs)
      ensures Opened(q)
    {
    }

    lemma PathNew(b: Bus, id: string, port: string)
      requires Wired() && Live(b) && Valid(State()) && Port(b.path, id, port) !in Paths(b.subs)
      ensures Port(b.path, id, port) !in live
    {
      hide Valid;
      Stored(b);
      ValidParts(State());
      PortParent(State(), b.path, id, port);
      NotListedNotLive(State(), Port(b.path, id, port));
    }

    /** Server.get_bus */
    method GetTopBus(name: string) returns (q: Bus)
      requires Wired() && Valid(State())
      modifies this`live, this`events, this`tops
      ensures Wired() && Grown() && Live(q) && q.path == [name]
      ensures made == old(made) && forall p :: p in live ==> p in old(live) || fresh(live[p])
      ensures State() == Registry.GetTopBus(old(State()), name)
    {
      hide Valid;
      var found := FindBus(tops, [name]);
      if found != null {
        return found;
      }
      TopNew(name);
      q := OpenTop([name]);
    }

    lemma TopNew(name: string)
      requires Valid(State()) && [name] !in Paths(tops)
      ensures [name] !in live
    {
      hide Valid;
      ValidParts(State());
      NotListedNotLive(State(), [name]);
    }

    method OpenTop(path: BusPath) returns (q: Bus)
      requires Wired() && path !in live
      modifies this`live, this`events, this`tops
      ensures Wired() && Grown() && Live(q) && q.path == path && fresh(q) && live == old(live)[path := q] &&
              made == old(made)
      ensures State() == Logged(old(State()).(tops := old(State()).tops + [path],
                                              buses := old(State()).buses[path := BusRec([], [])]),
                                BusAdded(path))
    {
      hide Wired, State;
      q := new Bus(path);
      live := live[path := q];
      tops := tops + [q];
      events := events + [BusAdded(path)];
      WiredOpened(q);
      OpenedTop(q);
    }

    twostate lemma OpenedTop(new q: Bus)
      requires old(Wired()) && Opened(q) && tops == old(tops) + [q] && events == old(events) + [BusAdded(q.path)]
      requires forall x {:trigger old(live)[x]} :: x in old(live) ==> live[x].subs == old(live[x].subs)
      ensures State() == Logged(old(State()).(tops := old(State()).tops + [q.path],
                                              buses := old(State()).buses[q.path := BusRec([], [])]), BusAdded(q.path))
    {
      hide Wired;
      ValuesOpened(q);
      assert Paths(tops) == Paths(old(tops)) + [q.path];
      forall x | x in old(live) ensures State().buses[x] == old(State()).buses[x] {
        assert old(BusValues())[x] == old(BusRec(Serials(live[x].devices), Paths(live[x].subs)));
      }
      assert State().buses == old(State()).buses[q.path := BusRec([], [])];
    }

    // ---------------------------------------------------------------- scanning

    method SetUnseen(b: Bus, d: Device, unseen: nat)
      requires Wired() && Known(d) && Live(b)
      modifies d`unseen
      ensures Wired()
      ensures d.serial < |old(State()).objs| && State() == Registry.SetUnseen(old(State()), d.serial, unseen)
    {
      KnownValue(d);
      Stored(b);
      d.unseen := unseen;
      StillWired(d.serial, b.path);
      OneOfEach(d.serial, b.path);
      assert old(State()).buses[b.path := old(State()).buses[b.path]] == old(State()).buses;
    }

    /** One listed name, as far as the device goes. */
    method Find(b: Bus, name: string, left: seq<string>) returns (rest: seq<string>, ok: bool)
      requires Wired() && Valid(State()) && Live(b) && IsId(name) && Canonical(name)
      modifies Objects()
      ensures Wired() && Grown() && live == old(live) && fresh(Objects() - old(Objects()))
      ensures Visited(State(), rest, ok) == Found(old(State()), b.path, name, left)
    {
      hide Valid, Canonical, IsId, Registry.GetDevice, Registry.AddDevice, Registry.EnsureStruct, Wired, State;
      Listing(b);
      FoundMeans(State(), b.path, name, left);
      var d := GetDevice(name);
      ok := EnsureStruct(name);
      if !ok {
        return left, false;
      }
      Located(d, b);
      Listing(b);
      if d.bus == b {
        if name !in left {
          return left, false;
        }
        rest := Without(left, name);
      } else {
        rest := left;
        AddDevice(b, d);
      }
      SetUnseen(b, d, 0);
      ok := true;
    }

    lemma Listing(b: Bus)
      requires Wired() && Live(b)
      ensures b.path in State().buses && b in Objects()
    {
    }

    lemma Located(d: Device, b: Bus)
      requires Wired() && Known(d) && Live(b)
      ensures d in Objects() && d.serial < |State().objs|
      ensures State().objs[d.serial].bus == Some(b.path) <==> d.bus == b
    {
      KnownValue(d);
      Stored(b);
      assert d in made;
    }

    /** Bus._scan_one. The order in which the ids that were not seen are handled is that of the dictionary. */
    method ScanOne(b: Bus, d: Dir) returns (ok: bool)
      requires Wired() && Valid(State()) && Live(b) && CanonicalDir(d)
      modifies Objects()
      ensures Wired() && Grown() && fresh(Objects() - old(Objects()))
      ensures Valid(State()) && (State(), ok) == Scan(old(State()), b.path, d)
      decreases d, 1
    {
      hide Valid, Wired, State, Visit, MissedAll, CanonicalEntry, Listed;
      Listing(b);
      ScanValid(State(), b.path, d);
      Teardown.ValidHasBus(State(), b.path);
      if d.Unreadable? {
        return false;
      }
      var left := Ids(b.devices);
      IdsListed(b);
      var n := 0;
      ghost var start := State();
      while n < |d.entries|
        invariant n <= |d.entries| && Wired() && Valid(State()) && Live(b)
        invariant Grown() && fresh(Objects() - old(Objects()))
        invariant Visit(start, b.path, d.entries, Listed(start.objs, start.buses[b.path].devs)) ==
                  Visit(State(), b.path, d.entries[n..], left)
      {
        VisitNext(State(), b.path, d.entries, n, left);
        left, ok := VisitEntry(b, d.entries[n], left);
        if !ok {
          return;
        }
        n := n + 1;
      }
      VisitEnd(State(), b.path, left);
      assert d.entries[n..] == [];
      ok := MissAll(b, left);
    }

    method VisitEntry(b: Bus, e: Entry, left: seq<string>) returns (rest: seq<string>, ok: bool)
      requires Wired() && Valid(State()) && Live(b) && CanonicalEntry(e)
      modifies Objects()
      ensures Wired() && Grown() && fresh(Objects() - old(Objects()))
      ensures Valid(State()) && Visited(State(), rest, ok) == VisitOne(old(State()), b.path, e, left)
      decreases e, 3
    {
      hide Valid, Wired, State, Found, Registry.ScanPort, IsId, IsCoupler, Canonical, CanonicalDir;
      Listing(b);
      VisitOneValid(State(), b.path, e, left);
      rest, ok := left, true;
      if IsId(e.name) {
        FoundValid(State(), b.path, e.name, left);
        rest, ok := Find(b, e.name, left);
        if ok && IsCoupler(e.name) {
          ok := ScanPort(b, e.name, "main", e.main);
          if ok {
            ok := ScanPort(b, e.name, "aux", e.aux);
          }
        }
      }
    }

    method ScanPort(b: Bus, id: string, port: string, d: Dir) returns (ok: bool)
      requires Wired() && Valid(State()) && Live(b) && CanonicalDir(d)
      modifies Objects()
      ensures Wired() && Grown() && fresh(Objects() - old(Objects()))
      ensures Valid(State()) && (State(), ok) == Registry.ScanPort(old(State()), b.path, id, port, d)
      decreases d, 2
    {
      hide Valid, Wired, State, Scan, CanonicalDir;
      Listing(b);
      GetSubBusValid(State(), b.path, Upper(id), port);
      var q := GetSubBus(b, Upper(id), port);
      ok := ScanOne(q, d);
    }

    lemma IdsListed(b: Bus)
      requires Wired() && Live(b) && HasBus(State(), b.path)
      ensures Ids(b.devices) == Listed(State().objs, State().buses[b.path].devs)
    {
      Stored(b);
    }

    /** The ids that a scan did not see. */
    method MissAll(b: Bus, ids: seq<string>) returns (ok: bool)
      requires Wired() && Valid(State()) && Live(b)
      modifies Objects()
      ensures Wired() && Grown() && live == old(live) && made == old(made)
      ensures Valid(State()) && (State(), ok) == MissedAll(old(State()), b.path, ids)
    {
      hide Valid, Wired, State, Missed;
      Listing(b);
      MissedAllValid(State(), b.path, ids);
      var n := 0;
      while n < |ids|
        invariant n <= |ids| && Wired() && Valid(State()) && live == old(live) && made == old(made)
        invariant MissedAll(old(State()), b.path, ids) == MissedAll(State(), b.path, ids[n..])
      {
        Listing(b);
        assert ids[n..][0] == ids[n] && ids[n..][1..] == ids[n + 1..];
        if Missed(State(), b.path, ids[n]).Some? {
          MissedValid(State(), b.path, ids[n]);
        }
        Teardown.ValidHasBus(State(), b.path);
        ok := Miss(b, ids[n]);
        if !ok {
          return;
        }
        n := n + 1;
      }
      assert ids[n..] == [];
      ok := true;
    }

    method Miss(b: Bus, id: string) returns (ok: bool)
      requires Wired() && Live(b) && HasBus(State(), b.path)
      modifies Objects()
      ensures Wired() && live == old(live) && made == old(made)
      ensures ok <==> Missed(old(State()), b.path, id).Some?
      ensures State() == if ok then Missed(old(State()), b.path, id).value else old(State())
    {
      hide Wired, State, DistinctIds;
      Listing(b);
      var d := FindDevice(b, id);
      if d == null {
        return false;
      }
      Located(d, b);
      UnseenOf(d);
      if d.unseen > 2 {
        Delocate(b, d);
      } else {
        SetUnseen(b, d, d.unseen + 1);
      }
      ok := true;
    }

    lemma UnseenOf(d: Device)
      requires Wired() && Known(d)
      ensures d.serial < |State().objs| && State().objs[d.serial].unseen == d.unseen
    {
    }

    method FindDevice(b: Bus, id: string) returns (d: Device?)
      requires Wired() && Live(b) && HasBus(State(), b.path)
      ensures d != null ==> Known(d)
      ensures FindEntry(State().objs, State().buses[b.path].devs, id) == if d == null then None else Some(d.serial)
    {
      Stored(b);
      assert BusWired(b.path);
      var n := 0;
      ghost var objs, devs := State().objs, Serials(b.devices);
      assert devs[0..] == devs;
      while n < |b.devices|
        invariant n <= |b.devices|
        invariant FindEntry(objs, devs, id) == FindEntry(objs, devs[n..], id)
      {
        assert b.devices[n] in b.devices;
        assert devs[n..][0] == b.devices[n].serial && devs[n..][1..] == devs[n + 1..];
        if b.devices[n].id == id {
          return b.devices[n];
        }
        n := n + 1;
      }
      assert devs[n..] == [];
      d := null;
    }

    // ---------------------------------------------------------------- teardown

    /** A bus without sub-buses and devices is gone from the dictionary it was in. */
    twostate predicate Gone(new p: BusPath, new owner: BusPath)
      reads this, made, live.Values
    {
      old(Wired()) && p in old(live) && live == old(live) - {p} && made == old(made) && ids == old(ids) &&
      structs == old(structs) &&
      (forall i {:trigger made[i]} :: 0 <= i < |made| ==>
         made[i].bus == old(made[i].bus) && made[i].unseen == old(made[i].unseen) && made[i].bus != old(live)[p]) &&
      tops == WithoutBus(old(tops), old(live)[p]) &&
      (forall q {:trigger live[q]} :: q in live ==>
         live[q].devices == old(live[q].devices) &&
         live[q].subs == if q == owner then WithoutBus(old(live[q].subs), old(live)[p]) else old(live[q].subs)) &&
      (forall q {:trigger live[q]} :: q in live && q != owner ==> old(live)[p] !in old(live[q].subs)) &&
      old(live)[p] !in tops && (owner in live ==> old(live)[p] !in live[owner].subs)
    }

    twostate lemma WiredGone(new p: BusPath, new owner: BusPath)
      requires Gone(p, owner)
      ensures Wired()
    {
      var b := old(live)[p];
      assert old(BusWired(p));
      forall i | 0 <= i < |made| ensures DeviceWired(i) {
        assert old(DeviceWired(i));
      }
      assert forall c :: c in old(tops) ==> old(Live(c));
      SamePath(old(tops), b);
      WithoutBusPaths(old(tops), b);
      forall q | q in live ensures BusWired(q) {
        assert old(BusWired(q));
        if q == owner {
          SamePath(old(live[q].subs), b);
          WithoutBusPaths(old(live[q].subs), b);
        }
      }
      forall id | id in ids ensures Known(ids[id]) {
        assert old(Known(ids[id]));
      }
      forall c | c in tops ensures Live(c) {
        assert old(Live(c));
      }
    }

    twostate lemma SamePath(new bs: seq<Bus>, new b: Bus)
      requires old(Wired()) && b.path in old(live) && old(live)[b.path] == b
      requires forall c :: c in bs ==> c.path in old(live) && old(live)[c.path] == c
      ensures forall c :: c in bs && c.path == b.path ==> c == b
    {
    }

    twostate lemma ValuesGone(new p: BusPath, new owner: BusPath)
      requires Gone(p, owner)
      ensures State().objs == old(State()).objs && State().ids == old(State()).ids
      ensures State().tops == Without(old(State()).tops, p) && State().buses.Keys == old(State()).buses.Keys - {p}
      ensures forall q :: q in State().buses ==>
                State().buses[q] == if q == owner then
                    BusRec(old(State()).buses[q].devs, Without(old(State()).buses[q].subs, p))
                                    else old(State()).buses[q]
    {
      var b := old(live)[p];
      assert old(BusWired(p));
      forall i | 0 <= i < |made| ensures DeviceValues()[i] == old(DeviceValues())[i] {
        assert DeviceValues()[i] == made[i].Value();
        assert old(DeviceValues())[i] == old(made[i].Value());
      }
      assert forall c :: c in old(tops) ==> old(Live(c));
      SamePath(old(tops), b);
      WithoutBusPaths(old(tops), b);
      forall q | q in State().buses ensures
          State().buses[q] == if q == owner then
              BusRec(old(State()).buses[q].devs, Without(old(State()).buses[q].subs, p))
                              else old(State()).buses[q] {
        assert old(BusWired(q));
        assert State().buses[q] == BusRec(Serials(live[q].devices), Paths(live[q].subs));
        assert old(State()).buses[q] == old(BusRec(Serials(live[q].devices), Paths(live[q].subs)));
        if q == owner {
          SamePath(old(live[q].subs), b);
          WithoutBusPaths(old(live[q].subs), b);
        }
      }
    }

    /** What the teardown of a bus relies on: its owner lists it, nothing else does, and no device is located at it. */
    ghost predicate Removable(b: Bus, owner: BusPath)
      reads this, made, live.Values
    {
      Wired() && Live(b) && owner != b.path &&
      (forall i {:trigger made[i]} :: 0 <= i < |made| ==> made[i].bus != b) &&
      (forall q {:trigger live[q]} :: q in live && q != owner ==> b !in live[q].subs) &&
      b !in WithoutBus(tops, b) && (owner in live ==> b !in WithoutBus(live[owner].subs, b))
    }

    lemma TornIsRemovable(b: Bus)
      requires Wired() && Live(b) && Valid(State()) && Teardown.Unlocated(State(), b.path)
      ensures Removable(b, if |b.path| >= 3 then Parent(b.path) else [])
    {
      hide Valid, Teardown.Unlocated;
      ValidParts(State());
      assert BusWired(b.path);
      TreeFacts(State(), b.path);
      NowhereAt(b);
      forall q | q in live ensures b in live[q].subs ==> |b.path| >= 3 && q == Parent(b.path) {
        if b in live[q].subs {
          var i :| 0 <= i < |live[q].subs| && live[q].subs[i] == b;
          assert Paths(live[q].subs)[i] == b.path;
          assert State().buses[q].subs == Paths(live[q].subs);
        }
        assert BusValues()[q].subs == Paths(live[q].subs) && NoRepeats(State().buses[q].subs);
        PathsDistinct(live[q].subs);
        WithoutBusGone(live[q].subs, b);
      }
      var owner := if |b.path| >= 3 then Parent(b.path) else [];
      if owner in live {
        assert BusValues()[owner].subs == Paths(live[owner].subs) && NoRepeats(State().buses[owner].subs);
        PathsDistinct(live[owner].subs);
        WithoutBusGone(live[owner].subs, b);
      }
      PathsDistinct(tops);
      WithoutBusGone(tops, b);
    }

    lemma NowhereAt(b: Bus)
      requires Wired() && Live(b) && Teardown.Unlocated(State(), b.path)
      ensures forall i {:trigger made[i]} :: 0 <= i < |made| ==> made[i].bus != b
    {
    }

    /** The end of Bus.delocate: the bus leaves its owner's dictionary, and it is announced. */
    method RemoveSub(b: Bus, parent: Bus)
      requires Live(parent) && |b.path| >= 3 && parent.path == Parent(b.path) && Removable(b, parent.path) && b !in tops
      modifies this`live, this`events, parent`subs
      ensures Wired() && live == old(live) - {b.path} && made == old(made)
      ensures State() == DropBus(old(State()), b.path)
    {
      hide Wired, State;
      LivePaths();
      live := live - {b.path};
      parent.subs := WithoutBus(parent.subs, b);
      events := events + [BusDeleted(b.path)];
      WithoutBusAbsent(tops, b);
      WiredGone(b.path, parent.path);
      DroppedSub(b.path, parent.path);
    }

    method RemoveTop(b: Bus)
      requires |b.path| == 1 && Removable(b, []) && [] !in live
      modifies this`live, this`tops, this`events
      ensures Wired() && live == old(live) - {b.path} && made == old(made)
      ensures State() == DropBus(old(State()), b.path)
    {
      hide Wired, State;
      LivePaths();
      live := live - {b.path};
      tops := WithoutBus(tops, b);
      events := events + [BusDeleted(b.path)];
      WiredGone(b.path, []);
      DroppedSub(b.path, []);
    }

    twostate lemma DroppedSub(new p: BusPath, new owner: BusPath)
      requires Gone(p, owner) && events == old(events) + [BusDeleted(p)]
      requires if owner == [] then |p| == 1 && [] !in old(live) else |p| >= 3 && owner == Parent(p) && owner in live
      ensures State() == DropBus(old(State()), p)
    {
      hide Gone;
      ValuesGone(p, owner);
      GoneEvents(p, owner);
      assert State().buses == DropBus(old(State()), p).buses;
    }

    twostate lemma GoneEvents(new p: BusPath, new owner: BusPath)
      requires Gone(p, owner)
      ensures State().log == events && old(State()).log == old(events) && p in old(State()).buses
      ensures State().structs == old(State()).structs
    {
    }

    lemma LivePaths()
      requires Wired()
      ensures forall p {:trigger live[p]} :: p in live ==> live[p].path == p
    {
      forall p | p in live ensures live[p].path == p {
        assert BusWired(p);
      }
    }

    /** Bus.delocate: the sub-buses, then the devices located here, then the bus itself. */
    method DelocateBus(b: Bus, parent: Bus?)
      requires Wired() && Valid(State()) && Live(b)
      requires if parent == null then |b.path| == 1 else Live(parent) && |b.path| >= 3 && parent.path == Parent(b.path)
      modifies Objects()
      ensures Wired() && made == old(made) && live.Keys <= old(live).Keys &&
              (forall p :: p in live ==> live[p] == old(live)[p])
      ensures b.path in old(State()).buses && State() == Teardown.TearDown(old(State()), b.path) && Valid(State())
      decreases Teardown.Below(State(), b.path), 1
    {
      hide Valid, Wired, State, Teardown.Below, Teardown.DelocateEach, Teardown.SubsTorn, Removable, Objects;
      Listing(b);
      TearDownIs(State(), b.path);
      DelocateSubs(b, parent);
      DelocateDevices(b);
      LastRemoval(b);
      if parent == null {
        InObjects(b);
        RemoveTop(b);
      } else {
        InObjects(parent);
        RemoveSub(b, parent);
      }
    }

    lemma InObjects(b: Bus)
      requires Live(b)
      ensures b in Objects() && this in Objects()
    {
    }

    /** for b in self.buses: b.delocate() */
    method DelocateSubs(b: Bus, ghost parent: Bus?)
      requires Wired() && Valid(State()) && Live(b)
      requires parent != null ==> Live(parent) && |parent.path| < |b.path|
      modifies Objects()
      ensures Wired() && made == old(made) && live.Keys <= old(live).Keys &&
              (forall p :: p in live ==> live[p] == old(live)[p])
      ensures Live(b) && (parent != null ==> Live(parent)) && Valid(State())
      ensures b.path in old(State()).buses && State() == Teardown.TearSubs(old(State()), b.path) &&
              Objects() <= old(Objects())
      decreases Teardown.Below(State(), b.path), 0
    {
      hide Valid, Wired, State, Teardown.Below, Parent, Teardown.SubsTorn, Teardown.TornDown;
      Listing(b);
      ghost var start, p := State(), b.path;
      while b.subs != []
        invariant Wired() && Valid(State()) && p in State().buses && Live(b) && made == old(made)
        invariant live.Keys <= old(live).Keys && forall q :: q in live ==> live[q] == old(live)[q]
        invariant parent != null ==> Live(parent)
        invariant Teardown.TearSubs(start, p) == Teardown.TearSubs(State(), p)
        invariant Teardown.Below(State(), p) <= Teardown.Below(start, p)
        decreases Teardown.Below(State(), p)
      {
        var c := b.subs[0];
        FirstSub(b);
        TearSubsStep(State(), p);
        LiveKeys();
        DelocateBus(c, b);
        LiveKeys();
      }
      NoSubs(b);
      TearSubsEnd(State(), p);
    }

    lemma LiveKeys()
      ensures State().buses.Keys == live.Keys
    {
    }

    lemma FirstSub(b: Bus)
      requires Wired() && Live(b) && b.subs != []
      ensures b.path in State().buses && State().buses[b.path].subs != [] &&
              State().buses[b.path].subs[0] == b.subs[0].path
      ensures Live(b.subs[0])
    {
      Stored(b);
      assert BusWired(b.path) && b.subs[0] in b.subs;
    }

    lemma NoSubs(b: Bus)
      requires Wired() && Live(b) && b.subs == []
      ensures b.path in State().buses && State().buses[b.path].subs == []
    {
    }

    lemma LastRemoval(b: Bus)
      requires Wired() && Live(b) && Valid(State()) && Teardown.Unlocated(State(), b.path)
      ensures Removable(b, if |b.path| >= 3 then Parent(b.path) else []) && [] !in live
      ensures |b.path| >= 3 ==> b !in tops
    {
      hide Valid, Teardown.Unlocated;
      TornIsRemovable(b);
      ValidParts(State());
      Listing(b);
      TreeFacts(State(), b.path);
      if b in tops {
        var i :| 0 <= i < |tops| && tops[i] == b;
        assert Paths(tops)[i] == b.path;
      }
    }

    /** for d in self.devices: d.delocate(bus=self) */
    method DelocateDevices(b: Bus)
      requires Wired() && Valid(State()) && Live(b)
      modifies Objects()
      ensures Wired() && live == old(live) && made == old(made) && b.subs == old(b.subs) && b.path in old(State()).buses
      ensures Objects() == old(Objects())
      ensures State() == Teardown.DelocateEach(old(State()), b.path, old(State()).buses[b.path].devs)
    {
      hide Valid, Wired, State, HasBus, Registry.Delocate;
      Listing(b);
      var ds := b.devices;
      ghost var start, devs := State(), Serials(ds);
      DevicesKnown(b);
      assert devs[0..] == devs;
      var n := 0;
      while n < |ds|
        invariant n <= |ds| && Wired() && Valid(State()) && live == old(live) && made == old(made) &&
                  b.subs == old(b.subs)
        invariant forall i :: 0 <= i < |ds| ==> Known(ds[i])
        invariant Teardown.DelocateEach(start, b.path, devs) == Teardown.DelocateEach(State(), b.path, devs[n..])
      {
        Listing(b);
        Teardown.ValidHasBus(State(), b.path);
        Located(ds[n], b);
        assert devs[n..][0] == ds[n].serial && devs[n..][1..] == devs[n + 1..];
        DelocateValid(State(), b.path, ds[n].serial);
        Delocate(b, ds[n]);
        n := n + 1;
      }
      assert devs[n..] == [];
    }

    lemma DevicesKnown(b: Bus)
      requires Wired() && Live(b)
      ensures b.path in State().buses && Serials(b.devices) == State().buses[b.path].devs
      ensures forall i :: 0 <= i < |b.devices| ==> Known(b.devices[i])
    {
      Stored(b);
      assert BusWired(b.path);
      forall i | 0 <= i < |b.devices| ensures Known(b.devices[i]) {
        assert b.devices[i] in b.devices;
      }
    }

    /** Server.aclose, as far as the buses go. */
    method Close()
      requires Wired() && Valid(State())
      modifies Objects()
      ensures Wired() && Valid(State()) && State() == Teardown.CloseServer(old(State()))
      ensures live == map[] && tops == [] && forall i :: 0 <= i < |made| ==> made[i].bus == null
    {
      hide Valid, Wired, State;
      ghost var start := State();
      while tops != []
        invariant Wired() && Valid(State()) && made == old(made)
        invariant live.Keys <= old(live).Keys && forall q :: q in live ==> live[q] == old(live)[q]
        invariant Teardown.CloseServer(start) == Teardown.CloseServer(State())
        decreases |tops|
      {
        ghost var n := |tops|;
        FirstTop();
        CloseStep(State());
        DelocateBus(tops[0], null);
        TopCount();
      }
      TopCount();
      CloseEnd(State());
      AllLost();
    }

    lemma TopCount()
      ensures State().tops == Paths(tops) && |State().tops| == |tops|
    {
    }

    lemma FirstTop()
      requires Wired() && Valid(State()) && tops != []
      ensures State().tops == Paths(tops) && tops[0].path in State().buses && Live(tops[0]) && |tops[0].path| == 1
    {
      hide Valid;
      ValidParts(State());
      assert tops[0] in tops;
      assert State().tops[0] == tops[0].path;
    }

    lemma AllLost()
      requires Wired() && Teardown.Closed(State(), State())
      ensures live == map[] && forall i :: 0 <= i < |made| ==> made[i].bus == null
    {
    }

    /** Service.delete_device for any device object ever made; false stands for an exception. */
    method DeleteDevice(d: Device) returns (ok: bool)
      requires Wired() && Known(d)
      modifies this`ids, this`events
      ensures Wired() && d.serial < |old(State()).objs|
      ensures ok <==> Registry.DeleteDevice(old(State()), d.serial).Some?
      ensures State() == if ok then Registry.DeleteDevice(old(State()), d.serial).value else old(State())
    {
      KnownValue(d);
      if d.bus != null || d.id !in ids {
        return false;
      }
      ids := ids - {d.id};
      events := events + [DeviceDeleted(d.id)];
      Dropped(d.id);
      ok := true;
    }

    twostate lemma Dropped(new id: string)
      requires old(Wired()) && made == old(made) && live == old(live) && tops == old(tops) && ids == old(ids) - {id}
      requires structs == old(structs)
      requires forall i {:trigger made[i]} :: 0 <= i < |made| ==>
               made[i].bus == old(made[i].bus) && made[i].unseen == old(made[i].unseen)
      requires forall p {:trigger live[p]} :: p in live ==>
               live[p].subs == old(live[p].subs) && live[p].devices == old(live[p].devices)
      ensures Wired() && State() == old(State()).(ids := old(State()).ids - {id}, log := events)
    {
      forall i | 0 <= i < |made| ensures DeviceWired(i) && DeviceValues()[i] == old(DeviceValues())[i] {
        assert old(DeviceWired(i));
        assert DeviceValues()[i] == made[i].Value();
        assert old(DeviceValues())[i] == old(made[i].Value());
      }
      forall p | p in live ensures BusWired(p) && BusValues()[p] == old(BusValues())[p] {
        assert old(BusWired(p));
        assert BusValues()[p] == BusRec(Serials(live[p].devices), Paths(live[p].subs));
        assert old(BusValues())[p] == old(BusRec(Serials(live[p].devices), Paths(live[p].subs)));
      }
      forall x | x in ids ensures Known(ids[x]) {
        assert old(Known(ids[x]));
      }
      forall c | c in tops ensures Live(c) {
        assert old(Live(c));
      }
      assert State().ids == old(State()).ids - {id};
    }

    method ScanName(name: string, d: Dir) returns (ok: bool)
      requires Wired() && Valid(State()) && CanonicalDir(d)
      modifies Objects()
      ensures Wired() && Grown() && fresh(Objects() - old(Objects()))
      ensures Valid(State()) && (State(), ok) == Scan(Registry.GetTopBus(old(State()), name), [name], d)
    {
      hide Valid, Wired, State, Scan, CanonicalDir, Registry.GetTopBus;
      GetTopBusValid(State(), name);
      var b := GetTopBus(name);
      ok := ScanOne(b, d);
    }

    /** Server._scan_base, step 1: each listed name that is a bus. */
    method ScanBase(names: seq<(string, Dir)>) returns (ok: bool)
      requires Wired() && Valid(State()) && forall e :: e in names ==> CanonicalDir(e.1)
      modifies Objects()
      ensures Wired() && Grown() && fresh(Objects() - old(Objects()))
      ensures Valid(State()) && (State(), ok) == Registry.ScanBase(old(State()), names)
    {
      hide Valid, Wired, State, Scan, CanonicalDir, Registry.GetTopBus;
      var n := 0;
      assert names[0..] == names;
      while n < |names|
        invariant n <= |names| && Wired() && Valid(State()) && Grown() && fresh(Objects() - old(Objects()))
        invariant Registry.ScanBase(old(State()), names) == Registry.ScanBase(State(), names[n..])
      {
        assert names[n..][0] == names[n] && names[n..][1..] == names[n + 1..] && names[n] in names;
        if "bus." <= names[n].0 {
          ok := ScanName(names[n].0, names[n].1);
          if !ok {
            return;
          }
        }
        n := n + 1;
      }
      assert names[n..] == [];
      ok := true;
    }
  }

  lemma TearSubsStep(s: Reg, p: BusPath)
    requires Valid(s) && p in s.buses && s.buses[p].subs != []
    ensures var c := s.buses[p].subs[0];
            c in s.buses && |c| >= 3 && |c| == |p| + 2 && Parent(c) == p && Teardown.Below(s, c) < Teardown.Below(s, p)
    ensures var c := s.buses[p].subs[0];
            var t := Teardown.TearDown(s, c);
            Valid(t) && p in t.buses && Teardown.TearSubs(s, p) == Teardown.TearSubs(t, p) &&
            Teardown.Below(t, p) < Teardown.Below(s, p) && forall q :: q in s.buses && |q| < |c| ==> q in t.buses
  {
    hide Valid, Teardown.TearDown;
    var c := s.buses[p].subs[0];
    ValidParts(s);
    Teardown.SubBelow(s, p, c);
    Teardown.ChildShrinks(s, p, c);
    var t := Teardown.TearDown(s, c);
    Teardown.ChildTorn(s, p, c, t);
    assert c in Teardown.Below(s, p) && c !in Teardown.Below(t, p);
    Teardown.EvictedKeys(s, t, Teardown.Below(s, c));
  }

  lemma TearSubsEnd(s: Reg, p: BusPath)
    requires Valid(s) && p in s.buses && s.buses[p].subs == []
    ensures Teardown.TearSubs(s, p) == s
  {
  }

  lemma TearDownIs(s: Reg, p: BusPath)
    requires Valid(s) && p in s.buses
    ensures var t := Teardown.TearSubs(s, p);
            Valid(t) && p in t.buses && t.buses[p].subs == [] &&
            (s.buses[p].subs == [] ==> t == s) &&
            var u := Teardown.DelocateEach(t, p, t.buses[p].devs);
            Valid(u) && Teardown.Unlocated(u, p) && p in u.buses && Teardown.TearDown(s, p) == DropBus(u, p) &&
            Valid(DropBus(u, p))
  {
    hide Valid, Teardown.DelocateEach, DropBus, Teardown.Unlocated;
    var t := Teardown.TearSubs(s, p);
    Teardown.EachDeviceLeaves(t, p);
    Teardown.RootTorn(s, t, p);
  }

  lemma CloseStep(s: Reg)
    requires Valid(s) && s.tops != [] && s.tops[0] in s.buses
    ensures var t := Teardown.TearDown(s, s.tops[0]);
            Valid(t) && Teardown.CloseServer(s) == Teardown.CloseServer(t) && |t.tops| < |s.tops|
  {
  }

  lemma CloseEnd(s: Reg)
    requires Valid(s) && s.tops == []
    ensures Teardown.CloseServer(s) == s && Teardown.Closed(s, s)
  {
  }

  lemma TreeFacts(s: Reg, p: BusPath)
    requires TreeValid(s) && p in s.buses
    ensures forall q :: q in s.buses && p in s.buses[q].subs ==> |p| >= 3 && q == Parent(p)
    ensures [] !in s.buses && |p| != 0 && |p| != 2 && (|p| >= 2 ==> |p| >= 3 && Parent(p) in s.buses && p !in s.tops)
  {
    forall q | q in s.buses && p in s.buses[q].subs ensures |p| >= 3 && q == Parent(p) {
      assert SubsLive(s, q);
      assert Attached(s, p) && Attached(s, q);
    }
    assert Attached(s, p);
    var none: BusPath := [];
    assert none in s.buses ==> Attached(s, none);
  }

  lemma PathsDistinct(bs: seq<Bus>)
    requires NoRepeats(Paths(bs))
    ensures forall i, j :: 0 <= i < j < |bs| ==> bs[i] != bs[j]
  {
    forall i, j | 0 <= i < j < |bs| ensures bs[i] != bs[j] {
      assert Paths(bs)[i] == bs[i].path && Paths(bs)[j] == bs[j].path;
    }
  }

  lemma {:induction false} WithoutBusGone(bs: seq<Bus>, b: Bus)
    requires forall i, j :: 0 <= i < j < |bs| ==> bs[i] != bs[j]
    ensures b !in WithoutBus(bs, b) && forall c :: c in WithoutBus(bs, b) ==> c in bs
  {
    if bs != [] {
      WithoutBusGone(bs[1..], b);
    }
  }

  lemma {:induction false} WithoutBusAbsent(bs: seq<Bus>, b: Bus)
    requires b !in bs
    ensures WithoutBus(bs, b) == bs
  {
    if bs != [] {
      WithoutBusAbsent(bs[1..], b);
    }
  }

  lemma {:induction false} WithoutBusPaths(bs: seq<Bus>, b: Bus)
    requires forall c :: c in bs && c.path == b.path ==> c == b
    ensures Paths(WithoutBus(bs, b)) == Without(Paths(bs), b.path)
    ensures forall c :: c in WithoutBus(bs, b) ==> c in bs
  {
    if bs != [] {
      assert Paths(bs)[0] == bs[0].path && Paths(bs)[1..] == Paths(bs[1..]) && bs[0] in bs;
      WithoutBusPaths(bs[1..], b);
      assert Paths([bs[0]] + WithoutBus(bs[1..], b)) == [bs[0].path] + Paths(WithoutBus(bs[1..], b));
    } else {
      assert Paths(bs) == [];
    }
  }

  lemma VisitNext(s: Reg, p: BusPath, es: seq<Entry>, n: nat, left: seq<string>)
    requires n < |es|
    ensures var v := VisitOne(s, p, es[n], left);
            Visit(s, p, es[n..], left) == if !v.ok then v else Visit(v.reg, p, es[n + 1..], v.left)
  {
  }

  lemma VisitEnd(s: Reg, p: BusPath, left: seq<string>)
    ensures Visit(s, p, [], left) == Visited(s, left, true)
  {
  }

  lemma FoundMeans(s: Reg, p: BusPath, name: string, left: seq<string>)
    requires Valid(s) && p in s.buses && Canonical(name)
    ensures var (made, r) := Registry.GetDevice(s, name);
            var (t, ok) := Registry.EnsureStruct(made, name);
            Valid(t) && r < |t.objs| && HasBus(t, p) &&
            Found(s, p, name, left) ==
              if !ok then Visited(t, left, false)
              else if t.objs[r].bus == Some(p) then
                if name !in left then Visited(t, left, false)
                else Visited(Registry.SetUnseen(t, r, 0), Without(left, name), true)
              else Visited(Registry.SetUnseen(Registry.AddDevice(t, p, r), r, 0), left, true)
  {
    hide Valid, Registry.GetDevice, Registry.AddDevice, Registry.EnsureStruct, Canonical;
    ReadyValid(s, name);
    Teardown.ValidHasBus(Ready(s, name).0, p);
  }
}
