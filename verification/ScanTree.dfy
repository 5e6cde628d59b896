/** What one scan of a fresh bus finds (Bus._scan_one): exactly the device entries of the remote tree, each
    located at its bus, through any nesting of couplers; and a second scan of the same tree changes nothing. */
module ScanTree {
  import opened Text
  import opened Registry
  import Teardown

  // ---------------------------------------------------------------- the remote tree

  /** The device ids a directory lists, in order. */
  function RootIds(es: seq<Entry>): seq<string> {
    if es == [] then []
    else (if IsId(es[0].name) then [es[0].name] else []) + RootIds(es[1..])
  }

  predicate HasPorts(e: Entry) {
    IsId(e.name) && IsCoupler(e.name)
  }

  /** Every id in a directory and the directories behind its couplers. */
  function DirIds(d: Dir): set<string>
    decreases d, 1
  {
    if d.Unreadable? then {} else EntryIds(d.entries)
  }

  function EntryIds(es: seq<Entry>): set<string>
    decreases es, 0
  {
    if es == [] then {} else OneIds(es[0]) + EntryIds(es[1..])
  }

  function OneIds(e: Entry): set<string>
    decreases e, 2
  {
    (if IsId(e.name) then {e.name} else {}) + (if HasPorts(e) then DirIds(e.main) + DirIds(e.aux) else {})
  }

  /** Readable throughout, with canonical ids, none of them twice. */
  predicate GoodDir(d: Dir)
    decreases d, 1
  {
    d.Dir? && GoodEntries(d.entries)
  }

  predicate GoodEntries(es: seq<Entry>)
    decreases es, 0
  {
    es == [] || (GoodEntry(es[0]) && GoodEntries(es[1..]) && OneIds(es[0]) !! EntryIds(es[1..]))
  }

  predicate GoodEntry(e: Entry)
    decreases e, 2
  {
    IsId(e.name) ==>
      Canonical(e.name) &&
      (HasPorts(e) ==>
         GoodDir(e.main) && GoodDir(e.aux) && e.name !in DirIds(e.main) && e.name !in DirIds(e.aux) &&
         DirIds(e.main) !! DirIds(e.aux))
  }

  /** The sub-buses of a bus, in the order in which they are met. */
  function Ports(p: BusPath, es: seq<Entry>): seq<BusPath> {
    if es == [] then []
    else (if HasPorts(es[0]) then [Port(p, es[0].name, "main"), Port(p, es[0].name, "aux")] else []) + Ports(p, es[1..])
  }

  function TreePaths(p: BusPath, d: Dir): set<BusPath>
    decreases d, 1
  {
    {p} + (if d.Unreadable? then {} else EntryPaths(p, d.entries))
  }

  function EntryPaths(p: BusPath, es: seq<Entry>): set<BusPath>
    decreases es, 0
  {
    if es == [] then {}
    else (if HasPorts(es[0])
          then TreePaths(Port(p, es[0].name, "main"), es[0].main) + TreePaths(Port(p, es[0].name, "aux"), es[0].aux)
          else {}) + EntryPaths(p, es[1..])
  }

  /** The device entries of the tree: which bus lists which id. */
  function TreePairs(p: BusPath, d: Dir): set<(BusPath, string)>
    decreases d, 1
  {
    if d.Unreadable? then {} else EntryPairs(p, d.entries)
  }

  function EntryPairs(p: BusPath, es: seq<Entry>): set<(BusPath, string)>
    decreases es, 0
  {
    if es == [] then {}
    else (if IsId(es[0].name) then {(p, es[0].name)} else {}) +
         (if HasPorts(es[0])
          then TreePairs(Port(p, es[0].name, "main"), es[0].main) + TreePairs(Port(p, es[0].name, "aux"), es[0].aux)
          else {}) + EntryPairs(p, es[1..])
  }

  // ---------------------------------------------------------------- in step with the tree

  ghost predicate SetUp(c: Structs, family: nat) {
    c.Off? || family in c.ready
  }

  /** The device is located here, has just been seen, and its class is set up. */
  ghost predicate DeviceAt(s: Reg, p: BusPath, id: string) {
    id in s.ids && s.ids[id] < |s.objs| && s.objs[s.ids[id]] == Dev(id, Some(p), 0) && SetUp(s.structs, Family(id))
  }

  ghost function Refs(s: Reg, ids: seq<string>): seq<nat> {
    seq(|ids|, i requires 0 <= i < |ids| => if ids[i] in s.ids then s.ids[ids[i]] else 0)
  }

  ghost predicate EntriesInStep(s: Reg, p: BusPath, es: seq<Entry>)
    decreases es, 0
  {
    es == [] || (OneInStep(s, p, es[0]) && EntriesInStep(s, p, es[1..]))
  }

  ghost predicate OneInStep(s: Reg, p: BusPath, e: Entry)
    decreases e, 2
  {
    (IsId(e.name) ==> DeviceAt(s, p, e.name)) &&
    (HasPorts(e) ==> InStep(s, Port(p, e.name, "main"), e.main) && InStep(s, Port(p, e.name, "aux"), e.aux))
  }

  /** The bus lists exactly the directory's devices and sub-buses, and so on below. */
  ghost predicate InStep(s: Reg, p: BusPath, d: Dir)
    decreases d, 1
  {
    d.Dir? && p in s.buses && EntriesInStep(s, p, d.entries) &&
    s.buses[p] == BusRec(Refs(s, RootIds(d.entries)), Ports(p, d.entries))
  }

  /** What a scan at p over some ids leaves alone. */
  ghost predicate Framed(s: Reg, t: Reg, p: BusPath, ids: set<string>) {
    |s.objs| <= |t.objs| && t.tops == s.tops && Advanced(s.structs, t.structs) &&
    (forall id :: id in s.ids ==> id in t.ids && t.ids[id] == s.ids[id]) &&
    (forall r :: 0 <= r < |s.objs| ==> t.objs[r].id == s.objs[r].id) &&
    (forall r :: 0 <= r < |s.objs| && s.objs[r].id !in ids ==> t.objs[r] == s.objs[r]) &&
    (forall q :: q in s.buses && !(p <= q) ==> q in t.buses && t.buses[q] == s.buses[q])
  }

  lemma FramedTwice(s: Reg, t: Reg, u: Reg, p: BusPath, a: set<string>, b: set<string>)
    requires Framed(s, t, p, a) && Framed(t, u, p, b)
    ensures Framed(s, u, p, a + b)
  {
  }

  // ---------------------------------------------------------------- staying in step

  /** Two states that agree on the registered devices of some ids. */
  ghost predicate AgreeIds(s: Reg, t: Reg, ids: set<string>) {
    Advanced(s.structs, t.structs) &&
    forall id :: id in ids && id in s.ids && s.ids[id] < |s.objs| ==>
      id in t.ids && t.ids[id] == s.ids[id] && t.ids[id] < |t.objs| && t.objs[t.ids[id]] == s.objs[s.ids[id]]
  }

  /** Two states that agree on the buses strictly below a path. */
  ghost predicate AgreeUnder(s: Reg, t: Reg, p: BusPath) {
    forall x :: x in s.buses && p < x ==> x in t.buses && t.buses[x] == s.buses[x]
  }

  lemma AgreeUnderPort(s: Reg, t: Reg, p: BusPath, q: BusPath)
    requires AgreeUnder(s, t, p) && p < q
    ensures AgreeUnder(s, t, q) && (q in s.buses ==> q in t.buses && t.buses[q] == s.buses[q])
  {
  }

  lemma {:induction false} RootIdsIncluded(es: seq<Entry>)
    ensures forall id :: id in RootIds(es) ==> id in EntryIds(es) && IsId(id)
  {
    if es != [] {
      RootIdsIncluded(es[1..]);
    }
  }

  lemma {:induction false} EntriesDevices(s: Reg, p: BusPath, es: seq<Entry>)
    requires EntriesInStep(s, p, es)
    ensures forall id :: id in RootIds(es) ==> DeviceAt(s, p, id)
  {
    if es != [] {
      EntriesDevices(s, p, es[1..]);
    }
  }

  lemma RefsAgree(s: Reg, t: Reg, ids: seq<string>)
    requires forall id :: id in ids ==> id in s.ids && id in t.ids && t.ids[id] == s.ids[id]
    ensures Refs(t, ids) == Refs(s, ids)
  {
  }

  lemma {:induction false} InStepKept(s: Reg, t: Reg, p: BusPath, d: Dir)
    requires InStep(s, p, d) && AgreeIds(s, t, DirIds(d)) && AgreeUnder(s, t, p)
    requires p in t.buses && t.buses[p] == s.buses[p]
    ensures InStep(t, p, d)
    decreases d, 1
  {
    hide AgreeUnder, EntriesInStep;
    EntriesKept(s, t, p, d.entries);
    EntriesDevices(s, p, d.entries);
    RootIdsIncluded(d.entries);
    RefsAgree(s, t, RootIds(d.entries));
  }

  /** A directory's entries stay in step while their devices and the buses below stay; the bus itself may change. */
  lemma {:induction false} EntriesKept(s: Reg, t: Reg, p: BusPath, es: seq<Entry>)
    requires EntriesInStep(s, p, es) && AgreeIds(s, t, EntryIds(es)) && AgreeUnder(s, t, p)
    ensures EntriesInStep(t, p, es)
    decreases es, 0
  {
    hide AgreeUnder, OneInStep;
    if es != [] {
      OneKept(s, t, p, es[0]);
      EntriesKept(s, t, p, es[1..]);
    }
  }

  lemma {:induction false} OneKept(s: Reg, t: Reg, p: BusPath, e: Entry)
    requires OneInStep(s, p, e) && AgreeIds(s, t, OneIds(e)) && AgreeUnder(s, t, p)
    ensures OneInStep(t, p, e)
    decreases e, 2
  {
    hide AgreeUnder, InStep, IsId, IsCoupler;
    if HasPorts(e) {
      var main, aux := Port(p, e.name, "main"), Port(p, e.name, "aux");
      InStepLive(s, main, e.main);
      InStepLive(s, aux, e.aux);
      AgreeUnderPort(s, t, p, main);
      AgreeUnderPort(s, t, p, aux);
      InStepKept(s, t, main, e.main);
      InStepKept(s, t, aux, e.aux);
    }
  }

  lemma InStepLive(s: Reg, p: BusPath, d: Dir)
    requires InStep(s, p, d)
    ensures p in s.buses && d.Dir?
  {
  }

  // ---------------------------------------------------------------- one device, one port

  lemma DistinctTail(objs: seq<Dev>, devs: seq<nat>)
    requires DistinctIds(objs, devs) && devs != []
    ensures devs == [devs[0]] + devs[1..] && DistinctIds(objs, devs[1..]) && devs[0] < |objs|
    ensures devs[0] in devs && forall x :: x in devs[1..] ==> x in devs
  {
  }

  lemma ConsAppend<T>(x: T, rest: seq<T>, y: T)
    ensures [x] + (rest + [y]) == ([x] + rest) + [y]
  {
  }

  lemma {:induction false} WithEntryNew(objs: seq<Dev>, devs: seq<nat>, r: nat)
    requires DistinctIds(objs, devs) && r < |objs| && forall x :: x in devs ==> x < |objs| && objs[x].id != objs[r].id
    ensures WithEntry(objs, devs, r) == devs + [r]
  {
    hide DistinctIds;
    if devs != [] {
      DistinctTail(objs, devs);
      WithEntryNew(objs, devs[1..], r);
      ConsAppend(devs[0], devs[1..], r);
    }
  }

  /** The bus lists the given ids, all located here, and the given sub-buses, all behind listed couplers. */
  ghost predicate ListsSoFar(s: Reg, p: BusPath, ids: seq<string>, subs: seq<BusPath>) {
    p in s.buses && s.buses[p] == BusRec(Refs(s, ids), subs) &&
    (forall id :: id in ids ==> DeviceAt(s, p, id)) &&
    (forall c :: c in subs ==> |c| == |p| + 2 && c[|p|] in ids)
  }

  lemma LocatedHere(s: Reg, p: BusPath, ids: seq<string>, subs: seq<BusPath>, r: nat)
    requires Valid(s) && ListsSoFar(s, p, ids, subs) && r < |s.objs| && s.objs[r].id !in ids
    ensures s.objs[r].bus != Some(p) && forall x :: x in s.buses[p].devs ==> x < |s.objs| && s.objs[x].id in ids
  {
    hide Replay;
    forall x | x in s.buses[p].devs ensures x < |s.objs| && s.objs[x].id in ids {
      var i :| 0 <= i < |ids| && Refs(s, ids)[i] == x;
      assert ids[i] in ids && DeviceAt(s, p, ids[i]);
    }
  }

  lemma GetDeviceFrame(s: Reg, id: string)
    requires Valid(s) && Canonical(id)
    ensures var (t, r) := GetDevice(s, id);
            Valid(t) && r < |t.objs| && t.objs[r].id == id && id in t.ids && t.ids[id] == r && t.buses == s.buses &&
            t.tops == s.tops && |s.objs| <= |t.objs| && t.objs[..|s.objs|] == s.objs &&
            (forall x :: x in s.ids ==> x in t.ids && t.ids[x] == s.ids[x])
  {
    hide Replay, TreeValid, DictsValid, ListingsValid, LocationsValid;
    GetDeviceValid(s, id);
  }

  lemma ReadyFrame(s: Reg, id: string)
    requires Valid(s) && Canonical(id)
    ensures var (t, r, ok) := Ready(s, id);
            Valid(t) && r < |t.objs| && t.objs[r].id == id && id in t.ids && t.ids[id] == r && t.buses == s.buses &&
            t.tops == s.tops && |s.objs| <= |t.objs| && t.objs[..|s.objs|] == s.objs &&
            (forall x :: x in s.ids ==> x in t.ids && t.ids[x] == s.ids[x]) && Advanced(s.structs, t.structs) &&
            (ok <==> Loads(s.structs, Family(id))) && (ok ==> SetUp(t.structs, Family(id)))
  {
    hide Valid, GetDevice, Canonical;
    GetDeviceFrame(s, id);
    GetDeviceFacts(s, id);
    ReadyValid(s, id);
  }

  lemma RefsGrow(s: Reg, t: Reg, ids: seq<string>, id: string, r: nat)
    requires forall x :: x in ids ==> x in s.ids && x in t.ids && t.ids[x] == s.ids[x]
    requires id in t.ids && t.ids[id] == r
    ensures Refs(t, ids + [id]) == Refs(s, ids) + [r]
  {
  }

  /** The new entry goes to the end of the dictionary, and only its device changes. */
  lemma AddedNew(t: Reg, p: BusPath, r: nat, ids: seq<string>, subs: seq<BusPath>)
    requires HasBus(t, p) && r < |t.objs| && t.buses[p] == BusRec(Refs(t, ids), subs)
    requires t.objs[r].bus != Some(p) && forall x :: x in t.buses[p].devs ==>
             x < |t.objs| && t.objs[x].id != t.objs[r].id
    ensures var u := SetUnseen(AddDevice(t, p, r), r, 0);
            u.ids == t.ids && u.tops == t.tops && u.structs == t.structs &&
            u.objs == t.objs[r := Dev(t.objs[r].id, Some(p), 0)] &&
            u.buses == t.buses[p := BusRec(Refs(t, ids) + [r], subs)]
  {
    hide WithEntry, DistinctIds, Refs;
    WithEntryNew(t.objs, t.buses[p].devs, r);
  }

  lemma RefsSameIds(s: Reg, t: Reg, ids: seq<string>)
    requires s.ids == t.ids
    ensures Refs(s, ids) == Refs(t, ids)
  {
  }

  /** Listing an id that the bus does not list yet: its device is located here, at the end of the dictionary. */
  lemma FoundNew(s: Reg, p: BusPath, name: string, ids: seq<string>, subs: seq<BusPath>)
    requires Valid(s) && ListsSoFar(s, p, ids, subs) && Canonical(name) && name !in ids
    requires Loads(s.structs, Family(name))
    ensures var v := Found(s, p, name, []);
            v.ok && v.left == [] && DeviceAt(v.reg, p, name) && Framed(s, v.reg, p, {name}) &&
            v.reg.buses == s.buses[p := BusRec(Refs(v.reg, ids + [name]), subs)]
  {
    hide Valid, Ready, Canonical, AddDevice, DistinctIds, Refs, Locate, Loads, Family;
    var (t, r, ok) := Ready(s, name);
    ReadyFrame(s, name);
    SoFarKept(s, t, p, ids, subs);
    LocatedHere(t, p, ids, subs, r);
    Teardown.ValidHasBus(t, p);
    AddedNew(t, p, r, ids, subs);
    var u := Found(s, p, name, []).reg;
    RefsGrow(t, t, ids, name, r);
    RefsSameIds(t, u, ids + [name]);
    forall x | 0 <= x < |s.objs| ensures t.objs[x] == s.objs[x] {
      assert t.objs[..|s.objs|][x] == s.objs[x];
    }
  }

  lemma SoFarKept(s: Reg, t: Reg, p: BusPath, ids: seq<string>, subs: seq<BusPath>)
    requires ListsSoFar(s, p, ids, subs) && t.buses == s.buses && Advanced(s.structs, t.structs)
    requires |s.objs| <= |t.objs| && t.objs[..|s.objs|] == s.objs
    requires forall x :: x in s.ids ==> x in t.ids && t.ids[x] == s.ids[x]
    ensures ListsSoFar(t, p, ids, subs)
  {
    forall id | id in ids ensures DeviceAt(t, p, id) {
      assert DeviceAt(s, p, id);
      assert t.objs[s.ids[id]] == t.objs[..|s.objs|][s.ids[id]];
    }
    RefsAgree(s, t, ids);
  }

  /** No live bus is below a path that is not live. */
  lemma {:induction false} AncestorLive(s: Reg, q: BusPath, x: BusPath)
    requires TreeValid(s) && x in s.buses && q <= x && |q| % 2 == 1 && |x| % 2 == 1
    ensures q in s.buses
    decreases |x|
  {
    assert Attached(s, x);
    if |q| < |x| {
      assert q <= Parent(x);
      AncestorLive(s, q, Parent(x));
    } else {
      assert q == x;
    }
  }

  /** A port that the bus does not list yet becomes a new, empty, live bus. */
  lemma PortNew(s: Reg, p: BusPath, id: string, port: string, subs: seq<BusPath>)
    requires Valid(s) && p in s.buses && s.buses[p].subs == subs && Port(p, id, port) !in subs
    ensures var q := Port(p, id, port);
            var t := GetSubBus(s, p, id, port);
            Valid(t) && q !in s.buses && t.objs == s.objs && t.ids == s.ids && t.tops == s.tops &&
            t.structs == s.structs &&
            t.buses == s.buses[p := BusRec(s.buses[p].devs, subs + [q])][q := BusRec([], [])] &&
            |q| % 2 == 1 && (forall x :: x in s.buses ==> !(q <= x))
  {
    hide Replay, DictsValid, ListingsValid, LocationsValid, IdsValid, Journalled;
    var q := Port(p, id, port);
    GetSubBusValid(s, p, id, port);
    PortParent(s, p, id, port);
    NotListedNotLive(s, q);
    Teardown.LiveLength(s, p);
    forall x | x in s.buses ensures !(q <= x) {
      if q <= x {
        Teardown.LiveLength(s, x);
        AncestorLive(s, q, x);
      }
    }
  }

  lemma {:induction false} CanonicalGood(d: Dir)
    requires GoodDir(d)
    ensures CanonicalDir(d)
    decreases d, 1
  {
    CanonicalGoodEntries(d.entries);
  }

  lemma {:induction false} CanonicalGoodEntries(es: seq<Entry>)
    requires GoodEntries(es)
    ensures forall e :: e in es ==> CanonicalEntry(e)
    decreases es, 0
  {
    hide Canonical, IsId, IsCoupler;
    if es != [] {
      CanonicalGoodEntries(es[1..]);
      if HasPorts(es[0]) {
        CanonicalGood(es[0].main);
        CanonicalGood(es[0].aux);
      }
      assert es == [es[0]] + es[1..];
    }
  }

  // ---------------------------------------------------------------- structures

  lemma AdvancedTwice(c: Structs, d: Structs, e: Structs)
    requires Advanced(c, d) && Advanced(d, e)
    ensures Advanced(c, e)
  {
  }

  lemma FoundLoads(s: Reg, p: BusPath, name: string, left: seq<string>)
    ensures var v := Found(s, p, name, left);
            Advanced(s.structs, v.reg.structs) && (v.ok ==> Loads(s.structs, Family(name)))
  {
    hide WithEntry, DistinctIds, Upper, Family;
  }

  lemma {:induction false} MissedLoads(s: Reg, p: BusPath, ids: seq<string>)
    ensures MissedAll(s, p, ids).0.structs == s.structs
    decreases |ids|
  {
    hide WithoutId, DistinctIds;
    if ids != [] && Missed(s, p, ids[0]).Some? {
      assert Missed(s, p, ids[0]).value.structs == s.structs;
      MissedLoads(Missed(s, p, ids[0]).value, p, ids[1..]);
    }
  }

  /** A scan only sets up what could be loaded before, and succeeds only if that is all it needs. */
  lemma {:induction false} ScanLoads(s: Reg, p: BusPath, d: Dir)
    ensures var (t, ok) := Scan(s, p, d);
            Advanced(s.structs, t.structs) && (ok ==> Loadable(s.structs, DirIds(d)))
    decreases d, 1
  {
    hide Visit, MissedAll, EntryIds, Advanced, Loadable;
    AdvancedSame(s.structs);
    if d.Dir? && HasBus(s, p) {
      var left := Listed(s.objs, s.buses[p].devs);
      VisitLoads(s, p, d.entries, left);
      var v := Visit(s, p, d.entries, left);
      MissedLoads(v.reg, p, v.left);
    }
  }

  lemma AdvancedSame(c: Structs)
    ensures Advanced(c, c)
  {
  }

  lemma {:induction false} VisitLoads(s: Reg, p: BusPath, es: seq<Entry>, left: seq<string>)
    ensures var v := Visit(s, p, es, left);
            Advanced(s.structs, v.reg.structs) && (v.ok ==> Loadable(s.structs, EntryIds(es)))
    decreases es, 0
  {
    hide VisitOne, OneIds, Advanced;
    AdvancedSame(s.structs);
    if es != [] {
      var v := VisitOne(s, p, es[0], left);
      OneLoads(s, p, es[0], left);
      if v.ok {
        VisitLoads(v.reg, p, es[1..], v.left);
        AdvancedTwice(s.structs, v.reg.structs, Visit(v.reg, p, es[1..], v.left).reg.structs);
        AdvancedLoads(s.structs, v.reg.structs, EntryIds(es[1..]));
      }
    }
  }

  lemma {:induction false} OneLoads(s: Reg, p: BusPath, e: Entry, left: seq<string>)
    ensures var v := VisitOne(s, p, e, left);
            Advanced(s.structs, v.reg.structs) && (v.ok ==> Loadable(s.structs, OneIds(e)))
    decreases e, 3
  {
    hide Found, ScanPort, IsId, IsCoupler, DirIds, Advanced;
    AdvancedSame(s.structs);
    if IsId(e.name) {
      FoundLoads(s, p, e.name, left);
      var v := Found(s, p, e.name, left);
      if v.ok && IsCoupler(e.name) {
        var (a, okA) := ScanPort(v.reg, p, e.name, "main", e.main);
        var b := ScanPort(a, p, e.name, "aux", e.aux).0;
        PortLoads(v.reg, p, e.name, "main", e.main);
        PortLoads(a, p, e.name, "aux", e.aux);
        AdvancedTwice(s.structs, v.reg.structs, a.structs);
        AdvancedTwice(s.structs, a.structs, b.structs);
        AdvancedLoads(s.structs, v.reg.structs, DirIds(e.main));
        AdvancedLoads(s.structs, a.structs, DirIds(e.aux));
      }
    }
  }

  lemma {:induction false} PortLoads(s: Reg, p: BusPath, name: string, port: string, d: Dir)
    ensures var (t, ok) := ScanPort(s, p, name, port, d);
            Advanced(s.structs, t.structs) && (ok ==> Loadable(s.structs, DirIds(d)))
    decreases d, 2
  {
    hide Scan, DirIds, Advanced, Loadable;
    AdvancedSame(s.structs);
    if p in s.buses {
      ScanLoads(GetSubBus(s, p, Upper(name), port), Port(p, Upper(name), port), d);
    }
  }

  // ---------------------------------------------------------------- the scan of a fresh bus

  /** What scanning part of a directory achieves. */
  ghost predicate Achieved(s: Reg, t: Reg, p: BusPath, ids: seq<string>, subs: seq<BusPath>, more: seq<string>,
                           ports: seq<BusPath>, touched: set<string>, paths: set<BusPath>) {
    Valid(t) && ListsSoFar(t, p, ids + more, subs + ports) && Framed(s, t, p, touched) && AgreeUnder(s, t, p) &&
    t.buses.Keys <= s.buses.Keys + paths
  }

  lemma AchievedTwice(s: Reg, t: Reg, u: Reg, p: BusPath, ids: seq<string>, subs: seq<BusPath>,
                      more: seq<string>, ports: seq<BusPath>, touched: set<string>, paths: set<BusPath>,
                      more': seq<string>, ports': seq<BusPath>, touched': set<string>, paths': set<BusPath>)
    requires Achieved(s, t, p, ids, subs, more, ports, touched, paths)
    requires Achieved(t, u, p, ids + more, subs + ports, more', ports', touched', paths')
    ensures Achieved(s, u, p, ids, subs, more + more', ports + ports', touched + touched', paths + paths')
  {
    hide Valid, ListsSoFar;
    FramedTwice(s, t, u, p, touched, touched');
    assert ids + (more + more') == ids + more + more';
    assert subs + (ports + ports') == subs + ports + ports';
  }

  /** Registered devices of untouched ids are as they were. */
  lemma FramedAgrees(s: Reg, t: Reg, p: BusPath, touched: set<string>, ids: set<string>)
    requires Valid(s) && Framed(s, t, p, touched) && ids !! touched
    ensures AgreeIds(s, t, ids)
  {
  }

  lemma FoundAchieves(s: Reg, p: BusPath, name: string, ids: seq<string>, subs: seq<BusPath>)
    requires Valid(s) && ListsSoFar(s, p, ids, subs) && Canonical(name) && name !in ids
    requires Loads(s.structs, Family(name))
    ensures var v := Found(s, p, name, []);
            v.ok && v.left == [] && DeviceAt(v.reg, p, name) &&
            Achieved(s, v.reg, p, ids, subs, [name], [], {name}, {})
  {
    hide Valid, Found, Canonical;
    FoundNew(s, p, name, ids, subs);
    FoundValid(s, p, name, []);
    var t := Found(s, p, name, []).reg;
    FramedIds(s, t, p, p, {name}, ids);
    assert subs + [] == subs;
    forall c | c in subs ensures c[|p|] in ids + [name] {
      assert c[|p|] in ids;
    }
  }

  lemma FramedIds(s: Reg, t: Reg, p: BusPath, q: BusPath, touched: set<string>, ids: seq<string>)
    requires Framed(s, t, q, touched) && forall id :: id in ids ==> DeviceAt(s, p, id) && id !in touched
    ensures forall id :: id in ids ==> DeviceAt(t, p, id) && id in s.ids && t.ids[id] == s.ids[id]
  {
  }

  ghost predicate Apart(ids: seq<string>, others: set<string>) {
    forall id :: id in ids ==> id !in others
  }

  lemma PortNotListed(s: Reg, p: BusPath, id: string, port: string, ids: seq<string>, subs: seq<BusPath>)
    requires ListsSoFar(s, p, ids, subs) && id !in ids
    ensures Port(p, id, port) !in subs
  {
  }

  /** A scan of a new port leaves alone what is not behind the port. */
  lemma PortLeaves(s: Reg, s1: Reg, t: Reg, p: BusPath, q: BusPath, subs: seq<BusPath>, touched: set<string>)
    requires p in s.buses && p < q && q !in s.buses && forall x :: x in s.buses ==> !(q <= x)
    requires s1.objs == s.objs && s1.ids == s.ids && s1.tops == s.tops && s1.structs == s.structs
    requires s1.buses == s.buses[p := BusRec(s.buses[p].devs, subs + [q])][q := BusRec([], [])]
    requires Framed(s1, t, q, touched)
    ensures Framed(s, t, p, touched) && AgreeUnder(s, t, p)
    ensures p in t.buses && t.buses[p] == BusRec(s.buses[p].devs, subs + [q])
  {
    hide Advanced;
    assert p in s1.buses && !(q <= p);
  }

  /** The frame of a scan of a new port, seen from the bus that carries the port. */
  lemma PortFrame(s: Reg, s1: Reg, t: Reg, p: BusPath, q: BusPath, ids: seq<string>, subs: seq<BusPath>,
                  touched: set<string>, paths: set<BusPath>)
    requires Valid(t) && ListsSoFar(s, p, ids, subs) && p < q && |q| == |p| + 2 && q[|p|] in ids && Apart(ids, touched)
    requires s1.objs == s.objs && s1.ids == s.ids && s1.tops == s.tops && s1.structs == s.structs
    requires q !in s.buses && q in paths
    requires s1.buses == s.buses[p := BusRec(s.buses[p].devs, subs + [q])][q := BusRec([], [])]
    requires forall x :: x in s.buses ==> !(q <= x)
    requires Framed(s1, t, q, touched) && t.buses.Keys <= s1.buses.Keys + paths
    ensures Achieved(s, t, p, ids, subs, [], [q], touched, paths)
  {
    hide Valid, SetUp, Family, Framed, AgreeUnder;
    PortLeaves(s, s1, t, p, q, subs, touched);
    FramedIds(s, t, p, p, touched, ids);
    RefsAgree(s, t, ids);
    assert ids + [] == ids;
  }

  ghost predicate FreshBus(s: Reg, p: BusPath) {
    p in s.buses && s.buses[p] == BusRec([], [])
  }

  lemma {:induction false} PortScan(s: Reg, p: BusPath, id: string, port: string, d: Dir, ids: seq<string>,
                                    subs: seq<BusPath>)
    requires Valid(s) && ListsSoFar(s, p, ids, subs) && id in ids && Canonical(id) && Port(p, id, port) !in subs
    requires GoodDir(d) && Apart(ids, DirIds(d)) && Loadable(s.structs, DirIds(d))
    ensures var q := Port(p, id, port);
            var (t, ok) := ScanPort(s, p, id, port, d);
            ok && InStep(t, q, d) && Achieved(s, t, p, ids, subs, [], [q], DirIds(d), TreePaths(q, d))
    decreases d, 2
  {
    hide Valid, Scan, GetSubBus, GoodDir, DirIds, InStep, Achieved, Loadable;
    var q := Port(p, id, port);
    var s1 := GetSubBus(s, p, id, port);
    PortNew(s, p, id, port, subs);
    ScanFresh(s1, q, d);
    var t := Scan(s1, q, d).0;
    PortFrame(s, s1, t, p, q, ids, subs, DirIds(d), TreePaths(q, d));
  }

  /** One scan of a fresh bus over a good tree succeeds exactly when the structures of its families can be loaded. It
      then leaves the registry in step with the tree, makes no bus but the tree's, and touches no device and no bus
      outside. */
  lemma {:induction false} ScanFresh(s: Reg, p: BusPath, d: Dir)
    requires Valid(s) && FreshBus(s, p) && GoodDir(d)
    ensures var (t, ok) := Scan(s, p, d);
            (ok <==> Loadable(s.structs, DirIds(d))) &&
            (ok ==> Valid(t) && InStep(t, p, d) && Framed(s, t, p, DirIds(d)) &&
                    t.buses.Keys <= s.buses.Keys + TreePaths(p, d))
    decreases d, 1
  {
    hide Valid, Visit, GoodEntries, Framed, EntriesInStep, AgreeUnder, Loadable;
    ScanLoads(s, p, d);
    if Loadable(s.structs, DirIds(d)) {
      Teardown.ValidHasBus(s, p);
      assert Listed(s.objs, []) == [];
      assert Refs(s, []) == [];
      VisitFresh(s, p, d.entries, [], []);
      var v := Visit(s, p, d.entries, []);
      assert [] + RootIds(d.entries) == RootIds(d.entries);
      assert [] + Ports(p, d.entries) == Ports(p, d.entries);
    }
  }

  function OneRoots(e: Entry): seq<string> {
    if IsId(e.name) then [e.name] else []
  }

  function OnePorts(p: BusPath, e: Entry): seq<BusPath> {
    if HasPorts(e) then [Port(p, e.name, "main"), Port(p, e.name, "aux")] else []
  }

  function OnePaths(p: BusPath, e: Entry): set<BusPath> {
    if HasPorts(e) then TreePaths(Port(p, e.name, "main"), e.main) + TreePaths(Port(p, e.name, "aux"), e.aux) else {}
  }

  lemma NothingAchieved(s: Reg, p: BusPath, ids: seq<string>, subs: seq<BusPath>)
    requires Valid(s) && ListsSoFar(s, p, ids, subs)
    ensures Achieved(s, s, p, ids, subs, [], [], {}, {})
  {
  }

  /** Both ports of a coupler that has just been found. */
  lemma {:induction false} PortsFresh(s: Reg, p: BusPath, e: Entry, ids: seq<string>, subs: seq<BusPath>)
    requires Valid(s) && ListsSoFar(s, p, ids, subs) && HasPorts(e) && GoodEntry(e)
    requires e.name in ids && (forall port :: Port(p, e.name, port) !in subs) &&
             Apart(ids, DirIds(e.main) + DirIds(e.aux))
    requires Loadable(s.structs, DirIds(e.main) + DirIds(e.aux))
    ensures var (a, okA) := ScanPort(s, p, e.name, "main", e.main);
            var (b, okB) := ScanPort(a, p, e.name, "aux", e.aux);
            okA && okB && InStep(b, Port(p, e.name, "main"), e.main) && InStep(b, Port(p, e.name, "aux"), e.aux) &&
            Achieved(s, b, p, ids, subs, [], OnePorts(p, e), DirIds(e.main) + DirIds(e.aux), OnePaths(p, e))
    decreases e, 4
  {
    hide Valid, ScanPort, InStep, DirIds, TreePaths, GoodDir, IsId, Canonical, Framed, ListsSoFar;
    var main, aux := Port(p, e.name, "main"), Port(p, e.name, "aux");
    PortScan(s, p, e.name, "main", e.main, ids, subs);
    var a := ScanPort(s, p, e.name, "main", e.main).0;
    assert ids + [] == ids && subs + [main] + [aux] == subs + [main, aux];
    assert main[|p| + 1] == "main" && aux[|p| + 1] == "aux";
    FramedLoads(s, a, p, DirIds(e.main), DirIds(e.main) + DirIds(e.aux));
    PortScan(a, p, e.name, "aux", e.aux, ids, subs + [main]);
    var b := ScanPort(a, p, e.name, "aux", e.aux).0;
    AchievedTwice(s, a, b, p, ids, subs, [], [main], DirIds(e.main), TreePaths(main, e.main),
                  [], [aux], DirIds(e.aux), TreePaths(aux, e.aux));
    var none: seq<string> := [];
    assert none + none == none && [main] + [aux] == [main, aux];
    PortBelow(p, e.name, "main");
    AgreeUnderPort(a, b, p, main);
    InStepLive(a, main, e.main);
    FramedAgrees(a, b, p, DirIds(e.aux), DirIds(e.main));
    InStepKept(a, b, main, e.main);
  }

  lemma FramedLoads(s: Reg, t: Reg, p: BusPath, touched: set<string>, ids: set<string>)
    requires Framed(s, t, p, touched)
    ensures Loadable(s.structs, ids) <==> Loadable(t.structs, ids)
  {
    AdvancedLoads(s.structs, t.structs, ids);
  }

  lemma PortBelow(p: BusPath, id: string, port: string)
    ensures p < Port(p, id, port)
  {
  }

  /** Making a port changes no dictionary of devices. */
  lemma SubBusDevs(s: Reg, q: BusPath, id: string, port: string)
    requires q in s.buses
    ensures var s1 := GetSubBus(s, q, id, port);
            s1.objs == s.objs && s1.ids == s.ids && s1.structs == s.structs &&
            (forall x :: x in s.buses ==> x in s1.buses) &&
            (forall x :: x in s1.buses && !(q <= x) ==> x in s.buses && s1.buses[x] == s.buses[x]) &&
            (forall x :: x in s1.buses ==>
                (x in s.buses && s1.buses[x].devs == s.buses[x].devs) || s1.buses[x].devs == []) &&
            (forall x :: x in s1.buses && !(Port(q, id, port) <= x) ==>
                x in s.buses && s1.buses[x].devs == s.buses[x].devs)
  {
    PortBelow(q, id, port);
  }

  lemma {:induction false} OneFresh(s: Reg, p: BusPath, e: Entry, ids: seq<string>, subs: seq<BusPath>)
    requires Valid(s) && ListsSoFar(s, p, ids, subs)
    requires GoodEntry(e) && Apart(ids, OneIds(e)) && Loadable(s.structs, OneIds(e))
    ensures var v := VisitOne(s, p, e, []);
            v.ok && v.left == [] && OneInStep(v.reg, p, e) &&
            Achieved(s, v.reg, p, ids, subs, OneRoots(e), OnePorts(p, e), OneIds(e), OnePaths(p, e))
    decreases e, 5
  {
    hide Valid, ScanPort, InStep, DirIds, TreePaths, GoodDir, IsId, IsCoupler, Canonical, ListsSoFar, Found;
    if !IsId(e.name) {
      NothingAchieved(s, p, ids, subs);
    } else {
      FoundAchieves(s, p, e.name, ids, subs);
      var t := Found(s, p, e.name, []).reg;
      assert [e.name] + [] == OneRoots(e) && [] + OnePorts(p, e) == OnePorts(p, e) &&
             {} + OnePaths(p, e) == OnePaths(p, e);
      if !IsCoupler(e.name) {
        assert {e.name} == OneIds(e);
      } else {
        assert {e.name} + (DirIds(e.main) + DirIds(e.aux)) == OneIds(e);
        forall port ensures Port(p, e.name, port) !in subs {
          PortNotListed(s, p, e.name, port, ids, subs);
        }
        assert subs + [] == subs;
        FramedLoads(s, t, p, {e.name}, OneIds(e));
        PortsFresh(t, p, e, ids + [e.name], subs);
        var a := ScanPort(t, p, e.name, "main", e.main).0;
        var b := ScanPort(a, p, e.name, "aux", e.aux).0;
        AchievedTwice(s, t, b, p, ids, subs, [e.name], [], {e.name}, {},
                      [], OnePorts(p, e), DirIds(e.main) + DirIds(e.aux), OnePaths(p, e));
        FramedAgrees(t, b, p, DirIds(e.main) + DirIds(e.aux), {e.name});
      }
    }
  }

  lemma {:induction false} VisitFresh(s: Reg, p: BusPath, es: seq<Entry>, ids: seq<string>, subs: seq<BusPath>)
    requires Valid(s) && ListsSoFar(s, p, ids, subs)
    requires GoodEntries(es) && Apart(ids, EntryIds(es)) && Loadable(s.structs, EntryIds(es))
    ensures var v := Visit(s, p, es, []);
            v.ok && v.left == [] && EntriesInStep(v.reg, p, es) &&
            Achieved(s, v.reg, p, ids, subs, RootIds(es), Ports(p, es), EntryIds(es), EntryPaths(p, es))
    decreases es, 0
  {
    hide Valid, GoodEntry, ListsSoFar, VisitOne, OneInStep, IsId, IsCoupler, Framed;
    if es == [] {
      NothingAchieved(s, p, ids, subs);
    } else {
      var e := es[0];
      OneFresh(s, p, e, ids, subs);
      var t := VisitOne(s, p, e, []).reg;
      RootsIncluded(e);
      FramedLoads(s, t, p, OneIds(e), EntryIds(es));
      VisitFresh(t, p, es[1..], ids + OneRoots(e), subs + OnePorts(p, e));
      var u := Visit(t, p, es[1..], []).reg;
      AchievedTwice(s, t, u, p, ids, subs, OneRoots(e), OnePorts(p, e), OneIds(e), OnePaths(p, e),
                    RootIds(es[1..]), Ports(p, es[1..]), EntryIds(es[1..]), EntryPaths(p, es[1..]));
      FramedAgrees(t, u, p, EntryIds(es[1..]), OneIds(e));
      OneKept(t, u, p, e);
    }
  }

  lemma RootsIncluded(e: Entry)
    ensures forall id :: id in OneRoots(e) ==> id in OneIds(e)
  {
  }

  // ---------------------------------------------------------------- what is listed is the tree

  ghost predicate ListsId(s: Reg, q: BusPath, id: string) {
    q in s.buses &&
    exists i ::
      0 <= i < |s.buses[q].devs| && s.buses[q].devs[i] < |s.objs| && s.objs[s.buses[q].devs[i]].id == id
  }

  lemma RootListed(s: Reg, p: BusPath, d: Dir, id: string)
    requires InStep(s, p, d)
    ensures ListsId(s, p, id) <==> id in RootIds(d.entries)
    ensures id in RootIds(d.entries) ==> DeviceAt(s, p, id)
  {
    hide EntriesInStep, IsId;
    var ids := RootIds(d.entries);
    var devs := s.buses[p].devs;
    EntriesDevices(s, p, d.entries);
    assert forall i :: 0 <= i < |ids| ==> ids[i] in ids && devs[i] == Refs(s, ids)[i];
    if id in ids {
      var i :| 0 <= i < |ids| && ids[i] == id;
      assert devs[i] < |s.objs| && s.objs[devs[i]].id == id;
    }
  }

  lemma {:induction false} PairsOfTree(s: Reg, p: BusPath, d: Dir, q: BusPath, id: string)
    requires InStep(s, p, d)
    ensures (q, id) in TreePairs(p, d) <==> q in TreePaths(p, d) && ListsId(s, q, id)
    ensures (q, id) in TreePairs(p, d) ==> DeviceAt(s, q, id)
    decreases d, 1
  {
    hide ListsId, DeviceAt, EntriesInStep, EntryPairs, EntryPaths, IsId;
    RootListed(s, p, d, id);
    PairsOfEntries(s, p, d.entries, q, id);
  }

  lemma {:induction false} PairsOfEntries(s: Reg, p: BusPath, es: seq<Entry>, q: BusPath, id: string)
    requires EntriesInStep(s, p, es)
    ensures (q, id) in EntryPairs(p, es) <==>
            (q == p && id in RootIds(es)) || (q in EntryPaths(p, es) && ListsId(s, q, id))
    ensures (q, id) in EntryPairs(p, es) && q in EntryPaths(p, es) ==> DeviceAt(s, q, id)
    ensures q in EntryPaths(p, es) ==> p < q
    decreases es, 0
  {
    hide ListsId, DeviceAt, InStep, IsId, IsCoupler, TreePaths, TreePairs, Port;
    if es != [] {
      var e := es[0];
      PairsOfEntries(s, p, es[1..], q, id);
      if HasPorts(e) {
        PairsOfTree(s, Port(p, e.name, "main"), e.main, q, id);
        PairsOfTree(s, Port(p, e.name, "aux"), e.aux, q, id);
        if q in TreePaths(Port(p, e.name, "main"), e.main) {
          PathsBelow(Port(p, e.name, "main"), e.main, q);
        }
        if q in TreePaths(Port(p, e.name, "aux"), e.aux) {
          PathsBelow(Port(p, e.name, "aux"), e.aux, q);
        }
        PortBelow(p, e.name, "main");
        PortBelow(p, e.name, "aux");
      }
    }
  }

  lemma {:induction false} PathsBelow(p: BusPath, d: Dir, q: BusPath)
    requires q in TreePaths(p, d)
    ensures p <= q
    decreases d, 1
  {
    hide IsId, IsCoupler;
    if d.Dir? && q != p {
      EntryPathsBelow(p, d.entries, q);
    }
  }

  lemma {:induction false} EntryPathsBelow(p: BusPath, es: seq<Entry>, q: BusPath)
    requires q in EntryPaths(p, es)
    ensures p <= q
    decreases es, 0
  {
    hide IsId, IsCoupler;
    var e := es[0];
    if q in EntryPaths(p, es[1..]) {
      EntryPathsBelow(p, es[1..], q);
    } else if q in TreePaths(Port(p, e.name, "main"), e.main) {
      PathsBelow(Port(p, e.name, "main"), e.main, q);
    } else {
      PathsBelow(Port(p, e.name, "aux"), e.aux, q);
    }
  }

  /** After one scan of a fresh bus, over any good tree of nested couplers whose structures can be loaded: the (bus, id)
      pairs that the bus and all buses below it list are exactly the tree's device entries, and each of these devices is
      located there. Otherwise the scan raises an exception. */
  lemma FreshScanFindsTheTree(s: Reg, p: BusPath, d: Dir, q: BusPath, id: string)
    requires Valid(s) && FreshBus(s, p) && GoodDir(d)
    ensures var (t, ok) := Scan(s, p, d);
            (ok <==> Loadable(s.structs, DirIds(d))) &&
            (ok ==>
               Valid(t) && (p <= q && ListsId(t, q, id) <==> (q, id) in TreePairs(p, d)) &&
               ((q, id) in TreePairs(p, d) ==> id in t.ids && t.ids[id] < |t.objs| && t.objs[t.ids[id]].bus == Some(q)))
  {
    hide Valid, Scan, InStep, Framed, TreePaths, TreePairs, GoodDir, DirIds, Loadable;
    ScanFresh(s, p, d);
    var (t, ok) := Scan(s, p, d);
    if ok {
      PairsOfTree(t, p, d, q, id);
      Teardown.NothingBelow(s, p);
      if q in TreePaths(p, d) {
        PathsBelow(p, d, q);
      } else if q in t.buses && p <= q {
        assert q in Teardown.Below(s, p);
        assert q == p;
        RootInTree(p, d);
      }
    }
  }

  lemma RootInTree(p: BusPath, d: Dir)
    ensures p in TreePaths(p, d)
  {
  }

  // ---------------------------------------------------------------- a second scan

  lemma {:induction false} ScanAgain(s: Reg, p: BusPath, d: Dir)
    requires Valid(s) && InStep(s, p, d) && GoodDir(d)
    ensures Scan(s, p, d) == (s, true)
    decreases d, 1
  {
    hide Valid, Visit, EntriesInStep;
    Teardown.ValidHasBus(s, p);
    var ids := RootIds(d.entries);
    var devs := s.buses[p].devs;
    EntriesDevices(s, p, d.entries);
    forall i | 0 <= i < |devs| ensures Listed(s.objs, devs)[i] == ids[i] {
      assert ids[i] in ids && devs[i] == Refs(s, ids)[i];
    }
    assert Listed(s.objs, devs) == ids;
    VisitAgain(s, p, d.entries);
  }

  lemma {:induction false} VisitAgain(s: Reg, p: BusPath, es: seq<Entry>)
    requires Valid(s) && p in s.buses && EntriesInStep(s, p, es) && GoodEntries(es)
    requires forall c :: c in Ports(p, es) ==> c in s.buses[p].subs
    ensures Visit(s, p, es, RootIds(es)) == Visited(s, [], true)
    decreases es, 0
  {
    hide Valid, VisitOne, OneInStep, GoodEntry;
    if es != [] {
      OneAgain(s, p, es[0], RootIds(es[1..]));
      VisitAgain(s, p, es[1..]);
    }
  }

  lemma {:induction false} OneAgain(s: Reg, p: BusPath, e: Entry, rest: seq<string>)
    requires Valid(s) && p in s.buses && OneInStep(s, p, e) && GoodEntry(e)
    requires forall c :: c in OnePorts(p, e) ==> c in s.buses[p].subs
    ensures VisitOne(s, p, e, OneRoots(e) + rest) == Visited(s, rest, true)
    decreases e, 5
  {
    hide Valid, IsId, IsCoupler, Scan, InStep, GoodDir;
    if !IsId(e.name) {
      assert [] + rest == rest;
    } else {
      Teardown.ValidHasBus(s, p);
      FoundAgain(s, p, e.name, rest);
      if IsCoupler(e.name) {
        ScanAgain(s, Port(p, e.name, "main"), e.main);
        ScanAgain(s, Port(p, e.name, "aux"), e.aux);
      }
    }
  }

  lemma FoundAgain(s: Reg, p: BusPath, id: string, rest: seq<string>)
    requires HasBus(s, p) && DeviceAt(s, p, id)
    ensures Found(s, p, id, [id] + rest) == Visited(s, rest, true)
  {
  }

  /** Scanning a fresh bus and then scanning it again: the second scan changes nothing at all, no location, no
      counter, no class, and it emits no event; or both scans raise an exception. */
  lemma SecondScanChangesNothing(s: Reg, p: BusPath, d: Dir)
    requires Valid(s) && FreshBus(s, p) && GoodDir(d)
    ensures var (t, ok) := Scan(s, p, d); if ok then Scan(t, p, d) == (t, true) else !Scan(t, p, d).1
  {
    hide Valid, Scan, InStep, Framed, TreePaths, GoodDir, DirIds, Loadable;
    ScanFresh(s, p, d);
    var (t, ok) := Scan(s, p, d);
    if ok {
      ScanAgain(t, p, d);
    } else {
      ScanLoads(s, p, d);
      ScanLoads(t, p, d);
      AdvancedLoads(s.structs, t.structs, DirIds(d));
    }
  }
}
