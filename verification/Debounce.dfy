/** Debounced loss of devices (Bus._scan_one): a bus keeps a device through three scans that do not list it. Over
    any sequence of scans of one bus this is a sliding window over its last four listings. */
module Debounce {
  import opened Text
  import opened Registry
  import opened ScanTree
  import Teardown

  // ---------------------------------------------------------------- scans of other devices

  ghost predicate DevsIn(s: Reg, x: BusPath, deep: set<string>)
    requires x in s.buses
  {
    forall r :: r in s.buses[x].devs ==> r < |s.objs| && s.objs[r].id in deep
  }

  /** The buses at or below a path list only some ids. */
  ghost predicate ListsOnly(s: Reg, q: BusPath, deep: set<string>) {
    forall x {:trigger DevsIn(s, x, deep)} :: x in s.buses && q <= x ==> DevsIn(s, x, deep)
  }

  /** The buses strictly below a path list only some ids. */
  ghost predicate BelowListsOnly(s: Reg, p: BusPath, deep: set<string>) {
    forall x {:trigger DevsIn(s, x, deep)} :: x in s.buses && p < x ==> DevsIn(s, x, deep)
  }

  lemma ListsOnlyKept(s: Reg, t: Reg, q: BusPath, deep: set<string>)
    requires ListsOnly(s, q, deep) && SameIds(s.objs, t.objs)
    requires forall x :: x in t.buses && q <= x ==>
             (x in s.buses && t.buses[x].devs == s.buses[x].devs) || DevsIn(t, x, deep)
    ensures ListsOnly(t, q, deep)
  {
    forall x | x in t.buses && q <= x ensures DevsIn(t, x, deep) {
      assert x in s.buses ==> DevsIn(s, x, deep);
    }
  }

  lemma BelowKept(s: Reg, t: Reg, p: BusPath, deep: set<string>)
    requires BelowListsOnly(s, p, deep) && SameIds(s.objs, t.objs)
    requires forall x :: x in t.buses && p < x ==>
             (x in s.buses && t.buses[x].devs == s.buses[x].devs) || DevsIn(t, x, deep)
    ensures BelowListsOnly(t, p, deep)
  {
    forall x | x in t.buses && p < x ensures DevsIn(t, x, deep) {
      assert x in s.buses ==> DevsIn(s, x, deep);
    }
  }

  /** Devices of other ids, and buses elsewhere, are the same. */
  ghost predicate Untouched(s: Reg, t: Reg, q: BusPath, deep: set<string>) {
    SameIds(s.objs, t.objs) &&
    (forall r :: 0 <= r < |s.objs| && s.objs[r].id !in deep ==> t.objs[r] == s.objs[r]) &&
    (forall id :: id in s.ids && id !in deep ==> id in t.ids && t.ids[id] == s.ids[id]) &&
    (forall x :: x in s.buses && !(q <= x) ==> x in t.buses && t.buses[x] == s.buses[x]) &&
    (forall x :: x in t.buses && !(q <= x) ==> x in s.buses)
  }

  lemma UntouchedTwice(s: Reg, t: Reg, u: Reg, q: BusPath, deep: set<string>)
    requires Untouched(s, t, q, deep) && Untouched(t, u, q, deep)
    ensures Untouched(s, u, q, deep)
  {
  }

  lemma DeepFound(s: Reg, q: BusPath, name: string, left: seq<string>, deep: set<string>)
    requires Valid(s) && q in s.buses && Canonical(name) && name in deep && ListsOnly(s, q, deep)
    ensures var t := Found(s, q, name, left).reg; Untouched(s, t, q, deep) && ListsOnly(t, q, deep)
  {
    hide Valid, Ready, Canonical, Loads, Family, Advanced, DistinctIds, WithEntry, Upper;
    var (t, r, ok) := Ready(s, name);
    ReadyFrame(s, name);
    forall x | 0 <= x < |s.objs| ensures t.objs[x] == s.objs[x] {
      assert t.objs[..|s.objs|][x] == s.objs[x];
    }
    assert DevsIn(s, q, deep);
    ListsOnlyKept(s, Found(s, q, name, left).reg, q, deep);
  }

  lemma DeepMissed(s: Reg, q: BusPath, id: string, deep: set<string>)
    requires q in s.buses && ListsOnly(s, q, deep) && Missed(s, q, id).Some?
    ensures var t := Missed(s, q, id).value; Untouched(s, t, q, deep) && ListsOnly(t, q, deep)
  {
    assert DevsIn(s, q, deep);
    ListsOnlyKept(s, Missed(s, q, id).value, q, deep);
  }

  lemma {:induction false} DeepMissedAll(s: Reg, q: BusPath, ids: seq<string>, deep: set<string>)
    requires Valid(s) && q in s.buses && ListsOnly(s, q, deep)
    ensures var t := MissedAll(s, q, ids).0; Untouched(s, t, q, deep) && ListsOnly(t, q, deep)
    decreases |ids|
  {
    hide Valid, Missed, ListsOnly;
    if ids != [] && Missed(s, q, ids[0]).Some? {
      var t := Missed(s, q, ids[0]).value;
      MissedValid(s, q, ids[0]);
      DeepMissed(s, q, ids[0], deep);
      DeepMissedAll(t, q, ids[1..], deep);
      UntouchedTwice(s, t, MissedAll(t, q, ids[1..]).0, q, deep);
    }
  }

  /** A scan, and all scans below it, of directories that list only some ids, on buses that do so as well. */
  lemma {:induction false} DeepScan(s: Reg, q: BusPath, d: Dir, deep: set<string>)
    requires Valid(s) && q in s.buses && CanonicalDir(d) && DirIds(d) <= deep && ListsOnly(s, q, deep)
    ensures var t := Scan(s, q, d).0; Untouched(s, t, q, deep) && ListsOnly(t, q, deep)
    decreases d, 1
  {
    hide Valid, MissedAll, Visit, CanonicalEntry, ListsOnly, EntryIds;
    if d.Dir? && HasBus(s, q) {
      var left := Listed(s.objs, s.buses[q].devs);
      var v := Visit(s, q, d.entries, left);
      DeepVisit(s, q, d.entries, left, deep);
      VisitValid(s, q, d.entries, left);
      DeepMissedAll(v.reg, q, v.left, deep);
      UntouchedTwice(s, v.reg, MissedAll(v.reg, q, v.left).0, q, deep);
    }
  }

  lemma {:induction false} DeepVisit(s: Reg, q: BusPath, es: seq<Entry>, left: seq<string>, deep: set<string>)
    requires Valid(s) && q in s.buses && (forall e :: e in es ==> CanonicalEntry(e)) && EntryIds(es) <= deep &&
             ListsOnly(s, q, deep)
    ensures var t := Visit(s, q, es, left).reg; Untouched(s, t, q, deep) && ListsOnly(t, q, deep)
    decreases es, 0
  {
    hide Valid, VisitOne, CanonicalEntry, ListsOnly, OneIds, Untouched;
    if es == [] {
      UntouchedSame(s, q, deep);
    } else {
      assert es[0] in es;
      var v := VisitOne(s, q, es[0], left);
      DeepOne(s, q, es[0], left, deep);
      VisitOneValid(s, q, es[0], left);
      if v.ok {
        DeepVisit(v.reg, q, es[1..], v.left, deep);
        UntouchedTwice(s, v.reg, Visit(v.reg, q, es[1..], v.left).reg, q, deep);
      }
    }
  }

  lemma UntouchedSame(s: Reg, q: BusPath, deep: set<string>)
    ensures Untouched(s, s, q, deep)
  {
  }

  lemma {:induction false} DeepOne(s: Reg, q: BusPath, e: Entry, left: seq<string>, deep: set<string>)
    requires Valid(s) && q in s.buses && CanonicalEntry(e) && OneIds(e) <= deep && ListsOnly(s, q, deep)
    ensures var t := VisitOne(s, q, e, left).reg; Untouched(s, t, q, deep) && ListsOnly(t, q, deep)
    decreases e, 3
  {
    hide Valid, ScanPort, ListsOnly, IsId, IsCoupler, Found, DirIds, Canonical, CanonicalDir, Untouched;
    UntouchedSame(s, q, deep);
    if IsId(e.name) {
      var v := Found(s, q, e.name, left);
      DeepFound(s, q, e.name, left, deep);
      FoundValid(s, q, e.name, left);
      if v.ok && IsCoupler(e.name) {
        var a := ScanPort(v.reg, q, e.name, "main", e.main).0;
        DeepPort(v.reg, q, e.name, "main", e.main, deep);
        UntouchedTwice(s, v.reg, a, q, deep);
        ScanPortValid(v.reg, q, e.name, "main", e.main);
        DeepPort(a, q, e.name, "aux", e.aux, deep);
        UntouchedTwice(s, a, ScanPort(a, q, e.name, "aux", e.aux).0, q, deep);
      }
    }
  }

  lemma {:induction false} DeepPort(s: Reg, q: BusPath, id: string, port: string, d: Dir, deep: set<string>)
    requires Valid(s) && q in s.buses && CanonicalDir(d) && DirIds(d) <= deep && ListsOnly(s, q, deep)
    ensures var t := ScanPort(s, q, id, port, d).0; Untouched(s, t, q, deep) && ListsOnly(t, q, deep)
    decreases d, 2
  {
    hide Valid, Scan, DirIds, Untouched, ListsOnly, GetSubBus;
    var c := Port(q, Upper(id), port);
    var s1 := GetSubBus(s, q, Upper(id), port);
    GetSubBusValid(s, q, Upper(id), port);
    PortMade(s, q, Upper(id), port, deep);
    DeepScan(s1, c, d, deep);
    PortUntouched(s, s1, Scan(s1, c, d).0, q, c, deep);
  }

  /** A new port lists nothing. */
  lemma PortMade(s: Reg, q: BusPath, id: string, port: string, deep: set<string>)
    requires Valid(s) && q in s.buses && ListsOnly(s, q, deep)
    ensures var s1 := GetSubBus(s, q, id, port);
            Untouched(s, s1, q, deep) && ListsOnly(s1, q, deep) && ListsOnly(s1, Port(q, id, port), deep)
  {
    hide Valid, GetSubBus;
    PortBelow(q, id, port);
    SubBusDevs(s, q, id, port);
    var s1 := GetSubBus(s, q, id, port);
    var c := Port(q, id, port);
    ListsOnlyKept(s, s1, q, deep);
    forall x | x in s1.buses && c <= x ensures DevsIn(s1, x, deep) {
      assert q <= x && DevsIn(s1, x, deep);
    }
  }

  lemma PortUntouched(s: Reg, s1: Reg, t: Reg, q: BusPath, c: BusPath, deep: set<string>)
    requires q < c && Untouched(s, s1, q, deep) && Untouched(s1, t, c, deep)
    requires ListsOnly(s1, q, deep) && ListsOnly(t, c, deep)
    ensures Untouched(s, t, q, deep) && ListsOnly(t, q, deep)
  {
    forall x | x in t.buses && q <= x && c <= x ensures DevsIn(t, x, deep) {
    }
    ListsOnlyKept(s1, t, q, deep);
  }

  // ---------------------------------------------------------------- the devices of one bus

  /** The ids that occur behind the couplers of a directory. */
  function BehindIds(es: seq<Entry>): set<string> {
    if es == [] then {}
    else (if HasPorts(es[0]) then DirIds(es[0].main) + DirIds(es[0].aux) else {}) + BehindIds(es[1..])
  }

  /** The device is registered and located here, and was not listed by so many scans. */
  ghost predicate AgedAt(s: Reg, p: BusPath, id: string, age: nat) {
    id in s.ids && s.ids[id] < |s.objs| && s.objs[s.ids[id]] == Dev(id, Some(p), age)
  }

  ghost predicate Nowhere(s: Reg, id: string) {
    id in s.ids && s.ids[id] < |s.objs| && s.objs[s.ids[id]].id == id && s.objs[s.ids[id]].bus == None
  }

  /** The bus lists exactly the devices that have an age, and every other id once seen is located nowhere. */
  ghost predicate Aged(s: Reg, p: BusPath, ages: map<string, nat>, ever: set<string>, deep: set<string>) {
    p in s.buses && ages.Keys <= ever && ever !! deep && BelowListsOnly(s, p, deep) &&
    (forall id {:trigger AgedAt(s, p, id, ages[id])} {:trigger id in ages} :: id in ages ==>
        AgedAt(s, p, id, ages[id])) &&
    (forall id {:trigger Nowhere(s, id)} {:trigger id in ever} :: id in ever && id !in ages ==> Nowhere(s, id)) &&
    (forall r :: r in s.buses[p].devs ==> r < |s.objs| && s.objs[r].id in ages)
  }

  /** Ids that a scan has yet to meet. */
  ghost predicate Pending(left: seq<string>, ids: set<string>) {
    NoRepeats(left) && forall id :: id in left <==> id in ids
  }

  lemma RegisteredIsListed(s: Reg, p: BusPath, id: string)
    requires Valid(s) && id in s.ids
    ensures s.ids[id] < |s.objs| && s.objs[s.ids[id]].id == id
    ensures s.objs[s.ids[id]].bus == Some(p) ==> p in s.buses && s.ids[id] in s.buses[p].devs
  {
  }

  /** get_device makes at most an unlocated device of the given id, and ensure_struct changes no device. */
  lemma AgedGet(s: Reg, p: BusPath, name: string, ages: map<string, nat>, ever: set<string>, deep: set<string>)
    requires Valid(s) && Aged(s, p, ages, ever, deep) && Canonical(name) && name !in deep
    ensures var (t, r, ok) := Ready(s, name);
            Valid(t) && Aged(t, p, ages, ever, deep) && r < |t.objs| && t.objs[r].id == name && name in t.ids &&
            t.ids[name] == r
    ensures var (t, r, ok) := Ready(s, name);
            (t.objs[r].bus == Some(p) <==> name in ages)
  {
    hide Valid, Ready, Canonical, Loads, Family, Advanced;
    var (t, r, ok) := Ready(s, name);
    ReadyFrame(s, name);
    ReadyBus(s, name);
    forall x | 0 <= x < |s.objs| ensures t.objs[x] == s.objs[x] {
      assert t.objs[..|s.objs|][x] == s.objs[x];
    }
    BelowKept(s, t, p, deep);
    AgedUntouched(s, t, p, ages, ever, deep);
    RegisteredIsListed(t, p, name);
    assert name in ages ==> AgedAt(t, p, name, ages[name]);
  }

  lemma ReadyBus(s: Reg, id: string)
    ensures var (t, r, ok) := Ready(s, id); id !in s.ids ==> r < |t.objs| && t.objs[r].bus == None
  {
  }

  /** A listed id is located here and its age starts again. */
  lemma AgedFound(s: Reg, p: BusPath, name: string, left: seq<string>, ages: map<string, nat>, ever: set<string>,
                  deep: set<string>, ids: set<string>)
    requires Valid(s) && Aged(s, p, ages, ever, deep) && Canonical(name) && name !in deep
    requires Pending(left, ids) && ids <= ages.Keys && Found(s, p, name, left).ok
    ensures var v := Found(s, p, name, left);
            Aged(v.reg, p, ages[name := 0], ever + {name}, deep) && Pending(v.left, ids - {name})
  {
    hide Valid, Ready, Canonical, Aged, Pending, AddDevice, DistinctIds;
    var (t, r, ok) := Ready(s, name);
    AgedGet(s, p, name, ages, ever, deep);
    AgedBus(t, p, ages, ever, deep);
    if t.objs[r].bus == Some(p) {
      AgedAgain(t, p, name, ages, ever, deep);
      PendingLess(left, name, ids);
    } else {
      AgedAdded(t, p, name, ages, ever, deep);
      assert ids - {name} == ids;
    }
  }

  lemma AgedBus(s: Reg, p: BusPath, ages: map<string, nat>, ever: set<string>, deep: set<string>)
    requires Aged(s, p, ages, ever, deep)
    ensures p in s.buses && ages.Keys <= ever && ever !! deep
  {
  }

  lemma PendingLess(left: seq<string>, id: string, ids: set<string>)
    requires Pending(left, ids)
    ensures Pending(Without(left, id), ids - {id})
  {
    Teardown.WithoutGone(left, id);
  }

  lemma AgedAgain(t: Reg, p: BusPath, name: string, ages: map<string, nat>, ever: set<string>, deep: set<string>)
    requires Aged(t, p, ages, ever, deep) && name in ages && name in t.ids && t.ids[name] < |t.objs|
    ensures Aged(SetUnseen(t, t.ids[name], 0), p, ages[name := 0], ever + {name}, deep)
  {
    AgedReset(t, p, name, ages, ever, deep, 0);
    assert ever + {name} == ever;
  }

  /** Only the counter of one listed device changes. */
  lemma AgedReset(t: Reg, p: BusPath, name: string, ages: map<string, nat>, ever: set<string>, deep: set<string>,
                  age: nat)
    requires Aged(t, p, ages, ever, deep) && name in ages && name in t.ids && t.ids[name] < |t.objs|
    ensures Aged(SetUnseen(t, t.ids[name], age), p, ages[name := age], ever, deep)
  {
    hide BelowListsOnly;
    var u := SetUnseen(t, t.ids[name], age);
    BelowKept(t, u, p, deep);
    assert AgedAt(t, p, name, ages[name]);
    forall id | id in ages ensures AgedAt(u, p, id, ages[name := age][id]) {
      assert AgedAt(t, p, id, ages[id]);
    }
    forall id | id in ever && id !in ages ensures Nowhere(u, id) {
      assert Nowhere(t, id);
    }
  }

  lemma AgedAdded(t: Reg, p: BusPath, name: string, ages: map<string, nat>, ever: set<string>, deep: set<string>)
    requires Aged(t, p, ages, ever, deep) && name !in ages && name !in deep && HasBus(t, p)
    requires name in t.ids && t.ids[name] < |t.objs| && t.objs[t.ids[name]].id == name
    ensures var r := t.ids[name]; Aged(SetUnseen(AddDevice(t, p, r), r, 0), p, ages[name := 0], ever + {name}, deep)
  {
    hide DistinctIds, WithEntry, BelowListsOnly;
    var r := t.ids[name];
    var u := SetUnseen(AddDevice(t, p, r), r, 0);
    assert u.objs == t.objs[r := Dev(name, Some(p), 0)];
    BelowKept(t, u, p, deep);
    var after := ages[name := 0];
    forall id | id in after ensures AgedAt(u, p, id, after[id]) {
      assert id in ages ==> AgedAt(t, p, id, ages[id]);
    }
    forall id | id in ever + {name} && id !in ages[name := 0] ensures Nowhere(u, id) {
      assert Nowhere(t, id);
    }
  }

  /** Scans below change nothing here. */
  lemma AgedUntouched(s: Reg, t: Reg, p: BusPath, ages: map<string, nat>, ever: set<string>, deep: set<string>)
    requires Aged(s, p, ages, ever, deep) && p in t.buses && t.buses[p].devs == s.buses[p].devs &&
             BelowListsOnly(t, p, deep)
    requires |s.objs| <= |t.objs|
    requires forall r :: 0 <= r < |s.objs| && s.objs[r].id !in deep ==> t.objs[r] == s.objs[r]
    requires forall id :: id in s.ids && id !in deep ==> id in t.ids && t.ids[id] == s.ids[id]
    ensures Aged(t, p, ages, ever, deep)
  {
  }

  lemma PortListsOnly(s: Reg, p: BusPath, id: string, port: string, deep: set<string>)
    requires p in s.buses && BelowListsOnly(s, p, deep)
    ensures var s1 := GetSubBus(s, p, id, port);
            BelowListsOnly(s1, p, deep) && ListsOnly(s1, Port(p, id, port), deep)
  {
    hide GetSubBus;
    PortBelow(p, id, port);
    SubBusDevs(s, p, id, port);
    var s1 := GetSubBus(s, p, id, port);
    var c := Port(p, id, port);
    BelowKept(s, s1, p, deep);
    forall x | x in s1.buses && c <= x ensures DevsIn(s1, x, deep) {
      assert p < x && DevsIn(s1, x, deep);
    }
  }

  lemma SubScanListsOnly(s: Reg, t: Reg, p: BusPath, c: BusPath, deep: set<string>)
    requires p < c && BelowListsOnly(s, p, deep) && Untouched(s, t, c, deep) && ListsOnly(t, c, deep)
    ensures BelowListsOnly(t, p, deep)
  {
    forall x | x in t.buses && p < x && c <= x ensures DevsIn(t, x, deep) {
    }
    BelowKept(s, t, p, deep);
  }

  lemma AgedPort(s: Reg, p: BusPath, id: string, port: string, d: Dir, ages: map<string, nat>, ever: set<string>,
                 deep: set<string>)
    requires Valid(s) && Aged(s, p, ages, ever, deep) && CanonicalDir(d) && DirIds(d) <= deep
    ensures var t := ScanPort(s, p, id, port, d).0; Valid(t) && Aged(t, p, ages, ever, deep)
  {
    hide Valid, Scan, CanonicalDir, DirIds, GetSubBus, Aged;
    AgedBus(s, p, ages, ever, deep);
    ScanPortValid(s, p, id, port, d);
    var c := Port(p, Upper(id), port);
    var s1 := GetSubBus(s, p, Upper(id), port);
    GetSubBusValid(s, p, Upper(id), port);
    AgedNewPort(s, p, Upper(id), port, ages, ever, deep);
    DeepScan(s1, c, d, deep);
    PortBelow(p, Upper(id), port);
    AgedAfterSub(s1, Scan(s1, c, d).0, p, c, ages, ever, deep);
  }

  lemma AgedNewPort(s: Reg, p: BusPath, id: string, port: string, ages: map<string, nat>, ever: set<string>,
                    deep: set<string>)
    requires Aged(s, p, ages, ever, deep)
    ensures var s1 := GetSubBus(s, p, id, port);
            Aged(s1, p, ages, ever, deep) && ListsOnly(s1, Port(p, id, port), deep)
  {
    var s1 := GetSubBus(s, p, id, port);
    PortListsOnly(s, p, id, port, deep);
    PortBelow(p, id, port);
    AgedUntouched(s, s1, p, ages, ever, deep);
  }

  lemma AgedAfterSub(s: Reg, t: Reg, p: BusPath, c: BusPath, ages: map<string, nat>, ever: set<string>,
                     deep: set<string>)
    requires Aged(s, p, ages, ever, deep) && p < c && Untouched(s, t, c, deep) && ListsOnly(t, c, deep)
    ensures Aged(t, p, ages, ever, deep)
  {
    SubScanListsOnly(s, t, p, c, deep);
    AgedUntouched(s, t, p, ages, ever, deep);
  }

  // ---------------------------------------------------------------- one scan

  /** Every listed id was seen just now. */
  function Seen(ages: map<string, nat>, ids: seq<string>): map<string, nat>
    decreases |ids|
  {
    if ids == [] then ages else Seen(ages[ids[0] := 0], ids[1..])
  }

  lemma {:induction false} SeenMeans(ages: map<string, nat>, ids: seq<string>, id: string)
    ensures id in Seen(ages, ids) <==> id in ages || id in ids
    ensures id in Seen(ages, ids) ==> Seen(ages, ids)[id] == if id in ids then 0 else ages[id]
    decreases |ids|
  {
    if ids != [] {
      SeenMeans(ages[ids[0] := 0], ids[1..], id);
    }
  }

  lemma SeenTwice(ages: map<string, nat>, e: Entry, rest: seq<string>)
    ensures Seen(Seen(ages, OneRoots(e)), rest) == Seen(ages, OneRoots(e) + rest)
  {
    assert IsId(e.name) ==> (OneRoots(e) + rest)[1..] == rest;
    assert !IsId(e.name) ==> OneRoots(e) + rest == rest;
  }

  lemma {:induction false} AgedOne(s: Reg, p: BusPath, e: Entry, left: seq<string>, ages: map<string, nat>,
                                   ever: set<string>, deep: set<string>, ids: set<string>)
    requires Valid(s) && Aged(s, p, ages, ever, deep) && CanonicalEntry(e)
    requires IsId(e.name) ==> e.name !in deep
    requires HasPorts(e) ==> DirIds(e.main) <= deep && DirIds(e.aux) <= deep
    requires Pending(left, ids) && ids <= ages.Keys && VisitOne(s, p, e, left).ok
    ensures var v := VisitOne(s, p, e, left);
            Valid(v.reg) && Aged(v.reg, p, Seen(ages, OneRoots(e)), ever + (set id | id in OneRoots(e)), deep) &&
            Pending(v.left, ids - (set id | id in OneRoots(e)))
  {
    hide Valid, Aged, Pending, Found, ScanPort, IsId, IsCoupler, DirIds, CanonicalDir, Canonical;
    AgedBus(s, p, ages, ever, deep);
    if !IsId(e.name) {
      assert ever + {} == ever && ids - {} == ids;
      assert (set id | id in OneRoots(e)) == {};
    } else {
      assert (set id | id in OneRoots(e)) == {e.name};
      AgedFound(s, p, e.name, left, ages, ever, deep, ids);
      FoundValid(s, p, e.name, left);
      assert Seen(ages, OneRoots(e)) == ages[e.name := 0];
      if IsCoupler(e.name) {
        var v := Found(s, p, e.name, left);
        var a := ScanPort(v.reg, p, e.name, "main", e.main).0;
        AgedPort(v.reg, p, e.name, "main", e.main, ages[e.name := 0], ever + {e.name}, deep);
        AgedPort(a, p, e.name, "aux", e.aux, ages[e.name := 0], ever + {e.name}, deep);
      }
    }
  }

  lemma {:induction false} AgedVisit(s: Reg, p: BusPath, es: seq<Entry>, left: seq<string>, ages: map<string, nat>,
                                     ever: set<string>, deep: set<string>, ids: set<string>)
    requires Valid(s) && Aged(s, p, ages, ever, deep) && (forall e :: e in es ==> CanonicalEntry(e))
    requires (forall id :: id in RootIds(es) ==> id !in deep) && BehindIds(es) <= deep
    requires Pending(left, ids) && ids <= ages.Keys && Visit(s, p, es, left).ok
    ensures var v := Visit(s, p, es, left);
            Valid(v.reg) && Aged(v.reg, p, Seen(ages, RootIds(es)), ever + (set id | id in RootIds(es)), deep) &&
            Pending(v.left, ids - (set id | id in RootIds(es)))
    decreases es
  {
    hide Valid, Aged, Pending, VisitOne, IsId, IsCoupler, CanonicalEntry;
    if es == [] {
      assert (set id | id in RootIds(es)) == {};
      assert ever + {} == ever && ids - {} == ids;
    } else {
      var e := es[0];
      assert e in es && RootIds(es) == OneRoots(e) + RootIds(es[1..]);
      SeenTwice(ages, e, RootIds(es[1..]));
      AgedOne(s, p, e, left, ages, ever, deep, ids);
      var v := VisitOne(s, p, e, left);
      var here, there := (set id | id in OneRoots(e)), (set id | id in RootIds(es[1..]));
      assert (set id | id in RootIds(es)) == here + there;
      AgedVisit(v.reg, p, es[1..], v.left, Seen(ages, OneRoots(e)), ever + here, deep, ids - here);
      assert ever + here + there == ever + (here + there) && ids - here - there == ids - (here + there);
    }
  }

  /** The ages once the pending ids are counted: one more each, and gone after more than two. */
  function Counted(ages: map<string, nat>, ids: set<string>): map<string, nat> {
    map id | id in ages && !(id in ids && ages[id] > 2) :: if id in ids then ages[id] + 1 else ages[id]
  }

  lemma FindsRegistered(s: Reg, p: BusPath, id: string)
    requires Valid(s) && p in s.buses && id in s.ids && s.ids[id] in s.buses[p].devs && s.ids[id] < |s.objs| &&
             s.objs[s.ids[id]].id == id
    ensures HasBus(s, p) && FindEntry(s.objs, s.buses[p].devs, id) == Some(s.ids[id])
  {
  }

  lemma AgedDelocate(s: Reg, p: BusPath, id: string, ages: map<string, nat>, ever: set<string>, deep: set<string>)
    requires Aged(s, p, ages, ever, deep) && HasBus(s, p) && id in ages
    requires id in s.ids && s.ids[id] < |s.objs|
    ensures Aged(Delocate(s, p, s.ids[id]), p, ages - {id}, ever, deep)
  {
    hide DistinctIds, WithoutId, BelowListsOnly;
    assert AgedAt(s, p, id, ages[id]);
    var t := Delocate(s, p, s.ids[id]);
    BelowKept(s, t, p, deep);
    assert t.objs == s.objs[s.ids[id] := Dev(id, None, ages[id])];
    forall x | x in ages - {id} ensures AgedAt(t, p, x, (ages - {id})[x]) {
      assert AgedAt(s, p, x, ages[x]);
    }
    forall x | x in ever && x !in ages - {id} ensures Nowhere(t, x) {
      assert x != id ==> Nowhere(s, x);
    }
  }

  lemma AgedMissed(s: Reg, p: BusPath, id: string, ages: map<string, nat>, ever: set<string>, deep: set<string>)
    requires Valid(s) && Aged(s, p, ages, ever, deep) && id in ages
    ensures var t := Missed(s, p, id);
            t.Some? && Valid(t.value) && Aged(t.value, p, Counted(ages, {id}), ever, deep)
  {
    hide Valid, Aged, Delocate;
    AgedBus(s, p, ages, ever, deep);
    AgedIs(s, p, id, ages, ever, deep);
    RegisteredIsListed(s, p, id);
    FindsRegistered(s, p, id);
    MissedValid(s, p, id);
    if ages[id] > 2 {
      AgedDelocate(s, p, id, ages, ever, deep);
      assert Counted(ages, {id}) == ages - {id};
    } else {
      AgedReset(s, p, id, ages, ever, deep, ages[id] + 1);
      assert Counted(ages, {id}) == ages[id := ages[id] + 1];
    }
  }

  lemma AgedIs(s: Reg, p: BusPath, id: string, ages: map<string, nat>, ever: set<string>, deep: set<string>)
    requires Aged(s, p, ages, ever, deep) && id in ages
    ensures AgedAt(s, p, id, ages[id])
  {
  }

  lemma CountedTwice(ages: map<string, nat>, id: string, rest: set<string>, ids: set<string>)
    requires id in ids && rest == ids - {id}
    ensures Counted(Counted(ages, {id}), rest) == Counted(ages, ids)
  {
  }

  lemma PendingTail(left: seq<string>, ids: set<string>)
    requires Pending(left, ids) && left != []
    ensures left[0] in ids && Pending(left[1..], ids - {left[0]})
  {
  }

  lemma {:induction false} AgedMissedAll(s: Reg, p: BusPath, left: seq<string>, ages: map<string, nat>,
                                         ever: set<string>, deep: set<string>, ids: set<string>)
    requires Valid(s) && Aged(s, p, ages, ever, deep) && Pending(left, ids) && ids <= ages.Keys
    ensures var (t, ok) := MissedAll(s, p, left); ok && Aged(t, p, Counted(ages, ids), ever, deep)
    decreases |left|
  {
    hide Valid, Aged, Missed;
    if left == [] {
      assert ids == {};
      assert Counted(ages, {}) == ages;
    } else {
      PendingTail(left, ids);
      AgedMissed(s, p, left[0], ages, ever, deep);
      CountedTwice(ages, left[0], ids - {left[0]}, ids);
      AgedMissedAll(Missed(s, p, left[0]).value, p, left[1..], Counted(ages, {left[0]}), ever, deep, ids - {left[0]});
    }
  }

  /** Canonical throughout; what the bus itself lists is not in the set, what is listed behind its couplers is. */
  ghost predicate Layered(d: Dir, deep: set<string>) {
    d.Dir? && CanonicalDir(d) && (forall id :: id in RootIds(d.entries) ==> id !in deep) && BehindIds(d.entries) <= deep
  }

  /** The ages after one more listing. */
  function Listing(ages: map<string, nat>, d: Dir): map<string, nat>
    requires d.Dir?
  {
    var roots := RootIds(d.entries);
    Counted(Seen(ages, roots), ages.Keys - (set id | id in roots))
  }

  lemma AllPending(s: Reg, p: BusPath, ages: map<string, nat>, ever: set<string>, deep: set<string>)
    requires Valid(s) && Aged(s, p, ages, ever, deep) && HasBus(s, p)
    ensures Pending(Listed(s.objs, s.buses[p].devs), ages.Keys)
  {
    hide Valid, Listed;
    var devs := s.buses[p].devs;
    var left := Listed(s.objs, devs);
    forall i | 0 <= i < |left| ensures left[i] == s.objs[devs[i]].id {
      ListedId(s.objs, devs, i);
    }
    forall id | id in ages ensures id in left {
      assert AgedAt(s, p, id, ages[id]);
      RegisteredIsListed(s, p, id);
      var i :| 0 <= i < |devs| && devs[i] == s.ids[id];
      assert left[i] == id;
    }
    forall id | id in left ensures id in ages {
      var i :| 0 <= i < |left| && left[i] == id;
      assert devs[i] in devs;
    }
  }

  /** One successful scan: what is listed is located here and new, what is not listed grows older or is lost. */
  lemma AgedScan(s: Reg, p: BusPath, d: Dir, ages: map<string, nat>, ever: set<string>, deep: set<string>)
    requires Valid(s) && Aged(s, p, ages, ever, deep) && Layered(d, deep) && Scan(s, p, d).1
    ensures var t := Scan(s, p, d).0;
            Valid(t) && Aged(t, p, Listing(ages, d), ever + (set id | id in RootIds(d.entries)), deep)
  {
    hide Valid, Aged, Pending, Visit, MissedAll, CanonicalEntry, Counted, Seen, BehindIds, Listed;
    AgedBus(s, p, ages, ever, deep);
    Teardown.ValidHasBus(s, p);
    ScanValid(s, p, d);
    var left := Listed(s.objs, s.buses[p].devs);
    AllPending(s, p, ages, ever, deep);
    var roots := RootIds(d.entries);
    AgedVisit(s, p, d.entries, left, ages, ever, deep, ages.Keys);
    var v := Visit(s, p, d.entries, left);
    var ids := ages.Keys - (set id | id in roots);
    forall id | id in ids ensures id in Seen(ages, roots) {
      SeenMeans(ages, roots, id);
    }
    AgedMissedAll(v.reg, p, v.left, Seen(ages, roots), ever + (set id | id in roots), deep, ids);
  }

  // ---------------------------------------------------------------- many scans

  /** One round: the state the scan starts from, and what the server then lists. */
  datatype Round = Round(before: Reg, dir: Dir)

  /** What may happen between two scans of a bus: anything that leaves its dictionary, and the devices outside a
      set of ids, alone, and puts only ids of that set on the buses below. */
  ghost predicate Undisturbed(s: Reg, t: Reg, p: BusPath, deep: set<string>) {
    Valid(t) && BelowListsOnly(t, p, deep) && (p in s.buses ==> p in t.buses && t.buses[p].devs == s.buses[p].devs) &&
    |s.objs| <= |t.objs| &&
    (forall r :: 0 <= r < |s.objs| && s.objs[r].id !in deep ==> t.objs[r] == s.objs[r]) &&
    (forall id :: id in s.ids && id !in deep ==> id in t.ids && t.ids[id] == s.ids[id])
  }

  ghost function After(start: Reg, p: BusPath, rounds: seq<Round>): Reg {
    if rounds == [] then start else Scan(rounds[|rounds| - 1].before, p, rounds[|rounds| - 1].dir).0
  }

  /** Successful scans of one bus, one after the other. */
  ghost predicate Scanned(start: Reg, p: BusPath, deep: set<string>, rounds: seq<Round>) {
    rounds == [] ||
    (var n := |rounds| - 1;
     Scanned(start, p, deep, rounds[..n]) && Undisturbed(After(start, p, rounds[..n]), rounds[n].before, p, deep) &&
     Layered(rounds[n].dir, deep) && Scan(rounds[n].before, p, rounds[n].dir).1)
  }

  ghost predicate Lists(round: Round, id: string) {
    round.dir.Dir? && id in RootIds(round.dir.entries)
  }

  /** How many of the last rounds did not list the id; all of them if none did. */
  ghost function Since(rounds: seq<Round>, id: string): (n: nat)
    ensures n <= |rounds|
    ensures n < |rounds| ==> Lists(rounds[|rounds| - 1 - n], id)
    ensures forall k :: |rounds| - n <= k < |rounds| ==> !Lists(rounds[k], id)
  {
    if rounds == [] || Lists(rounds[|rounds| - 1], id) then 0 else 1 + Since(rounds[..|rounds| - 1], id)
  }

  function AgesAfter(rounds: seq<Round>): map<string, nat>
    requires forall i :: 0 <= i < |rounds| ==> rounds[i].dir.Dir?
  {
    if rounds == [] then map[] else Listing(AgesAfter(rounds[..|rounds| - 1]), rounds[|rounds| - 1].dir)
  }

  lemma ListingMeans(ages: map<string, nat>, d: Dir, id: string)
    requires d.Dir?
    ensures id in Listing(ages, d) <==> id in RootIds(d.entries) || (id in ages && ages[id] <= 2)
    ensures id in Listing(ages, d) ==> Listing(ages, d)[id] == if id in RootIds(d.entries) then 0 else ages[id] + 1
  {
    hide RootIds, Seen;
    SeenMeans(ages, RootIds(d.entries), id);
  }

  /** The ages are a window over the last four listings. */
  lemma {:induction false} AgesWindow(rounds: seq<Round>, id: string)
    requires forall i :: 0 <= i < |rounds| ==> rounds[i].dir.Dir?
    ensures id in AgesAfter(rounds) <==> Since(rounds, id) < |rounds| && Since(rounds, id) < 4
    ensures id in AgesAfter(rounds) ==> AgesAfter(rounds)[id] == Since(rounds, id)
  {
    hide Listing, RootIds;
    if rounds != [] {
      var n := |rounds| - 1;
      AgesWindow(rounds[..n], id);
      ListingMeans(AgesAfter(rounds[..n]), rounds[n].dir, id);
    }
  }

  function IdSet(d: Dir): set<string> {
    if d.Unreadable? then {} else var ids := RootIds(d.entries); set id | id in ids
  }

  ghost function EverListed(rounds: seq<Round>): set<string> {
    if rounds == [] then {}
    else
      EverListed(rounds[..|rounds| - 1]) +
      IdSet(rounds[|rounds| - 1].dir)
  }

  lemma {:induction false} EverMeans(rounds: seq<Round>, id: string)
    ensures id in EverListed(rounds) <==> Since(rounds, id) < |rounds|
  {
    if rounds != [] {
      EverMeans(rounds[..|rounds| - 1], id);
    }
  }

  lemma {:induction false} AllDirs(start: Reg, p: BusPath, deep: set<string>, rounds: seq<Round>)
    requires Scanned(start, p, deep, rounds)
    ensures forall i :: 0 <= i < |rounds| ==> rounds[i].dir.Dir?
  {
    hide Scan, After, Undisturbed, CanonicalDir, RootIds, BehindIds;
    if rounds != [] {
      AllDirs(start, p, deep, rounds[..|rounds| - 1]);
      assert forall i :: 0 <= i < |rounds| - 1 ==> rounds[i] == rounds[..|rounds| - 1][i];
    }
  }

  lemma {:induction false} AgedRun(start: Reg, p: BusPath, deep: set<string>, rounds: seq<Round>)
    requires Valid(start) && FreshBus(start, p) && BelowListsOnly(start, p, deep) && Scanned(start, p, deep, rounds)
    requires forall i :: 0 <= i < |rounds| ==> rounds[i].dir.Dir?
    ensures Valid(After(start, p, rounds)) &&
            Aged(After(start, p, rounds), p, AgesAfter(rounds), EverListed(rounds), deep)
  {
    hide Valid, Aged, Scan, Layered, Listing, BelowListsOnly;
    if rounds == [] {
      AgedFresh(start, p, deep);
    } else {
      var n := |rounds| - 1;
      AgedRun(start, p, deep, rounds[..n]);
      var s := After(start, p, rounds[..n]);
      AgedBus(s, p, AgesAfter(rounds[..n]), EverListed(rounds[..n]), deep);
      AgedUntouched(s, rounds[n].before, p, AgesAfter(rounds[..n]), EverListed(rounds[..n]), deep);
      AgedScan(rounds[n].before, p, rounds[n].dir, AgesAfter(rounds[..n]), EverListed(rounds[..n]), deep);
    }
  }

  lemma AgedFresh(s: Reg, p: BusPath, deep: set<string>)
    requires FreshBus(s, p) && BelowListsOnly(s, p, deep)
    ensures Aged(s, p, map[], {}, deep)
  {
  }

  /** The listed devices are those of the last four listings, each located here, with the number of scans since;
      every other id that was ever listed is located nowhere. */
  lemma DebounceWindow(start: Reg, p: BusPath, deep: set<string>, rounds: seq<Round>, id: string)
    requires Valid(start) && FreshBus(start, p) && BelowListsOnly(start, p, deep) && Scanned(start, p, deep, rounds)
    ensures var t := After(start, p, rounds);
            var since := Since(rounds, id);
            Valid(t) && (ListsId(t, p, id) <==> since < |rounds| && since < 4) &&
            (since < |rounds| && since < 4 ==> AgedAt(t, p, id, since)) &&
            (4 <= since < |rounds| ==> Nowhere(t, id))
  {
    hide Valid, After, Scan, Listing, BelowListsOnly, Scanned, Since, AgesAfter, EverListed;
    AllDirs(start, p, deep, rounds);
    AgedRun(start, p, deep, rounds);
    AgesWindow(rounds, id);
    EverMeans(rounds, id);
    var t := After(start, p, rounds);
    if id in AgesAfter(rounds) {
      RegisteredIsListed(t, p, id);
      var i :| 0 <= i < |t.buses[p].devs| && t.buses[p].devs[i] == t.ids[id];
    }
  }

  /** Scanning another bus is a case of what may happen in between. */
  lemma OtherScanUndisturbed(s: Reg, p: BusPath, deep: set<string>, q: BusPath, d: Dir)
    requires Valid(s) && q in s.buses && !(q <= p) && CanonicalDir(d) && DirIds(d) <= deep
    requires ListsOnly(s, q, deep) && BelowListsOnly(s, p, deep)
    ensures Undisturbed(s, Scan(s, q, d).0, p, deep)
  {
    hide Valid, Scan, CanonicalDir, DirIds;
    DeepScan(s, q, d, deep);
    ScanValid(s, q, d);
    var t := Scan(s, q, d).0;
    forall x | x in t.buses && p < x
      ensures (x in s.buses && t.buses[x].devs == s.buses[x].devs) || DevsIn(t, x, deep) {
      assert q <= x ==> DevsIn(t, x, deep);
    }
    BelowKept(s, t, p, deep);
  }
}
