/** A scan, one id at a time: what a scan does to one id depends on that id alone, and a scan raises an exception
    exactly if it does so for some id. So the whole registry can be left aside, and a small machine over one id's
    location, counter and dictionaries says what a scan does (Bus._scan_one). */
module OneId {
  import opened Text
  import opened Registry
  import opened ScanTree
  import Teardown

  /** What concerns one id: where its registered device is, the device's counter, the buses whose dictionary has the
      id, those whose dictionary has that very device, and whether the class of its family is or can be set up. */
  datatype View =
    View(at: Option<BusPath>, unseen: nat, lists: set<BusPath>, holds: set<BusPath>, loads: bool)

  ghost predicate Registered(s: Reg, id: string) {
    id in s.ids && s.ids[id] < |s.objs|
  }

  ghost function ViewOf(s: Reg, id: string): View {
    View(
      if Registered(s, id) then s.objs[s.ids[id]].bus else None,
      if Registered(s, id) then s.objs[s.ids[id]].unseen else 0,
      (set x | x in s.buses && ListsId(s, x, id)),
      (set x | x in s.buses && Registered(s, id) && s.ids[id] in s.buses[x].devs),
      Loads(s.structs, Family(id)))
  }

  // ---------------------------------------------------------------- the machine

  /** The device is listed at p: found again, or brought here, once its class is set up. waiting says that the id has
      not been seen yet. */
  function Met(p: BusPath, v: View, waiting: bool): Option<(View, bool)> {
    if !v.loads then None
    else if v.at != Some(p) then
      Some((v.(at := Some(p), unseen := 0, lists := v.lists + {p}, holds := v.holds + {p}), waiting))
    else if waiting then Some((v.(unseen := 0), false))
    else None
  }

  /** The id was not seen: the device, if it is the one in the dictionary, is counted, or lost from here. */
  function Miss(p: BusPath, v: View): View {
    if p !in v.holds then v
    else if v.unseen <= 2 then v.(unseen := v.unseen + 1)
    else if v.at == Some(p) then v.(at := None, lists := v.lists - {p}, holds := v.holds - {p})
    else v
  }

  function OneScan(p: BusPath, d: Dir, id: string, v: View): Option<View>
    decreases d, 1
  {
    if d.Unreadable? then None
    else
      match OneVisit(p, d.entries, id, v, p in v.lists)
      case None => None
      case Some((w, waiting)) => Some(if waiting then Miss(p, w) else w)
  }

  function OneVisit(p: BusPath, es: seq<Entry>, id: string, v: View, waiting: bool): Option<(View, bool)>
    decreases es, 0
  {
    if es == [] then Some((v, waiting))
    else
      match OneEntry(p, es[0], id, v, waiting)
      case None => None
      case Some((w, still)) => OneVisit(p, es[1..], id, w, still)
  }

  function OneEntry(p: BusPath, e: Entry, id: string, v: View, waiting: bool): Option<(View, bool)>
    decreases e, 3
  {
    if !IsId(e.name) then Some((v, waiting))
    else
      match (if e.name == id then Met(p, v, waiting) else Some((v, waiting)))
      case None => None
      case Some((w, still)) =>
        if !IsCoupler(e.name) then Some((w, still))
        else
          match BothPorts(p, e, id, w)
          case None => None
          case Some(u) => Some((u, still))
  }

  /** main, then aux. */
  function BothPorts(p: BusPath, e: Entry, id: string, v: View): Option<View>
    decreases e, 2
  {
    match OneScan(Port(p, e.name, "main"), e.main, id, v)
    case None => None
    case Some(w) => OneScan(Port(p, e.name, "aux"), e.aux, id, w)
  }

  // ---------------------------------------------------------------- one operation at a time

  lemma ListsMember(s: Reg, p: BusPath, id: string)
    ensures ListsId(s, p, id) <==>
            p in s.buses && exists r :: r in s.buses[p].devs && r < |s.objs| && s.objs[r].id == id
  {
    if p in s.buses {
      var devs := s.buses[p].devs;
      if ListsId(s, p, id) {
        var i :| 0 <= i < |devs| && devs[i] < |s.objs| && s.objs[devs[i]].id == id;
        assert devs[i] in devs;
      }
      if r :| r in devs && r < |s.objs| && s.objs[r].id == id {
        var i :| 0 <= i < |devs| && devs[i] == r;
        assert s.objs[devs[i]].id == id;
      }
    }
  }

  ghost predicate Listings(s: Reg) {
    forall x, r :: x in s.buses && r in s.buses[x].devs ==> r < |s.objs|
  }

  lemma ValidListings(s: Reg)
    requires Valid(s)
    ensures Listings(s) && IdsValid(s) && LocationsValid(s)
  {
    hide Replay, SnapshotOf, TreeValid, DictsValid, Journalled;
    forall x, r | x in s.buses && r in s.buses[x].devs ensures r < |s.objs| {
      assert DistinctIds(s.objs, s.buses[x].devs);
    }
  }

  /** In a valid registry a dictionary that has the device lists its id, and a located device is in its bus's. */
  ghost predicate Sound(v: View) {
    v.holds <= v.lists && (v.at.Some? ==> v.at.value in v.holds)
  }

  lemma ViewSound(s: Reg, id: string)
    requires Valid(s)
    ensures Sound(ViewOf(s, id))
  {
    hide Valid, ListsId;
    ValidListings(s);
    forall x | x in ViewOf(s, id).holds ensures ListsId(s, x, id) {
      ListsMember(s, x, id);
    }
  }

  /** Two states that agree on one id. */
  lemma SameView(s: Reg, t: Reg, id: string)
    requires Registered(s, id) <==> Registered(t, id)
    requires Registered(s, id) ==> t.ids[id] == s.ids[id] && t.objs[t.ids[id]] == s.objs[s.ids[id]]
    requires forall x :: ListsId(t, x, id) <==> ListsId(s, x, id)
    requires Loads(t.structs, Family(id)) <==> Loads(s.structs, Family(id))
    requires Registered(s, id) ==>
               forall x :: (x in s.buses && s.ids[id] in s.buses[x].devs) <==>
                 (x in t.buses && s.ids[id] in t.buses[x].devs)
    ensures ViewOf(t, id) == ViewOf(s, id)
  {
    hide ListsId;
    assert forall x :: ListsId(s, x, id) ==> x in s.buses by { ListsLive(s, id); }
    assert forall x :: ListsId(t, x, id) ==> x in t.buses by { ListsLive(t, id); }
  }

  lemma ListsLive(s: Reg, id: string)
    ensures forall x :: ListsId(s, x, id) ==> x in s.buses
  {
  }

  lemma PortView(s: Reg, p: BusPath, name: string, port: string, id: string)
    requires Valid(s) && p in s.buses
    ensures ViewOf(GetSubBus(s, p, name, port), id) == ViewOf(s, id)
  {
    hide Valid, GetSubBus;
    SubBusDevs(s, p, name, port);
    PortKeepsDevs(s, p, name, port);
    var t := GetSubBus(s, p, name, port);
    SameView(s, t, id);
  }

  lemma PortKeepsDevs(s: Reg, p: BusPath, id: string, port: string)
    requires Valid(s) && p in s.buses
    ensures var s1 := GetSubBus(s, p, id, port);
            forall x :: x in s.buses ==> x in s1.buses && s1.buses[x].devs == s.buses[x].devs
  {
    hide Valid, Parent;
    ValidParts(s);
    PortParent(s, p, id, port);
    if Port(p, id, port) !in s.buses[p].subs {
      NotListedNotLive(s, Port(p, id, port));
    }
  }

  lemma GetDeviceNew(s: Reg, name: string)
    requires Canonical(name)
    ensures var (t, r) := GetDevice(s, name);
            if name in s.ids then t == s && r == s.ids[name]
            else r == |s.objs| && t.objs == s.objs + [Dev(name, None, 0)] && t.ids == s.ids[name := r] &&
                 t.buses == s.buses && t.structs == s.structs
  {
  }

  lemma ReadyNew(s: Reg, name: string)
    requires Canonical(name)
    ensures var (t, r, ok) := Ready(s, name);
            t.buses == s.buses &&
            if name in s.ids then t.objs == s.objs && t.ids == s.ids && r == s.ids[name]
            else r == |s.objs| && t.objs == s.objs + [Dev(name, None, 0)] && t.ids == s.ids[name := r]
  {
    hide GetDevice, Loads, Canonical;
    GetDeviceNew(s, name);
  }

  lemma NewView(s: Reg, name: string, id: string)
    requires Valid(s) && Canonical(name)
    ensures ViewOf(GetDevice(s, name).0, id) == ViewOf(s, id)
  {
    hide Valid, GetDevice, Canonical, ListsId, Loads, Family;
    GetDeviceNew(s, name);
    ValidListings(s);
    var t := GetDevice(s, name).0;
    forall x ensures ListsId(t, x, id) <==> ListsId(s, x, id) {
      ListsMember(s, x, id);
      ListsMember(t, x, id);
    }
    if id != name {
      SameView(s, t, id);
    }
  }

  /** Setting up a class is seen by no id. */
  lemma ReadyView(s: Reg, name: string, id: string)
    requires Valid(s) && Canonical(name)
    ensures ViewOf(Ready(s, name).0, id) == ViewOf(s, id)
  {
    hide Valid, GetDevice, Canonical, ListsId, Family, Replay;
    NewView(s, name, id);
    GetDeviceFacts(s, name);
    var made := GetDevice(s, name).0;
    var t := Ready(s, name).0;
    forall x ensures ListsId(t, x, id) <==> ListsId(made, x, id) {
      ListsMember(t, x, id);
      ListsMember(made, x, id);
    }
    SameView(made, t, id);
  }

  /** The device of another id is put into the dictionary. */
  lemma EnteredOther(t: Reg, u: Reg, p: BusPath, r: nat, id: string)
    requires p in t.buses && Listings(t) && IdsValid(t) && r < |t.objs| && t.objs[r].id != id
    requires |u.objs| == |t.objs| && u.ids == t.ids && u.objs[r].id == t.objs[r].id && u.structs == t.structs
    requires forall i :: 0 <= i < |t.objs| && i != r ==> u.objs[i] == t.objs[i]
    requires u.buses.Keys == t.buses.Keys && forall x :: x in t.buses && x != p ==> u.buses[x].devs == t.buses[x].devs
    requires forall x: nat :: x < |t.objs| && t.objs[x].id == id ==> (x in u.buses[p].devs <==> x in t.buses[p].devs)
    ensures ViewOf(u, id) == ViewOf(t, id)
  {
    hide ListsId;
    forall x ensures ListsId(u, x, id) <==> ListsId(t, x, id) {
      ListsMember(u, x, id);
      ListsMember(t, x, id);
    }
    SameView(t, u, id);
  }

  /** The device itself is put into the dictionary, and located here. */
  lemma EnteredSame(t: Reg, u: Reg, p: BusPath, name: string)
    requires p in t.buses && Listings(t) && IdsValid(t) && Registered(t, name)
    requires u.ids == t.ids && u.objs == t.objs[t.ids[name] := Dev(name, Some(p), 0)] && u.structs == t.structs
    requires u.buses.Keys == t.buses.Keys && forall x :: x in t.buses && x != p ==> u.buses[x].devs == t.buses[x].devs
    requires t.ids[name] in u.buses[p].devs
    ensures var v := ViewOf(t, name);
            ViewOf(u, name) == View(Some(p), 0, v.lists + {p}, v.holds + {p}, v.loads)
  {
    hide ListsId;
    forall x ensures ListsId(u, x, name) <==> ListsId(t, x, name) || x == p {
      ListsMember(u, x, name);
      ListsMember(t, x, name);
      if x == p {
        assert t.ids[name] in u.buses[p].devs;
      }
    }
    ListsLive(u, name);
    ListsLive(t, name);
  }

  lemma Entered(t: Reg, p: BusPath, r: nat)
    requires HasBus(t, p) && r < |t.objs| && t.objs[r].bus != Some(p)
    ensures var u := SetUnseen(AddDevice(t, p, r), r, 0);
            u.objs == t.objs[r := Dev(t.objs[r].id, Some(p), 0)] && u.ids == t.ids && u.structs == t.structs &&
            u.buses == t.buses[p := u.buses[p]] &&
            forall x :: x in u.buses[p].devs <==>
              x == r || (x in t.buses[p].devs && x < |t.objs| && t.objs[x].id != t.objs[r].id)
  {
    hide WithEntry;
  }

  /** What Found does to the view of each id. */
  lemma FoundView(s: Reg, p: BusPath, name: string, left: seq<string>, id: string)
    requires Valid(s) && p in s.buses && Canonical(name) && NoRepeats(left)
    ensures var v := Found(s, p, name, left);
            NoRepeats(v.left) && (forall x :: x in v.left ==> x in left) &&
            (v.ok <==> Met(p, ViewOf(s, name), name in left).Some?) &&
            (v.ok ==>
               Some((ViewOf(v.reg, id), id in v.left)) ==
               if id == name then Met(p, ViewOf(s, name), name in left) else Some((ViewOf(s, id), id in left)))
  {
    hide Valid, Ready, Canonical, AddDevice, DistinctIds, ViewOf, NoRepeats, Loads, Family, Advanced;
    var (t, r, ok) := Ready(s, name);
    ReadyFrame(s, name);
    ReadyView(s, name, id);
    ReadyView(s, name, name);
    ViewLoads(s, name);
    Teardown.ValidHasBus(t, p);
    ValidListings(t);
    Teardown.WithoutGone(left, name);
    ViewAt(t, name);
    if !ok {
    } else if t.objs[r].bus == Some(p) {
      CounterView(t, p, name, id);
    } else {
      Entered(t, p, r);
      var u := Found(s, p, name, left).reg;
      if id == name {
        EnteredSame(t, u, p, name);
      } else {
        EnteredOther(t, u, p, r, id);
      }
    }
  }

  lemma ViewLoads(s: Reg, id: string)
    ensures ViewOf(s, id).loads <==> Loads(s.structs, Family(id))
  {
  }

  lemma ViewAt(s: Reg, id: string)
    requires Registered(s, id)
    ensures ViewOf(s, id).at == s.objs[s.ids[id]].bus && ViewOf(s, id).unseen == s.objs[s.ids[id]].unseen
  {
  }

  /** Only the counter of the registered device of one id changes. */
  lemma CounterView(t: Reg, p: BusPath, name: string, id: string)
    requires Registered(t, name) && IdsValid(t)
    ensures ViewOf(SetUnseen(t, t.ids[name], 0), id) ==
            if id == name then ViewOf(t, id).(unseen := 0) else ViewOf(t, id)
  {
    CountView(t, t.ids[name], 0, id);
  }

  lemma CountView(t: Reg, r: nat, n: nat, id: string)
    requires r < |t.objs|
    ensures ViewOf(SetUnseen(t, r, n), id) ==
            if Registered(t, id) && t.ids[id] == r then ViewOf(t, id).(unseen := n) else ViewOf(t, id)
  {
    hide ListsId;
    var u := SetUnseen(t, r, n);
    forall x ensures ListsId(u, x, id) <==> ListsId(t, x, id) {
      ListsMember(u, x, id);
      ListsMember(t, x, id);
    }
    ListsLive(u, id);
    ListsLive(t, id);
  }

  /** The dictionary's entry for an id, in terms of the view. */
  lemma EntryOf(s: Reg, p: BusPath, id: string)
    requires Valid(s) && p in ViewOf(s, id).lists
    ensures HasBus(s, p) && FindEntry(s.objs, s.buses[p].devs, id).Some?
    ensures var r := FindEntry(s.objs, s.buses[p].devs, id).value;
            (p in ViewOf(s, id).holds <==> Registered(s, id) && s.ids[id] == r) &&
            (s.objs[r].bus == Some(p) ==> p in ViewOf(s, id).holds)
  {
    hide Valid, FindEntry, ListsId;
    Teardown.ValidHasBus(s, p);
    ValidListings(s);
    ListsMember(s, p, id);
    var devs := s.buses[p].devs;
    var x :| x in devs && x < |s.objs| && s.objs[x].id == id;
    var r := FindEntry(s.objs, devs, id).value;
    if p in ViewOf(s, id).holds {
      var i :| 0 <= i < |devs| && devs[i] == s.ids[id];
      var j :| 0 <= j < |devs| && devs[j] == r;
    }
  }

  /** A lost device: its id goes from this dictionary. */
  lemma LostView(s: Reg, p: BusPath, r: nat, id: string)
    requires Valid(s) && p in s.buses && r < |s.objs| && s.objs[r].bus == Some(p)
    ensures HasBus(s, p)
    ensures var t := Delocate(s, p, r); var v := ViewOf(s, id);
            ViewOf(t, id) ==
              if id == s.objs[r].id then v.(at := None, lists := v.lists - {p}, holds := v.holds - {p}) else v
  {
    hide Valid, WithoutId, ListsId, DistinctIds;
    Teardown.ValidHasBus(s, p);
    ValidListings(s);
    var t := Delocate(s, p, r);
    assert t.buses.Keys == s.buses.Keys && forall x :: x in s.buses && x != p ==> t.buses[x] == s.buses[x];
    assert forall y :: y in t.buses[p].devs <==> y in s.buses[p].devs && s.objs[y].id != s.objs[r].id;
    forall x ensures ListsId(t, x, id) <==> ListsId(s, x, id) && (x != p || id != s.objs[r].id) {
      ListsMember(t, x, id);
      ListsMember(s, x, id);
    }
    ListsLive(t, id);
    ListsLive(s, id);
  }

  lemma MissedView(s: Reg, p: BusPath, name: string, id: string)
    requires Valid(s) && p in ViewOf(s, name).lists
    ensures var t := Missed(s, p, name);
            t.Some? && ViewOf(t.value, id) == if id == name then Miss(p, ViewOf(s, id)) else ViewOf(s, id)
  {
    hide Valid, ViewOf, FindEntry, Delocate;
    EntryOf(s, p, name);
    ValidListings(s);
    var r := FindEntry(s.objs, s.buses[p].devs, name).value;
    ViewRegistered(s, name);
    if s.objs[r].unseen > 2 {
      if s.objs[r].bus == Some(p) {
        LostView(s, p, r, id);
      } else {
        DelocateElsewhere(s, p, r);
      }
    } else {
      CountView(s, r, s.objs[r].unseen + 1, id);
    }
  }

  lemma DelocateElsewhere(s: Reg, p: BusPath, r: nat)
    requires HasBus(s, p) && r < |s.objs| && s.objs[r].bus != Some(p)
    ensures Delocate(s, p, r) == s
  {
  }

  lemma ViewRegistered(s: Reg, id: string)
    requires Valid(s)
    ensures Registered(s, id) ==>
            ViewOf(s, id).at == s.objs[s.ids[id]].bus && ViewOf(s, id).unseen == s.objs[s.ids[id]].unseen
    ensures !Registered(s, id) ==> ViewOf(s, id).holds == {} && ViewOf(s, id).at == None
  {
    hide Valid;
  }

  // ---------------------------------------------------------------- the whole scan

  /** Ids not seen so far: each once, and listed here. */
  ghost predicate Awaited(s: Reg, p: BusPath, left: seq<string>) {
    NoRepeats(left) && forall x :: x in left ==> p in ViewOf(s, x).lists
  }

  lemma {:induction false} MissedAllView(s: Reg, p: BusPath, left: seq<string>, id: string)
    requires Valid(s) && p in s.buses && Awaited(s, p, left)
    ensures var (t, ok) := MissedAll(s, p, left);
            ok && ViewOf(t, id) == if id in left then Miss(p, ViewOf(s, id)) else ViewOf(s, id)
    decreases |left|
  {
    hide Valid, Missed, ViewOf;
    if left != [] {
      assert left == [left[0]] + left[1..] && NoRepeats(left[1..]) && left[0] !in left[1..];
      MissedView(s, p, left[0], id);
      var t := Missed(s, p, left[0]).value;
      forall x | x in left[1..] ensures p in ViewOf(t, x).lists {
        MissedView(s, p, left[0], x);
      }
      MissedValid(s, p, left[0]);
      MissedAllView(t, p, left[1..], id);
    }
  }

  /** Scans below leave the dictionaries elsewhere alone, and the class as it is. */
  lemma {:induction false} ScanKeeps(p: BusPath, d: Dir, id: string, v: View, x: BusPath)
    requires OneScan(p, d, id, v).Some? && !(p <= x)
    ensures var w := OneScan(p, d, id, v).value;
            (x in w.lists <==> x in v.lists) && (x in w.holds <==> x in v.holds)
    decreases d, 1
  {
    VisitKeeps(p, d.entries, id, v, p in v.lists, x);
  }

  lemma {:induction false} VisitKeeps(p: BusPath, es: seq<Entry>, id: string, v: View, waiting: bool, x: BusPath)
    requires OneVisit(p, es, id, v, waiting).Some?
    ensures var w := OneVisit(p, es, id, v, waiting).value.0;
            (!(p <= x) ==> (x in w.lists <==> x in v.lists) && (x in w.holds <==> x in v.holds)) &&
            (x == p && x in v.lists ==> x in w.lists)
    decreases es, 0
  {
    hide OneEntry;
    if es != [] {
      var (w, still) := OneEntry(p, es[0], id, v, waiting).value;
      EntryKeeps(p, es[0], id, v, waiting, x);
      VisitKeeps(p, es[1..], id, w, still, x);
    }
  }

  lemma {:induction false} EntryKeeps(p: BusPath, e: Entry, id: string, v: View, waiting: bool, x: BusPath)
    requires OneEntry(p, e, id, v, waiting).Some?
    ensures var w := OneEntry(p, e, id, v, waiting).value.0;
            (!(p <= x) ==> (x in w.lists <==> x in v.lists) && (x in w.holds <==> x in v.holds)) &&
            (x == p && x in v.lists ==> x in w.lists)
    decreases e, 3
  {
    hide IsId, IsCoupler, OneScan;
    if HasPorts(e) {
      var (w, _) := (if e.name == id then Met(p, v, waiting) else Some((v, waiting))).value;
      if !(p <= x) || x == p {
        var main, aux := Port(p, e.name, "main"), Port(p, e.name, "aux");
        PortBelow(p, e.name, "main");
        PortBelow(p, e.name, "aux");
        ScanKeeps(main, e.main, id, w, x);
        ScanKeeps(aux, e.aux, id, OneScan(main, e.main, id, w).value, x);
      }
    }
  }

  /** Scans that meet the id need its class, and none of them changes whether it can be set up. */
  lemma {:induction false} ScanNeedsLoads(p: BusPath, d: Dir, id: string, v: View)
    requires OneScan(p, d, id, v).Some?
    ensures OneScan(p, d, id, v).value.loads == v.loads && (id in DirIds(d) ==> v.loads)
    decreases d, 1
  {
    hide OneVisit, EntryIds;
    VisitNeedsLoads(p, d.entries, id, v, p in v.lists);
  }

  lemma {:induction false} VisitNeedsLoads(p: BusPath, es: seq<Entry>, id: string, v: View, waiting: bool)
    requires OneVisit(p, es, id, v, waiting).Some?
    ensures OneVisit(p, es, id, v, waiting).value.0.loads == v.loads && (id in EntryIds(es) ==> v.loads)
    decreases es, 0
  {
    hide OneEntry, OneIds;
    if es != [] {
      var (w, still) := OneEntry(p, es[0], id, v, waiting).value;
      EntryNeedsLoads(p, es[0], id, v, waiting);
      VisitNeedsLoads(p, es[1..], id, w, still);
    }
  }

  lemma {:induction false} EntryNeedsLoads(p: BusPath, e: Entry, id: string, v: View, waiting: bool)
    requires OneEntry(p, e, id, v, waiting).Some?
    ensures OneEntry(p, e, id, v, waiting).value.0.loads == v.loads && (id in OneIds(e) ==> v.loads)
    decreases e, 3
  {
    hide IsId, IsCoupler, OneScan, DirIds;
    if HasPorts(e) {
      var (w, _) := (if e.name == id then Met(p, v, waiting) else Some((v, waiting))).value;
      var main, aux := Port(p, e.name, "main"), Port(p, e.name, "aux");
      ScanNeedsLoads(main, e.main, id, w);
      ScanNeedsLoads(aux, e.aux, id, OneScan(main, e.main, id, w).value);
    }
  }

  lemma AllAwaited(s: Reg, p: BusPath)
    requires Valid(s) && p in s.buses
    ensures HasBus(s, p)
    ensures var left := Listed(s.objs, s.buses[p].devs);
            Awaited(s, p, left) && forall id :: id in left <==> p in ViewOf(s, id).lists
  {
    hide Valid, Listed, ListsId;
    Teardown.ValidHasBus(s, p);
    ValidListings(s);
    var devs := s.buses[p].devs;
    var left := Listed(s.objs, devs);
    forall i | 0 <= i < |left| ensures left[i] == s.objs[devs[i]].id {
      ListedId(s.objs, devs, i);
    }
    forall id ensures id in left <==> p in ViewOf(s, id).lists {
      ListsMember(s, p, id);
      if id in left {
        var i :| 0 <= i < |left| && left[i] == id;
        assert devs[i] in devs;
      }
      if p in ViewOf(s, id).lists {
        var r :| r in devs && r < |s.objs| && s.objs[r].id == id;
        var i :| 0 <= i < |devs| && devs[i] == r;
        assert left[i] == id;
      }
    }
  }

  /** A scan that succeeds does to each id what the machine does. */
  lemma {:induction false} ScanView(s: Reg, p: BusPath, d: Dir, id: string)
    requires Valid(s) && p in s.buses && CanonicalDir(d) && Scan(s, p, d).1
    ensures OneScan(p, d, id, ViewOf(s, id)) == Some(ViewOf(Scan(s, p, d).0, id))
    decreases d, 1
  {
    hide Valid, ViewOf, Visit, MissedAll, CanonicalEntry, Listed, OneVisit;
    AllAwaited(s, p);
    var left := Listed(s.objs, s.buses[p].devs);
    var v := Visit(s, p, d.entries, left);
    VisitView(s, p, d.entries, left, id);
    VisitAwaited(s, p, d.entries, left);
    VisitValid(s, p, d.entries, left);
    MissedAllView(v.reg, p, v.left, id);
  }

  lemma {:induction false} VisitView(s: Reg, p: BusPath, es: seq<Entry>, left: seq<string>, id: string)
    requires Valid(s) && p in s.buses && (forall e :: e in es ==> CanonicalEntry(e)) && NoRepeats(left) &&
             Visit(s, p, es, left).ok
    ensures var v := Visit(s, p, es, left);
            NoRepeats(v.left) && (forall x :: x in v.left ==> x in left) &&
            OneVisit(p, es, id, ViewOf(s, id), id in left) == Some((ViewOf(v.reg, id), id in v.left))
    decreases es, 0
  {
    hide Valid, ViewOf, VisitOne, CanonicalEntry, OneEntry, NoRepeats;
    if es != [] {
      assert es[0] in es;
      EntryView(s, p, es[0], left, id);
      VisitOneValid(s, p, es[0], left);
      var v := VisitOne(s, p, es[0], left);
      VisitView(v.reg, p, es[1..], v.left, id);
    }
  }

  lemma {:induction false} VisitAwaited(s: Reg, p: BusPath, es: seq<Entry>, left: seq<string>)
    requires Valid(s) && p in s.buses && (forall e :: e in es ==> CanonicalEntry(e)) && Awaited(s, p, left) &&
             Visit(s, p, es, left).ok
    ensures Awaited(Visit(s, p, es, left).reg, p, Visit(s, p, es, left).left)
    decreases es, 2
  {
    hide Valid, ViewOf, Visit, OneVisit, CanonicalEntry;
    var v := Visit(s, p, es, left);
    VisitView(s, p, es, left, "");
    forall x | x in v.left ensures p in ViewOf(v.reg, x).lists {
      VisitView(s, p, es, left, x);
      VisitKeeps(p, es, x, ViewOf(s, x), x in left, p);
    }
  }

  lemma {:induction false} EntryView(s: Reg, p: BusPath, e: Entry, left: seq<string>, id: string)
    requires Valid(s) && p in s.buses && CanonicalEntry(e) && NoRepeats(left) && VisitOne(s, p, e, left).ok
    ensures var v := VisitOne(s, p, e, left);
            NoRepeats(v.left) && (forall x :: x in v.left ==> x in left) &&
            OneEntry(p, e, id, ViewOf(s, id), id in left) == Some((ViewOf(v.reg, id), id in v.left))
    decreases e, 3
  {
    hide Valid, ViewOf, Found, ScanPort, IsId, IsCoupler, Canonical, CanonicalDir, NoRepeats, OneScan, Met;
    if IsId(e.name) {
      FoundView(s, p, e.name, left, id);
      FoundValid(s, p, e.name, left);
      if IsCoupler(e.name) {
        var v := Found(s, p, e.name, left);
        var a := ScanPort(v.reg, p, e.name, "main", e.main).0;
        PortScanView(v.reg, p, e.name, "main", e.main, id);
        ScanPortValid(v.reg, p, e.name, "main", e.main);
        PortScanView(a, p, e.name, "aux", e.aux, id);
      }
    }
  }

  lemma {:induction false} PortScanView(s: Reg, p: BusPath, name: string, port: string, d: Dir, id: string)
    requires Valid(s) && p in s.buses && Canonical(name) && CanonicalDir(d) && ScanPort(s, p, name, port, d).1
    ensures OneScan(Port(p, name, port), d, id, ViewOf(s, id)) == Some(ViewOf(ScanPort(s, p, name, port, d).0, id))
    decreases d, 2
  {
    hide Valid, ViewOf, Scan, GetSubBus, CanonicalDir, OneScan;
    PortView(s, p, name, port, id);
    GetSubBusValid(s, p, name, port);
    ScanView(GetSubBus(s, p, name, port), Port(p, name, port), d, id);
  }

  /** A scan that fails does so because of some id. */
  lemma {:induction false} ScanFails(s: Reg, p: BusPath, d: Dir) returns (id: string)
    requires Valid(s) && p in s.buses && CanonicalDir(d) && !Scan(s, p, d).1
    ensures OneScan(p, d, id, ViewOf(s, id)).None?
    decreases d, 1
  {
    hide Valid, ViewOf, Visit, MissedAll, CanonicalEntry, Listed, OneVisit;
    AllAwaited(s, p);
    id := "";
    if d.Dir? {
      var left := Listed(s.objs, s.buses[p].devs);
      var v := Visit(s, p, d.entries, left);
      if v.ok {
        VisitAwaited(s, p, d.entries, left);
        VisitValid(s, p, d.entries, left);
        MissedAllView(v.reg, p, v.left, id);
        assert false;
      } else {
        id := VisitFails(s, p, d.entries, left);
      }
    }
  }

  lemma {:induction false} VisitFails(s: Reg, p: BusPath, es: seq<Entry>, left: seq<string>) returns (id: string)
    requires Valid(s) && p in s.buses && (forall e :: e in es ==> CanonicalEntry(e)) && NoRepeats(left) &&
             !Visit(s, p, es, left).ok
    ensures OneVisit(p, es, id, ViewOf(s, id), id in left).None?
    decreases es, 0
  {
    hide Valid, ViewOf, VisitOne, CanonicalEntry, OneEntry, NoRepeats;
    assert es[0] in es;
    var v := VisitOne(s, p, es[0], left);
    if v.ok {
      VisitOneValid(s, p, es[0], left);
      EntryView(s, p, es[0], left, "");
      id := VisitFails(v.reg, p, es[1..], v.left);
      EntryView(s, p, es[0], left, id);
    } else {
      id := EntryFails(s, p, es[0], left);
    }
  }

  lemma {:induction false} EntryFails(s: Reg, p: BusPath, e: Entry, left: seq<string>) returns (id: string)
    requires Valid(s) && p in s.buses && CanonicalEntry(e) && NoRepeats(left) && !VisitOne(s, p, e, left).ok
    ensures OneEntry(p, e, id, ViewOf(s, id), id in left).None?
    decreases e, 3
  {
    hide Valid, ViewOf, Found, ScanPort, IsId, IsCoupler, Canonical, CanonicalDir, NoRepeats, OneScan, Met;
    var v := Found(s, p, e.name, left);
    FoundValid(s, p, e.name, left);
    FoundView(s, p, e.name, left, e.name);
    id := e.name;
    if v.ok {
      var (a, okA) := ScanPort(v.reg, p, e.name, "main", e.main);
      if !okA {
        id := PortScanFails(v.reg, p, e.name, "main", e.main);
      } else {
        ScanPortValid(v.reg, p, e.name, "main", e.main);
        id := PortScanFails(a, p, e.name, "aux", e.aux);
        PortScanView(v.reg, p, e.name, "main", e.main, id);
      }
      FoundView(s, p, e.name, left, id);
    }
  }

  lemma {:induction false} PortScanFails(s: Reg, p: BusPath, name: string, port: string, d: Dir) returns (id: string)
    requires Valid(s) && p in s.buses && Canonical(name) && CanonicalDir(d) && !ScanPort(s, p, name, port, d).1
    ensures OneScan(Port(p, name, port), d, id, ViewOf(s, id)).None?
    decreases d, 2
  {
    hide Valid, ViewOf, Scan, GetSubBus, CanonicalDir, OneScan;
    GetSubBusValid(s, p, name, port);
    id := ScanFails(GetSubBus(s, p, name, port), Port(p, name, port), d);
    PortView(s, p, name, port, id);
  }

  /** A scan succeeds if and only if the machine does so for every id, from whatever valid registry and over
      whatever the server lists; and then it does to every id what the machine does. */
  lemma ScanIsPerId(s: Reg, p: BusPath, d: Dir)
    requires Valid(s) && p in s.buses && CanonicalDir(d)
    ensures Scan(s, p, d).1 <==> forall id :: OneScan(p, d, id, ViewOf(s, id)).Some?
    ensures Scan(s, p, d).1 ==> forall id :: OneScan(p, d, id, ViewOf(s, id)) == Some(ViewOf(Scan(s, p, d).0, id))
  {
    hide Valid, ViewOf, Scan, OneScan, CanonicalDir;
    if Scan(s, p, d).1 {
      forall id ensures OneScan(p, d, id, ViewOf(s, id)) == Some(ViewOf(Scan(s, p, d).0, id)) {
        ScanView(s, p, d, id);
      }
    } else {
      var id := ScanFails(s, p, d);
    }
  }
}
