/** Listings with ids in lower case: exactly which scans keep the registry valid (Service.get_device looks an id up as
    it is spelled, and stores it in upper case). */
module Spelling {
  import opened Text
  import opened Registry
  import Teardown

  // ---------------------------------------------------------------- the names a scan looks up

  /** In the order in which they are met. */
  function Names(d: Dir): seq<string>
    decreases d, 1
  {
    if d.Unreadable? then [] else EntryNames(d.entries)
  }

  function EntryNames(es: seq<Entry>): seq<string>
    decreases es, 0
  {
    if es == [] then [] else OneNames(es[0]) + EntryNames(es[1..])
  }

  function OneNames(e: Entry): seq<string>
    decreases e, 2
  {
    if !IsId(e.name) then [] else [e.name] + if IsCoupler(e.name) then Names(e.main) + Names(e.aux) else []
  }

  /** The names that a scan does look up: the same, unless it breaks off. */
  function Looked(s: Reg, p: BusPath, d: Dir): seq<string>
    decreases d, 1
  {
    if d.Unreadable? || !HasBus(s, p) then [] else LookedVisit(s, p, d.entries, Listed(s.objs, s.buses[p].devs))
  }

  function LookedVisit(s: Reg, p: BusPath, es: seq<Entry>, left: seq<string>): seq<string>
    decreases es, 0
  {
    if es == [] then []
    else
      var v := VisitOne(s, p, es[0], left);
      LookedOne(s, p, es[0], left) + if v.ok then LookedVisit(v.reg, p, es[1..], v.left) else []
  }

  function LookedOne(s: Reg, p: BusPath, e: Entry, left: seq<string>): seq<string>
    decreases e, 3
  {
    if !IsId(e.name) then []
    else
      var v := Found(s, p, e.name, left);
      [e.name] + if v.ok && IsCoupler(e.name) then LookedPorts(v.reg, p, e) else []
  }

  function LookedPorts(s: Reg, p: BusPath, e: Entry): seq<string>
    decreases e, 2
  {
    var (a, okA) := ScanPort(s, p, e.name, "main", e.main);
    LookedPort(s, p, e.name, "main", e.main) + if okA then LookedPort(a, p, e.name, "aux", e.aux) else []
  }

  function LookedPort(s: Reg, p: BusPath, name: string, port: string, d: Dir): seq<string>
    decreases d, 2
  {
    if p !in s.buses then [] else Looked(GetSubBus(s, p, Upper(name), port), Port(p, Upper(name), port), d)
  }

  lemma PrefixJoined<T>(a: seq<T>, a': seq<T>, b: seq<T>, b': seq<T>)
    requires a <= a' && b <= b' && (a == a' || b == [])
    ensures a + b <= a' + b'
  {
  }

  lemma {:induction false} LookedNames(s: Reg, p: BusPath, d: Dir)
    ensures Looked(s, p, d) <= Names(d) && (Scan(s, p, d).1 ==> Looked(s, p, d) == Names(d))
    decreases d, 1
  {
    hide Visit, MissedAll, LookedVisit, EntryNames;
    if d.Dir? && HasBus(s, p) {
      LookedVisitNames(s, p, d.entries, Listed(s.objs, s.buses[p].devs));
    }
  }

  lemma {:induction false} LookedVisitNames(s: Reg, p: BusPath, es: seq<Entry>, left: seq<string>)
    ensures LookedVisit(s, p, es, left) <= EntryNames(es)
    ensures Visit(s, p, es, left).ok ==> LookedVisit(s, p, es, left) == EntryNames(es)
    decreases es, 0
  {
    hide VisitOne, LookedOne, OneNames;
    if es != [] {
      var v := VisitOne(s, p, es[0], left);
      LookedOneNames(s, p, es[0], left);
      LookedVisitNames(v.reg, p, es[1..], v.left);
      PrefixJoined(LookedOne(s, p, es[0], left), OneNames(es[0]),
                   if v.ok then LookedVisit(v.reg, p, es[1..], v.left) else [], EntryNames(es[1..]));
    }
  }

  lemma {:induction false} LookedOneNames(s: Reg, p: BusPath, e: Entry, left: seq<string>)
    ensures LookedOne(s, p, e, left) <= OneNames(e)
    ensures VisitOne(s, p, e, left).ok ==> LookedOne(s, p, e, left) == OneNames(e)
    decreases e, 3
  {
    hide IsId, IsCoupler, Found, ScanPort, Names, LookedPort;
    if IsId(e.name) && IsCoupler(e.name) {
      var v := Found(s, p, e.name, left);
      var (a, okA) := ScanPort(v.reg, p, e.name, "main", e.main);
      LookedPortNames(v.reg, p, e.name, "main", e.main);
      LookedPortNames(a, p, e.name, "aux", e.aux);
      PrefixJoined(LookedPort(v.reg, p, e.name, "main", e.main), Names(e.main),
                   if okA then LookedPort(a, p, e.name, "aux", e.aux) else [], Names(e.aux));
    }
  }

  lemma {:induction false} LookedPortNames(s: Reg, p: BusPath, name: string, port: string, d: Dir)
    ensures LookedPort(s, p, name, port, d) <= Names(d)
    ensures ScanPort(s, p, name, port, d).1 ==> LookedPort(s, p, name, port, d) == Names(d)
    decreases d, 2
  {
    hide Scan, Looked, Names;
    if p in s.buses {
      LookedNames(GetSubBus(s, p, Upper(name), port), Port(p, Upper(name), port), d);
    }
  }

  /** What is registered once the names have been looked up. */
  function Known(known: set<string>, names: seq<string>): set<string>
    decreases |names|
  {
    if names == [] then known
    else Known(if names[0] in known then known else known + {Upper(names[0])}, names[1..])
  }

  /** Each name is known as it is spelled when it is met, or its upper-case form is not. */
  predicate Consistent(known: set<string>, names: seq<string>)
    decreases |names|
  {
    names == [] ||
    ((names[0] in known || Upper(names[0]) !in known) &&
     Consistent(if names[0] in known then known else known + {Upper(names[0])}, names[1..]))
  }

  lemma {:induction false} Appended(known: set<string>, a: seq<string>, b: seq<string>)
    ensures Known(known, a + b) == Known(Known(known, a), b)
    ensures Consistent(known, a + b) <==> Consistent(known, a) && Consistent(Known(known, a), b)
    decreases |a|
  {
    if a == [] {
      assert a + b == b;
    } else {
      assert (a + b)[0] == a[0] && (a + b)[1..] == a[1..] + b;
      Appended(if a[0] in known then known else known + {Upper(a[0])}, a[1..], b);
    }
  }

  /** Upper-case names always are. */
  lemma {:induction false} CanonicalConsistent(known: set<string>, names: seq<string>)
    requires forall name :: name in names ==> Canonical(name)
    ensures Consistent(known, names)
    decreases |names|
  {
    if names != [] {
      assert Canonical(names[0]);
      CanonicalConsistent(if names[0] in known then known else known + {Upper(names[0])}, names[1..]);
    }
  }

  // ---------------------------------------------------------------- the log only grows

  ghost predicate Broken(s: Reg) {
    Replay(s.log).None?
  }

  lemma {:induction false} StaysBroken(a: seq<Event>, b: seq<Event>)
    requires a <= b && Replay(a).None?
    ensures Replay(b).None?
  {
    assert b[..|a|] == a;
    if Replay(b).Some? {
      Teardown.ReplayPrefix(b, |a|);
    }
  }

  lemma LogFound(s: Reg, p: BusPath, name: string, left: seq<string>)
    ensures s.log <= Found(s, p, name, left).reg.log
  {
    hide Upper, WithEntry, DistinctIds;
  }

  lemma {:induction false} LogMissed(s: Reg, p: BusPath, ids: seq<string>)
    ensures s.log <= MissedAll(s, p, ids).0.log && MissedAll(s, p, ids).0.ids == s.ids
    decreases |ids|
  {
    if ids != [] && Missed(s, p, ids[0]).Some? {
      hide WithoutId, DistinctIds;
      assert s.log <= Missed(s, p, ids[0]).value.log && Missed(s, p, ids[0]).value.ids == s.ids;
      LogMissed(Missed(s, p, ids[0]).value, p, ids[1..]);
    }
  }

  lemma {:induction false} LogScan(s: Reg, p: BusPath, d: Dir)
    ensures s.log <= Scan(s, p, d).0.log
    decreases d, 1
  {
    hide Visit, MissedAll;
    if d.Dir? && HasBus(s, p) {
      var v := Visit(s, p, d.entries, Listed(s.objs, s.buses[p].devs));
      LogVisit(s, p, d.entries, Listed(s.objs, s.buses[p].devs));
      LogMissed(v.reg, p, v.left);
    }
  }

  lemma {:induction false} LogVisit(s: Reg, p: BusPath, es: seq<Entry>, left: seq<string>)
    ensures s.log <= Visit(s, p, es, left).reg.log
    decreases es, 0
  {
    hide VisitOne;
    if es != [] {
      var v := VisitOne(s, p, es[0], left);
      LogOne(s, p, es[0], left);
      LogVisit(v.reg, p, es[1..], v.left);
    }
  }

  lemma {:induction false} LogOne(s: Reg, p: BusPath, e: Entry, left: seq<string>)
    ensures s.log <= VisitOne(s, p, e, left).reg.log
    decreases e, 3
  {
    hide IsId, IsCoupler, Found, ScanPort;
    LogFound(s, p, e.name, left);
    var v := Found(s, p, e.name, left);
    LogPort(v.reg, p, e.name, "main", e.main);
    LogPort(ScanPort(v.reg, p, e.name, "main", e.main).0, p, e.name, "aux", e.aux);
  }

  lemma {:induction false} LogPort(s: Reg, p: BusPath, name: string, port: string, d: Dir)
    ensures s.log <= ScanPort(s, p, name, port, d).0.log
    decreases d, 2
  {
    hide Scan;
    if p in s.buses {
      LogScan(GetSubBus(s, p, Upper(name), port), Port(p, Upper(name), port), d);
    }
  }

  // ---------------------------------------------------------------- one name

  /** A well-spelled name keeps the registry valid; another breaks its journal, for good. */
  lemma FoundSpelled(s: Reg, p: BusPath, name: string, left: seq<string>)
    requires Valid(s) && p in s.buses
    ensures var t := Found(s, p, name, left).reg;
            (WellSpelled(s, name) ==> Valid(t) && p in t.buses) && (!WellSpelled(s, name) ==> Broken(t)) &&
            t.ids.Keys == Known(s.ids.Keys, [name])
  {
    hide Valid, GetDevice, WellSpelled, Upper;
    assert [name][1..] == [];
    FoundIds(s, p, name, left);
    if WellSpelled(s, name) {
      FoundValid(s, p, name, left);
    } else {
      DoubleAdded(s, name);
      FoundLog(s, p, name, left);
      StaysBroken(GetDevice(s, name).0.log, Found(s, p, name, left).reg.log);
    }
  }

  lemma DoubleAdded(s: Reg, name: string)
    requires Valid(s) && !WellSpelled(s, name)
    ensures Replay(GetDevice(s, name).0.log).None?
  {
    hide TreeValid, DictsValid, ListingsValid, LocationsValid, Upper, Replay;
    ReplayLast(s.log, DeviceAdded(Upper(name)));
  }

  lemma FoundLog(s: Reg, p: BusPath, name: string, left: seq<string>)
    ensures GetDevice(s, name).0.log <= Found(s, p, name, left).reg.log
  {
    hide GetDevice, WithEntry, DistinctIds;
  }

  lemma FoundIds(s: Reg, p: BusPath, name: string, left: seq<string>)
    ensures Found(s, p, name, left).reg.ids.Keys == if name in s.ids then s.ids.Keys else s.ids.Keys + {Upper(name)}
  {
    hide WithEntry, DistinctIds, Upper;
  }

  // ---------------------------------------------------------------- the whole scan

  /** What a step of a scan leaves: a valid registry, or a broken journal, according to the names it has looked up. */
  ghost predicate Spelled(s: Reg, t: Reg, names: seq<string>, p: BusPath) {
    if Consistent(s.ids.Keys, names) then Valid(t) && p in t.buses && t.ids.Keys == Known(s.ids.Keys, names)
    else Broken(t)
  }

  lemma NothingMet(s: Reg, p: BusPath)
    requires Valid(s) && p in s.buses
    ensures Spelled(s, s, [], p)
  {
    hide Valid;
  }

  lemma BrokenStays(s: Reg, t: Reg)
    requires Broken(s) && s.log <= t.log
    ensures Broken(t)
  {
    StaysBroken(s.log, t.log);
  }

  lemma BrokenNotValid(s: Reg)
    requires Broken(s)
    ensures !Valid(s)
  {
    hide Replay;
  }

  /** One step after another. */
  lemma SpelledTwice(s: Reg, t: Reg, u: Reg, a: seq<string>, b: seq<string>, p: BusPath)
    requires Spelled(s, t, a, p) && t.log <= u.log
    requires Valid(t) && p in t.buses ==> Spelled(t, u, b, p)
    ensures Spelled(s, u, a + b, p)
  {
    hide Valid, Broken, Consistent, Known;
    Appended(s.ids.Keys, a, b);
    if !Consistent(s.ids.Keys, a) {
      BrokenStays(t, u);
    }
  }

  lemma {:induction false} ScanSpelled(s: Reg, p: BusPath, d: Dir)
    requires Valid(s) && p in s.buses
    ensures Spelled(s, Scan(s, p, d).0, Looked(s, p, d), p)
    decreases d, 1
  {
    hide Valid, MissedAll, Visit, Broken, Consistent, Known, LookedVisit;
    Teardown.ValidHasBus(s, p);
    if d.Dir? {
      var left := Listed(s.objs, s.buses[p].devs);
      var v := Visit(s, p, d.entries, left);
      VisitSpelled(s, p, d.entries, left);
      LogMissed(v.reg, p, v.left);
      if Consistent(s.ids.Keys, LookedVisit(s, p, d.entries, left)) {
        MissedAllValid(v.reg, p, v.left);
      } else if v.ok {
        BrokenStays(v.reg, MissedAll(v.reg, p, v.left).0);
      }
    } else {
      NothingMet(s, p);
    }
  }

  lemma {:induction false} VisitSpelled(s: Reg, p: BusPath, es: seq<Entry>, left: seq<string>)
    requires Valid(s) && p in s.buses
    ensures Spelled(s, Visit(s, p, es, left).reg, LookedVisit(s, p, es, left), p)
    decreases es, 0
  {
    hide Valid, VisitOne, LookedOne, Spelled;
    NothingMet(s, p);
    if es != [] {
      var v := VisitOne(s, p, es[0], left);
      OneSpelled(s, p, es[0], left);
      if v.ok {
        LogVisit(v.reg, p, es[1..], v.left);
        if Valid(v.reg) && p in v.reg.buses {
          VisitSpelled(v.reg, p, es[1..], v.left);
        }
        SpelledTwice(s, v.reg, Visit(v.reg, p, es[1..], v.left).reg,
                     LookedOne(s, p, es[0], left), LookedVisit(v.reg, p, es[1..], v.left), p);
      } else {
        assert LookedOne(s, p, es[0], left) + [] == LookedOne(s, p, es[0], left);
      }
    }
  }

  lemma {:induction false} OneSpelled(s: Reg, p: BusPath, e: Entry, left: seq<string>)
    requires Valid(s) && p in s.buses
    ensures Spelled(s, VisitOne(s, p, e, left).reg, LookedOne(s, p, e, left), p)
    decreases e, 3
  {
    hide Valid, Found, IsId, IsCoupler, ScanPort, LookedPort, Spelled;
    NothingMet(s, p);
    if IsId(e.name) {
      var v := Found(s, p, e.name, left);
      NameSpelled(s, p, e.name, left);
      assert [e.name] + [] == [e.name];
      if v.ok && IsCoupler(e.name) {
        PortsSpelled(s, v.reg, p, e, [e.name]);
      }
    }
  }

  lemma NameSpelled(s: Reg, p: BusPath, name: string, left: seq<string>)
    requires Valid(s) && p in s.buses
    ensures Spelled(s, Found(s, p, name, left).reg, [name], p)
  {
    hide Valid, Found, Broken, Known, Upper;
    FoundSpelled(s, p, name, left);
    assert [name][0] == name && [name][1..] == [];
    assert Consistent(s.ids.Keys, [name]) <==> WellSpelled(s, name);
  }

  lemma {:induction false} PortsSpelled(s: Reg, t: Reg, p: BusPath, e: Entry, met: seq<string>)
    requires Spelled(s, t, met, p)
    ensures var (a, okA) := ScanPort(t, p, e.name, "main", e.main);
            var b := if okA then ScanPort(a, p, e.name, "aux", e.aux).0 else a;
            Spelled(s, b, met + LookedPorts(t, p, e), p)
    decreases e, 2
  {
    hide Valid, ScanPort, LookedPort, Spelled;
    var (a, okA) := ScanPort(t, p, e.name, "main", e.main);
    var (b, okB) := ScanPort(a, p, e.name, "aux", e.aux);
    var main, aux := LookedPort(t, p, e.name, "main", e.main), LookedPort(a, p, e.name, "aux", e.aux);
    LogPort(t, p, e.name, "main", e.main);
    LogPort(a, p, e.name, "aux", e.aux);
    if Valid(t) && p in t.buses {
      PortSpelled(t, p, e.name, "main", e.main);
    }
    SpelledTwice(s, t, a, met, main, p);
    if okA {
      if Valid(a) && p in a.buses {
        PortSpelled(a, p, e.name, "aux", e.aux);
      }
      SpelledTwice(s, a, b, met + main, aux, p);
      assert met + main + aux == met + (main + aux);
    } else {
      assert main + [] == main;
    }
  }

  lemma {:induction false} PortSpelled(s: Reg, p: BusPath, name: string, port: string, d: Dir)
    requires Valid(s) && p in s.buses
    ensures Spelled(s, ScanPort(s, p, name, port, d).0, LookedPort(s, p, name, port, d), p)
    decreases d, 2
  {
    hide Valid, Scan, Known, Consistent, Broken, Looked;
    var s1 := GetSubBus(s, p, Upper(name), port);
    var c := Port(p, Upper(name), port);
    GetSubBusValid(s, p, Upper(name), port);
    ScanSpelled(s1, c, d);
    ScanGrows(s1, c, d);
    assert s1.ids == s.ids && p in s1.buses;
  }

  lemma {:induction false} ScanGrows(s: Reg, p: BusPath, d: Dir)
    ensures s.buses.Keys <= Scan(s, p, d).0.buses.Keys
    decreases d, 1
  {
    hide Visit, MissedAll;
    if d.Dir? && HasBus(s, p) {
      var v := Visit(s, p, d.entries, Listed(s.objs, s.buses[p].devs));
      VisitGrows(s, p, d.entries, Listed(s.objs, s.buses[p].devs));
      MissedGrows(v.reg, p, v.left);
    }
  }

  lemma {:induction false} MissedGrows(s: Reg, p: BusPath, ids: seq<string>)
    ensures s.buses.Keys <= MissedAll(s, p, ids).0.buses.Keys
    decreases |ids|
  {
    if ids != [] && Missed(s, p, ids[0]).Some? {
      hide WithoutId, DistinctIds;
      assert s.buses.Keys <= Missed(s, p, ids[0]).value.buses.Keys;
      MissedGrows(Missed(s, p, ids[0]).value, p, ids[1..]);
    }
  }

  lemma {:induction false} VisitGrows(s: Reg, p: BusPath, es: seq<Entry>, left: seq<string>)
    ensures s.buses.Keys <= Visit(s, p, es, left).reg.buses.Keys
    decreases es, 0
  {
    hide IsId, IsCoupler, Found, Scan, GetSubBus;
    if es != [] {
      var e := es[0];
      var v := Found(s, p, e.name, left);
      FoundGrows(s, p, e.name, left);
      PortGrows(v.reg, p, e.name, "main", e.main);
      var a := ScanPort(v.reg, p, e.name, "main", e.main).0;
      PortGrows(a, p, e.name, "aux", e.aux);
      VisitGrows(VisitOne(s, p, e, left).reg, p, es[1..], VisitOne(s, p, e, left).left);
    }
  }

  lemma FoundGrows(s: Reg, p: BusPath, name: string, left: seq<string>)
    ensures s.buses.Keys <= Found(s, p, name, left).reg.buses.Keys
  {
    hide WithEntry, DistinctIds, Upper;
  }

  lemma {:induction false} PortGrows(s: Reg, p: BusPath, name: string, port: string, d: Dir)
    ensures s.buses.Keys <= ScanPort(s, p, name, port, d).0.buses.Keys
    decreases d, 2
  {
    hide Scan;
    if p in s.buses {
      ScanGrows(GetSubBus(s, p, Upper(name), port), Port(p, Upper(name), port), d);
    }
  }

  /** A scan leaves a valid registry if and only if every name it has looked up was, at that time, registered as it is
      spelled or not at all. A scan that is over has looked up all names of its listing, and one that breaks off some
      of the first. */
  lemma ScanValidExactlyWhen(s: Reg, p: BusPath, d: Dir)
    requires Valid(s) && p in s.buses
    ensures var (t, ok) := Scan(s, p, d);
            (Valid(t) <==> Consistent(s.ids.Keys, Looked(s, p, d))) &&
            Looked(s, p, d) <= Names(d) && (ok ==> Looked(s, p, d) == Names(d))
  {
    hide Valid, Scan, Names, Looked, Consistent, Broken;
    ScanSpelled(s, p, d);
    LookedNames(s, p, d);
    if !Consistent(s.ids.Keys, Looked(s, p, d)) {
      BrokenNotValid(Scan(s, p, d).0);
    }
  }

  // ---------------------------------------------------------------- the whole server

  function ServerNames(es: seq<(string, Dir)>): seq<string> {
    if es == [] then [] else (if "bus." <= es[0].0 then Names(es[0].1) else []) + ServerNames(es[1..])
  }

  function LookedBase(s: Reg, es: seq<(string, Dir)>): seq<string>
    decreases |es|
  {
    if es == [] then []
    else if !("bus." <= es[0].0) then LookedBase(s, es[1..])
    else
      var s1 := GetTopBus(s, es[0].0);
      var (t, ok) := Scan(s1, [es[0].0], es[0].1);
      Looked(s1, [es[0].0], es[0].1) + if ok then LookedBase(t, es[1..]) else []
  }

  lemma {:induction false} LogBase(s: Reg, es: seq<(string, Dir)>)
    ensures s.log <= ScanBase(s, es).0.log
    decreases |es|
  {
    hide Scan;
    if es != [] {
      if "bus." <= es[0].0 {
        var s1 := GetTopBus(s, es[0].0);
        LogScan(s1, [es[0].0], es[0].1);
        LogBase(Scan(s1, [es[0].0], es[0].1).0, es[1..]);
      } else {
        LogBase(s, es[1..]);
      }
    }
  }

  lemma {:induction false} LookedBaseNames(s: Reg, es: seq<(string, Dir)>)
    ensures LookedBase(s, es) <= ServerNames(es) && (ScanBase(s, es).1 ==> LookedBase(s, es) == ServerNames(es))
    decreases |es|
  {
    hide Scan, Names, Looked;
    if es == [] {
    } else if !("bus." <= es[0].0) {
      assert [] + ServerNames(es[1..]) == ServerNames(es[1..]);
      LookedBaseNames(s, es[1..]);
    } else {
      var p, d := [es[0].0], es[0].1;
      var s1 := GetTopBus(s, es[0].0);
      var (t, ok) := Scan(s1, p, d);
      LookedNames(s1, p, d);
      LookedBaseNames(t, es[1..]);
      PrefixJoined(Looked(s1, p, d), Names(d), if ok then LookedBase(t, es[1..]) else [], ServerNames(es[1..]));
    }
  }

  /** The same for a scan of the whole server. */
  lemma {:induction false} ScanBaseValidExactlyWhen(s: Reg, es: seq<(string, Dir)>)
    requires Valid(s)
    ensures var (t, ok) := ScanBase(s, es);
            (Valid(t) <==> Consistent(s.ids.Keys, LookedBase(s, es))) &&
            LookedBase(s, es) <= ServerNames(es) && (ok ==> LookedBase(s, es) == ServerNames(es))
    decreases |es|
  {
    hide Valid, Scan, Names, Looked, Known, Consistent, Broken;
    LookedBaseNames(s, es);
    if es == [] {
      CanonicalConsistent(s.ids.Keys, []);
    } else if !("bus." <= es[0].0) {
      ScanBaseValidExactlyWhen(s, es[1..]);
    } else {
      var p, d := [es[0].0], es[0].1;
      var s1 := GetTopBus(s, es[0].0);
      GetTopBusValid(s, es[0].0);
      var (t, ok) := Scan(s1, p, d);
      ScanSpelled(s1, p, d);
      var first, more := Looked(s1, p, d), if ok then LookedBase(t, es[1..]) else [];
      Appended(s.ids.Keys, first, more);
      CanonicalConsistent(Known(s.ids.Keys, first), []);
      if Consistent(s.ids.Keys, first) {
        if ok {
          ScanBaseValidExactlyWhen(t, es[1..]);
        }
      } else {
        LogBase(t, es[1..]);
        BrokenStays(t, ScanBase(s, es).0);
        BrokenNotValid(ScanBase(s, es).0);
      }
    }
  }

  // ---------------------------------------------------------------- an example

  /** Registering a device and then asking for it in lower case. */
  lemma LowerCaseBreaks(structs: Structs) returns (s: Reg)
    ensures s == GetDevice(Teardown.Empty(structs), "1F.A.0").0 && Valid(s) && "1F.A.0" in s.ids
    ensures GetDevice(s, "1f.a.0").1 != s.ids["1F.A.0"] && !Journalled(GetDevice(s, "1f.a.0").0)
  {
    hide Replay;
    Teardown.EmptyValid(structs);
    s := GetDevice(Teardown.Empty(structs), "1F.A.0").0;
    assert "1F.A.0"[1] != "1f.a.0"[1];
    assert Upper("1F.A.0") == "1F.A.0" && Upper("1f.a.0") == "1F.A.0";
    GetDeviceValid(Teardown.Empty(structs), "1F.A.0");
    GetDeviceJournalledIff(s, "1f.a.0");
  }
}
