/** Entries that devices leave behind when they move: they are never removed, and they can make a scan lose a device
    that it lists, or accept a listing that it would otherwise refuse. Both happen in runs from the beginning. */
module LeftBehind {
  import opened Text
  import opened Registry
  import opened ScanTree
  import opened OneId
  import opened Relocation
  import opened Repeats
  import T = Teardown

  // ---------------------------------------------------------------- entries stay

  /** The bus has the device in its dictionary, and the device is elsewhere. */
  ghost predicate Left(s: Reg, x: BusPath, r: nat) {
    r < |s.objs| && x in s.buses && r in s.buses[x].devs && s.objs[r].bus != Some(x)
  }

  lemma LeftByFound(s: Reg, p: BusPath, name: string, left: seq<string>, x: BusPath, r: nat)
    requires Valid(s) && p in s.buses && Canonical(name) && Left(s, x, r) && (p != x || name != s.objs[r].id)
    ensures var t := Found(s, p, name, left).reg; Left(t, x, r) && t.objs[r].id == s.objs[r].id
  {
    hide Valid, Ready, Canonical, AddDevice, DistinctIds, Loads, Family, Advanced;
    var (t, n, ok) := Ready(s, name);
    ReadyFrame(s, name);
    ReadyNew(s, name);
    T.ValidHasBus(t, p);
    if t.objs[n].bus != Some(p) {
      Entered(t, p, n);
    }
  }

  lemma LeftByMissed(s: Reg, p: BusPath, name: string, x: BusPath, r: nat)
    requires Valid(s) && p in s.buses && Left(s, x, r) && Missed(s, p, name).Some?
    ensures var t := Missed(s, p, name).value; Left(t, x, r) && t.objs[r].id == s.objs[r].id
  {
    hide Valid, FindEntry, Delocate;
    T.ValidHasBus(s, p);
    LeftByDelocate(s, p, FindEntry(s.objs, s.buses[p].devs, name).value, x, r);
  }

  lemma LeftByDelocate(s: Reg, p: BusPath, n: nat, x: BusPath, r: nat)
    requires Valid(s) && HasBus(s, p) && n < |s.objs| && Left(s, x, r)
    ensures var t := Delocate(s, p, n); Left(t, x, r) && t.objs[r].id == s.objs[r].id
  {
    hide TreeValid, DictsValid, Replay, SnapshotOf, WithoutId;
  }

  lemma {:induction false} LeftByMissedAll(s: Reg, p: BusPath, ids: seq<string>, x: BusPath, r: nat)
    requires Valid(s) && p in s.buses && Left(s, x, r)
    ensures var t := MissedAll(s, p, ids).0; Left(t, x, r) && t.objs[r].id == s.objs[r].id
    decreases |ids|
  {
    hide Valid, Missed, Left;
    LeftKnown(s, x, r);
    if ids != [] && Missed(s, p, ids[0]).Some? {
      var t := Missed(s, p, ids[0]).value;
      LeftByMissed(s, p, ids[0], x, r);
      MissedValid(s, p, ids[0]);
      LeftByMissedAll(t, p, ids[1..], x, r);
    }
  }

  lemma LeftKnown(s: Reg, x: BusPath, r: nat)
    requires Left(s, x, r)
    ensures r < |s.objs|
  {
  }

  lemma {:induction false} LeftByScan(s: Reg, p: BusPath, d: Dir, x: BusPath, r: nat)
    requires Valid(s) && p in s.buses && CanonicalDir(d) && Left(s, x, r) && (x, s.objs[r].id) !in TreePairs(p, d)
    ensures var t := Scan(s, p, d).0; Left(t, x, r) && t.objs[r].id == s.objs[r].id
    decreases d, 1
  {
    hide Valid, Visit, MissedAll, CanonicalEntry, EntryPairs, Left;
    LeftKnown(s, x, r);
    if d.Dir? && HasBus(s, p) {
      var left := Listed(s.objs, s.buses[p].devs);
      var v := Visit(s, p, d.entries, left);
      LeftByVisit(s, p, d.entries, left, x, r);
      VisitValid(s, p, d.entries, left);
      LeftByMissedAll(v.reg, p, v.left, x, r);
    }
  }

  lemma {:induction false} LeftByVisit(s: Reg, p: BusPath, es: seq<Entry>, left: seq<string>, x: BusPath, r: nat)
    requires Valid(s) && p in s.buses && (forall e :: e in es ==> CanonicalEntry(e)) && Left(s, x, r)
    requires (x, s.objs[r].id) !in EntryPairs(p, es)
    ensures var t := Visit(s, p, es, left).reg; Left(t, x, r) && t.objs[r].id == s.objs[r].id
    decreases es, 0
  {
    hide Valid, VisitOne, CanonicalEntry, Relocation.OnePairs, Left, IsId, IsCoupler, TreePairs;
    LeftKnown(s, x, r);
    if es != [] {
      assert es[0] in es;
      PairsOfFirst(p, es);
      LeftByEntry(s, p, es[0], left, x, r);
      VisitOneValid(s, p, es[0], left);
      var v := VisitOne(s, p, es[0], left);
      if v.ok {
        LeftByVisit(v.reg, p, es[1..], v.left, x, r);
      }
    }
  }

  lemma {:induction false} LeftByEntry(s: Reg, p: BusPath, e: Entry, left: seq<string>, x: BusPath, r: nat)
    requires Valid(s) && p in s.buses && CanonicalEntry(e) && Left(s, x, r) &&
             (x, s.objs[r].id) !in Relocation.OnePairs(p, e)
    ensures var t := VisitOne(s, p, e, left).reg; Left(t, x, r) && t.objs[r].id == s.objs[r].id
    decreases e, 3
  {
    hide Valid, Found, ScanPort, IsId, IsCoupler, Canonical, CanonicalDir, Left, TreePairs;
    LeftKnown(s, x, r);
    if IsId(e.name) {
      LeftByFound(s, p, e.name, left, x, r);
      FoundValid(s, p, e.name, left);
      var v := Found(s, p, e.name, left);
      if v.ok && IsCoupler(e.name) {
        var a := ScanPort(v.reg, p, e.name, "main", e.main).0;
        LeftByPort(v.reg, p, e.name, "main", e.main, x, r);
        ScanPortValid(v.reg, p, e.name, "main", e.main);
        LeftByPort(a, p, e.name, "aux", e.aux, x, r);
      }
    }
  }

  lemma {:induction false} LeftByPort(s: Reg, p: BusPath, name: string, port: string, d: Dir, x: BusPath, r: nat)
    requires Valid(s) && p in s.buses && Canonical(name) && CanonicalDir(d) && Left(s, x, r)
    requires (x, s.objs[r].id) !in TreePairs(Port(p, name, port), d)
    ensures var t := ScanPort(s, p, name, port, d).0; Left(t, x, r) && t.objs[r].id == s.objs[r].id
    decreases d, 2
  {
    hide Valid, Scan, GetSubBus, CanonicalDir, TreePairs;
    GetSubBusValid(s, p, name, port);
    SubBusDevs(s, p, name, port);
    PortKeepsDevs(s, p, name, port);
    LeftByScan(GetSubBus(s, p, name, port), Port(p, name, port), d, x, r);
  }

  // ---------------------------------------------------------------- and through histories

  /** The operation lists the id at the bus, or adds a device of the id there. */
  ghost predicate Brings(s: Reg, op: T.Op, x: BusPath, id: string) {
    match op
    case Add(p, n) => p == x && n < |s.objs| && s.objs[n].id == id
    case Alarm(p, name) => p == x && name == id
    case ScanAll(names) => exists e :: e in names && (x, id) in TreePairs([e.0], e.1)
    case ScanBus(p, d) => (x, id) in TreePairs(p, d)
    case _ => false
  }

  lemma {:induction false} LeftByScanBase(s: Reg, names: seq<(string, Dir)>, x: BusPath, r: nat)
    requires Valid(s) && (forall e :: e in names ==> CanonicalDir(e.1)) && Left(s, x, r)
    requires forall e :: e in names ==> (x, s.objs[r].id) !in TreePairs([e.0], e.1)
    ensures var t := ScanBase(s, names).0; Left(t, x, r) && t.objs[r].id == s.objs[r].id
    decreases |names|
  {
    hide Valid, Scan, GetTopBus, Left, CanonicalDir, TreePairs;
    LeftKnown(s, x, r);
    if names != [] {
      assert names[0] in names;
      if "bus." <= names[0].0 {
        var t := GetTopBus(s, names[0].0);
        LeftByTop(s, names[0].0, x, r);
        GetTopBusValid(s, names[0].0);
        LeftByScan(t, [names[0].0], names[0].1, x, r);
        ScanValid(t, [names[0].0], names[0].1);
        LeftByScanBase(Scan(t, [names[0].0], names[0].1).0, names[1..], x, r);
      } else {
        LeftByScanBase(s, names[1..], x, r);
      }
    }
  }

  lemma LeftByTop(s: Reg, name: string, x: BusPath, r: nat)
    requires Valid(s) && Left(s, x, r)
    ensures var t := GetTopBus(s, name); Left(t, x, r) && t.objs == s.objs
  {
    hide Valid, Parent;
    ValidParts(s);
    if [name] !in s.tops {
      NotListedNotLive(s, [name]);
    }
  }

  lemma LeftByAlarm(s: Reg, p: BusPath, name: string, x: BusPath, r: nat)
    requires Valid(s) && p in s.buses && Canonical(name) && Left(s, x, r) && (p != x || name != s.objs[r].id)
    ensures var t := T.Apply(s, T.Alarm(p, name)); Left(t, x, r) && t.objs[r].id == s.objs[r].id
  {
    hide Valid, GetDevice, Canonical, DistinctIds, IsId;
    var (t, n) := GetDevice(s, name);
    GetDeviceFrame(s, name);
    GetDeviceNew(s, name);
    T.ValidHasBus(t, p);
  }

  lemma LeftByAdd(s: Reg, p: BusPath, n: nat, x: BusPath, r: nat)
    requires Valid(s) && p in s.buses && n < |s.objs| && Left(s, x, r) && (p != x || s.objs[n].id != s.objs[r].id)
    ensures HasBus(s, p) && var t := AddDevice(s, p, n); Left(t, x, r) && t.objs[r].id == s.objs[r].id
  {
    hide Valid, DistinctIds;
    T.ValidHasBus(s, p);
  }

  lemma LeftByOp(s: Reg, op: T.Op, x: BusPath, r: nat)
    requires Valid(s) && T.Allowed(s, op) && Left(s, x, r) && !Brings(s, op, x, s.objs[r].id)
    ensures Left(T.Apply(s, op), x, r) && T.Apply(s, op).objs[r].id == s.objs[r].id
  {
    hide Valid, GetTopBus, GetSubBus, Scan, ScanBase, Delocate, CanonicalDir, TreePairs, Canonical, IsId;
    match op
    case Register(id) => GetDeviceNew(s, id);
    case Alarm(p, id) => LeftByAlarm(s, p, id, x, r);
    case OpenTop(name) => LeftByTop(s, name, x, r);
    case OpenPort(p, id, port) =>
      SubBusDevs(s, p, id, port);
      PortKeepsDevs(s, p, id, port);
    case ScanAll(names) => LeftByScanBase(s, names, x, r);
    case ScanBus(p, d) => LeftByScan(s, p, d, x, r);
    case Lose(p, n) =>
      T.ValidHasBus(s, p);
      LeftByDelocate(s, p, n, x, r);
    case Add(p, n) => LeftByAdd(s, p, n, x, r);
    case Delete(n) =>
    case Setup(c) =>
  }

  /** An entry that a device has left behind stays, through every history, until the bus lists the id again. */
  lemma {:induction false} EntryStays(states: seq<Reg>, ops: seq<T.Op>, j: nat, k: nat, x: BusPath, r: nat)
    requires T.IsHistory(states, ops) && j <= k <= |ops| && Left(states[j], x, r)
    requires forall i :: j <= i < k ==> !Brings(states[i], ops[i], x, states[j].objs[r].id)
    ensures Left(states[k], x, r) && states[k].objs[r].id == states[j].objs[r].id
    decreases k
  {
    hide T.Apply, T.Allowed, Left, Brings;
    LeftKnown(states[j], x, r);
    if j < k {
      EntryStays(states, ops, j, k - 1, x, r);
      T.JournalFaithful(states, ops, k - 1);
      assert T.Allowed(states[k - 1], ops[k - 1]);
      LeftByOp(states[k - 1], ops[k - 1], x, r);
    }
  }

  // ---------------------------------------------------------------- a run that loses a listed device

  const BUS: BusPath := ["bus.0"]

  predicate Example(x: string, c: string, d: string) {
    IsId(x) && IsId(c) && IsId(d) && Canonical(x) && Canonical(c) && Canonical(d) && x != c && x != d && c != d &&
    !IsCoupler(x) && IsCoupler(c) && IsCoupler(d)
  }

  lemma IsIdOf(a: string, b: string, c: string)
    requires IsHex(a) && IsHex(b) && IsHex(c)
    ensures IsId(a + ['.'] + (b + ['.'] + c)) && Family(a + ['.'] + (b + ['.'] + c)) == HexValue(a)
  {
    SplitFirst(a, '.', b + ['.'] + c);
    SplitFirst(b, '.', c);
    SplitNone(c, '.');
  }

  lemma HexDigits()
    ensures IsHex("10") && IsHex("1F") && IsHex("0") && IsHex("1")
    ensures HexValue("10") == 16 && HexValue("1F") == COUPLER_FAMILY
  {
    assert "10"[..1] == "1" && "1F"[..1] == "1" && HexValue("1") == 1;
  }

  lemma PlainCanonical(name: string)
    requires forall i :: 0 <= i < |name| ==> !('a' <= name[i] <= 'z')
    ensures Canonical(name)
  {
  }

  lemma ExampleExists()
    ensures Example("10.0.0", "1F.0.0", "1F.1.0")
    ensures Family("10.0.0") == 0x10 && Family("1F.0.0") == Family("1F.1.0") == COUPLER_FAMILY
  {
    hide IsId, Canonical, HexValue, IsHex, Family;
    HexDigits();
    IsIdOf("10", "0", "0");
    IsIdOf("1F", "0", "0");
    IsIdOf("1F", "1", "0");
    assert "10" + ['.'] + ("0" + ['.'] + "0") == "10.0.0";
    assert "1F" + ['.'] + ("0" + ['.'] + "0") == "1F.0.0";
    assert "1F" + ['.'] + ("1" + ['.'] + "0") == "1F.1.0";
    PlainCanonical("10.0.0");
    PlainCanonical("1F.0.0");
    PlainCanonical("1F.1.0");
    assert "1F.0.0"[3] != "1F.1.0"[3] && "10.0.0"[1] != "1F.0.0"[1] && "10.0.0"[1] != "1F.1.0"[1];
  }

  function JustIf(x: string, here: bool): seq<Entry> {
    if here then [Entry(x, Unreadable, Unreadable)] else []
  }

  /** Two couplers, and one device at the bus itself or behind one of three ports. */
  function Tree(x: string, c: string, d: string, at: BusPath): Dir {
    Dir(JustIf(x, at == BUS) +
        [Entry(c, Dir(JustIf(x, at == Port(BUS, c, "main"))), Dir(JustIf(x, at == Port(BUS, c, "aux")))),
         Entry(d, Dir(JustIf(x, at == Port(BUS, d, "main"))), Dir([]))])
  }

  lemma PortsDiffer(c: string, d: string)
    requires c != d
    ensures Port(BUS, c, "main") != Port(BUS, c, "aux") && Port(BUS, d, "main") != Port(BUS, d, "aux")
    ensures forall a, b :: Port(BUS, c, a) != Port(BUS, d, b) && Port(BUS, c, a) != BUS && Port(BUS, d, b) != BUS
  {
    assert Port(BUS, c, "main")[2] == "main" && Port(BUS, c, "aux")[2] == "aux";
    assert Port(BUS, d, "main")[2] == "main" && Port(BUS, d, "aux")[2] == "aux";
    forall a, b ensures Port(BUS, c, a) != Port(BUS, d, b) {
      assert Port(BUS, c, a)[1] == c && Port(BUS, d, b)[1] == d;
    }
  }

  lemma JustIfGood(x: string, here: bool)
    requires IsId(x) && Canonical(x) && !IsCoupler(x)
    ensures GoodDir(Dir(JustIf(x, here))) && DirIds(Dir(JustIf(x, here))) == if here then {x} else {}
  {
    hide IsId, IsCoupler, Canonical;
    var es := JustIf(x, here);
    if here {
      var none: seq<Entry> := [];
      assert OneIds(es[0]) == {x} && GoodEntry(es[0]) && EntryIds(none) == {};
      GoodAppend(es[0], none);
      assert [es[0]] + none == es;
    }
    GoodTree(Dir(es));
  }

  lemma {:induction false} GoodAppend(a: Entry, es: seq<Entry>)
    requires GoodEntry(a) && GoodEntries(es) && OneIds(a) !! EntryIds(es)
    ensures GoodEntries([a] + es) && EntryIds([a] + es) == OneIds(a) + EntryIds(es)
  {
    assert ([a] + es)[0] == a && ([a] + es)[1..] == es;
  }

  lemma TreeGood(x: string, c: string, d: string, at: BusPath)
    requires Example(x, c, d)
    ensures GoodDir(Tree(x, c, d, at)) && DirIds(Tree(x, c, d, at)) <= {x, c, d}
    ensures (at == BUS ==> (BUS, x) in TreePairs(BUS, Tree(x, c, d, at)))
  {
    hide IsId, IsCoupler, Canonical, DirIds, GoodDir, Port;
    PortsDiffer(c, d);
    var none: seq<Entry> := [];
    JustIfGood(x, at == Port(BUS, c, "main"));
    JustIfGood(x, at == Port(BUS, c, "aux"));
    JustIfGood(x, at == Port(BUS, d, "main"));
    JustIfGood(x, false);
    var es := Tree(x, c, d, at).entries;
    var n := if at == BUS then 1 else 0;
    var ec, ed := es[n], es[n + 1];
    assert GoodEntry(ec) && GoodEntry(ed) && OneIds(ec) !! OneIds(ed);
    GoodAppend(ed, none);
    assert [ed] + none == [ed];
    GoodAppend(ec, [ed]);
    assert [ec] + [ed] == es[n..];
    if at == BUS {
      var ex := es[0];
      assert OneIds(ex) == {x} && x !in EntryIds([ec] + [ed]);
      GoodAppend(ex, [ec] + [ed]);
      assert [ex] + ([ec] + [ed]) == es;
      PairsOfFirst(BUS, es);
    }
    GoodTree(Tree(x, c, d, at));
  }

  lemma GoodTree(t: Dir)
    requires t.Dir? && GoodEntries(t.entries)
    ensures GoodDir(t) && DirIds(t) == EntryIds(t.entries)
  {
  }

  /** One port: the device is met there for the first time, or missed. */
  function AtPort(q: BusPath, v: View, here: bool): (w: View)
    ensures w.loads == v.loads
  {
    if here then View(Some(q), 0, v.lists + {q}, v.holds + {q}, v.loads) else if q in v.lists then Miss(q, v) else v
  }

  lemma PortView(q: BusPath, x: string, v: View, here: bool)
    requires IsId(x) && !IsCoupler(x) && (here ==> q !in v.lists && v.at != Some(q) && v.loads)
    ensures OneScan(q, Dir(JustIf(x, here)), x, v) == Some(AtPort(q, v, here))
  {
    hide IsId, IsCoupler;
    var es := JustIf(x, here);
    if here {
      var w := View(Some(q), 0, v.lists + {q}, v.holds + {q}, v.loads);
      assert es[1..] == [];
      LeafEntry(q, x, v, false);
      VisitStep(q, es, x, v, false);
      VisitNone(q, x, w, false);
      assert OneVisit(q, es, x, v, false) == Some((w, false));
    } else {
      VisitNone(q, x, v, q in v.lists);
    }
  }

  /** What one of these listings does to the device. */
  function Moved(x: string, c: string, d: string, at: BusPath, v: View): View {
    var here := if at == BUS then View(Some(BUS), 0, v.lists + {BUS}, v.holds + {BUS}, v.loads) else v;
    var a := AtPort(Port(BUS, c, "main"), here, at == Port(BUS, c, "main"));
    var b := AtPort(Port(BUS, c, "aux"), a, at == Port(BUS, c, "aux"));
    var e := AtPort(Port(BUS, d, "main"), b, at == Port(BUS, d, "main"));
    var f := AtPort(Port(BUS, d, "aux"), e, false);
    if BUS in v.lists then Miss(BUS, f) else f
  }

  lemma CouplerView(x: string, name: string, waiting: bool, v: View, main: bool, aux: bool)
    requires IsId(x) && !IsCoupler(x) && IsId(name) && IsCoupler(name) && name != x && v.loads
    requires main ==> Port(BUS, name, "main") !in v.lists && v.at != Some(Port(BUS, name, "main"))
    requires var w := AtPort(Port(BUS, name, "main"), v, main);
             aux ==> Port(BUS, name, "aux") !in w.lists && w.at != Some(Port(BUS, name, "aux"))
    ensures OneEntry(BUS, Entry(name, Dir(JustIf(x, main)), Dir(JustIf(x, aux))), x, v, waiting) ==
            Some((AtPort(Port(BUS, name, "aux"), AtPort(Port(BUS, name, "main"), v, main), aux), waiting))
  {
    hide IsId, IsCoupler, OneScan, AtPort;
    PortView(Port(BUS, name, "main"), x, v, main);
    PortView(Port(BUS, name, "aux"), x, AtPort(Port(BUS, name, "main"), v, main), aux);
  }

  /** A listing that brings the device to a bus where it is not. */
  lemma TreeView(x: string, c: string, d: string, at: BusPath, v: View)
    requires Example(x, c, d) && at in {BUS, Port(BUS, c, "main"), Port(BUS, c, "aux"), Port(BUS, d, "main")}
    requires v.at != Some(at) && (at != BUS ==> at !in v.lists) && v.loads
    ensures OneScan(BUS, Tree(x, c, d, at), x, v) == Some(Moved(x, c, d, at, v))
  {
    hide IsId, IsCoupler, Canonical, Port, OneEntry, OneVisit;
    PortsDiffer(c, d);
    var es := Tree(x, c, d, at).entries;
    var n := if at == BUS then 1 else 0;
    var here := if at == BUS then View(Some(BUS), 0, v.lists + {BUS}, v.holds + {BUS}, v.loads) else v;
    var waiting := BUS in v.lists;
    var a := AtPort(Port(BUS, c, "main"), here, at == Port(BUS, c, "main"));
    var b := AtPort(Port(BUS, c, "aux"), a, at == Port(BUS, c, "aux"));
    var f := AtPort(Port(BUS, d, "aux"), AtPort(Port(BUS, d, "main"), b, at == Port(BUS, d, "main")), false);
    CouplerView(x, c, waiting, here, at == Port(BUS, c, "main"), at == Port(BUS, c, "aux"));
    CouplerView(x, d, waiting, b, at == Port(BUS, d, "main"), false);
    assert JustIf(x, false) == [];
    assert es[n..][0] == es[n] && es[n..][1..] == es[n + 1..] && es[n + 1..][0] == es[n + 1] && es[n + 1..][1..] == [];
    VisitStep(BUS, es[n..], x, here, waiting);
    VisitStep(BUS, es[n + 1..], x, b, waiting);
    VisitNone(BUS, x, f, waiting);
    if at == BUS {
      LeafEntry(BUS, x, v, waiting);
      VisitStep(BUS, es, x, v, waiting);
      assert es[1..] == es[n..];
    } else {
      assert es[n..] == es;
    }
    ScanEnds(Tree(x, c, d, at), x, v, f);
  }

  lemma LeafEntry(q: BusPath, x: string, v: View, waiting: bool)
    requires IsId(x) && !IsCoupler(x) && v.at != Some(q) && v.loads
    ensures OneEntry(q, Entry(x, Unreadable, Unreadable), x, v, waiting) ==
            Some((View(Some(q), 0, v.lists + {q}, v.holds + {q}, v.loads), waiting))
  {
    hide IsId, IsCoupler;
  }

  lemma ScanEnds(t: Dir, x: string, v: View, f: View)
    requires t.Dir? && OneVisit(BUS, t.entries, x, v, BUS in v.lists) == Some((f, BUS in v.lists))
    ensures OneScan(BUS, t, x, v) == Some(if BUS in v.lists then Miss(BUS, f) else f)
  {
    hide OneVisit;
  }

  /** The device's journey: to the bus, behind one port after another, and back. */
  lemma Journey(x: string, c: string, d: string)
    requires c != d
    ensures var cm, ca, dm := Port(BUS, c, "main"), Port(BUS, c, "aux"), Port(BUS, d, "main");
            var v1, v2, v3, v4 := View(Some(BUS), 0, {BUS}, {BUS}, true), View(Some(cm), 1, {BUS, cm}, {BUS, cm}, true),
                                  View(Some(ca), 1, {BUS, cm, ca}, {BUS, cm, ca}, true),
                                  View(Some(dm), 1, {BUS, cm, ca, dm}, {BUS, cm, ca, dm}, true);
            Moved(x, c, d, BUS, View(None, 0, {}, {}, true)) == v1 && Moved(x, c, d, cm, v1) == v2 &&
            Moved(x, c, d, ca, v2) == v3 &&
            Moved(x, c, d, dm, v3) == v4 && Moved(x, c, d, BUS, v4) == View(None, 3, {cm, ca, dm}, {cm, ca, dm}, true)
  {
    hide Port;
    PortsDiffer(c, d);
  }

  /** The structures of the families 10 and 1F can be loaded. */
  predicate Able(c: Structs) {
    Loads(c, 0x10) && Loads(c, COUPLER_FAMILY)
  }

  ghost predicate Families(ids: set<string>) {
    forall id :: id in ids ==> Family(id) in {0x10, COUPLER_FAMILY}
  }

  /** A history of the registry that ends in a state with a given view of one id. */
  ghost predicate Reaches(states: seq<Reg>, ops: seq<T.Op>, x: string, v: View) {
    T.IsHistory(states, ops) && BUS in states[|ops|].buses && ViewOf(states[|ops|], x) == v &&
    Able(states[|ops|].structs)
  }

  lemma Opened(c: Structs, x: string) returns (states: seq<Reg>, ops: seq<T.Op>)
    requires Able(c) && Family(x) == 0x10
    ensures Reaches(states, ops, x, View(None, 0, {}, {}, true)) && ops == [T.OpenTop("bus.0")]
    ensures states[0].structs == states[1].structs == c
  {
    ops := [T.OpenTop("bus.0")];
    states := [T.Empty(c), GetTopBus(T.Empty(c), "bus.0")];
    assert T.Apply(T.Empty(c), ops[0]) == states[1];
    var s := states[1];
    assert s.buses == map[BUS := BusRec([], [])];
    assert (set y | y in s.buses && ListsId(s, y, x)) == {};
  }

  lemma AbleLoads(c: Structs)
    requires Able(c)
    ensures Loads(c, 0x10) && Loads(c, COUPLER_FAMILY)
  {
  }

  lemma AbleStays(c: Structs, d: Structs)
    requires Able(c) && Advanced(c, d)
    ensures Able(d)
  {
  }

  lemma Extended(states: seq<Reg>, ops: seq<T.Op>, x: string, v: View, t: Dir)
    returns (states': seq<Reg>, ops': seq<T.Op>)
    requires Reaches(states, ops, x, v) && GoodDir(t) && Families(DirIds(t))
    ensures OneScan(BUS, t, x, v).Some? && Reaches(states', ops', x, OneScan(BUS, t, x, v).value)
    ensures ops' == ops + [T.ScanBus(BUS, t)] && |states'| == |states| + 1 && states'[..|states|] == states
    ensures Scan(states[|ops|], BUS, t) == (states'[|ops'|], true)
  {
    hide Valid, Scan, OneScan, GoodDir, ViewOf, CanonicalDir, DirIds, Loads, Family;
    var s := states[|ops|];
    T.JournalFaithful(states, ops, |ops|);
    CanonicalGood(t);
    GoodScanSucceeds(s, BUS, t);
    ScanLoads(s, BUS, t);
    AbleStays(s.structs, Scan(s, BUS, t).0.structs);
    ScanView(s, BUS, t, x);
    ScanValid(s, BUS, t);
    states', ops' := states + [Scan(s, BUS, t).0], ops + [T.ScanBus(BUS, t)];
  }

  /** A run from the beginning, five scans of one bus, after the last of which a device that the bus lists is located
      nowhere although the scan succeeded and the tree is good. The classes may be set up already or not. */
  lemma ScanLosesWhatItLists(structs: Structs) returns (states: seq<Reg>, ops: seq<T.Op>, t: Dir, x: string)
    requires Able(structs)
    ensures states != [] && states[0].structs == structs
    ensures T.IsHistory(states, ops) && |ops| == 6 && ops[0] == T.OpenTop("bus.0") && ops[5] == T.ScanBus(BUS, t)
    ensures GoodDir(t) && (BUS, x) in TreePairs(BUS, t) && BUS in states[5].buses &&
            Scan(states[5], BUS, t) == (states[6], true)
    ensures Registered(states[6], x) && states[6].objs[states[6].ids[x]].bus == None
  {
    hide IsId, IsCoupler, Canonical, Tree, GoodDir, TreePairs, Port, Moved, OneScan, ViewOf, Scan, Valid, T.Apply,
         T.Allowed, DirIds, Family, Able;
    x := "10.0.0";
    var c, d := "1F.0.0", "1F.1.0";
    ExampleExists();
    assert Families({x, c, d});
    PortsDiffer(c, d);
    Journey(x, c, d);
    var cm, ca, dm := Port(BUS, c, "main"), Port(BUS, c, "aux"), Port(BUS, d, "main");
    states, ops := Opened(structs, x);
    TreeGood(x, c, d, BUS);
    TreeGood(x, c, d, cm);
    TreeGood(x, c, d, ca);
    TreeGood(x, c, d, dm);
    var v0, v1 := View(None, 0, {}, {}, true), View(Some(BUS), 0, {BUS}, {BUS}, true);
    TreeView(x, c, d, BUS, v0);
    states, ops := Extended(states, ops, x, v0, Tree(x, c, d, BUS));
    TreeView(x, c, d, cm, v1);
    states, ops := Extended(states, ops, x, v1, Tree(x, c, d, cm));
    var v2 := View(Some(cm), 1, {BUS, cm}, {BUS, cm}, true);
    TreeView(x, c, d, ca, v2);
    states, ops := Extended(states, ops, x, v2, Tree(x, c, d, ca));
    var v3 := View(Some(ca), 1, {BUS, cm, ca}, {BUS, cm, ca}, true);
    TreeView(x, c, d, dm, v3);
    states, ops := Extended(states, ops, x, v3, Tree(x, c, d, dm));
    var v4 := View(Some(dm), 1, {BUS, cm, ca, dm}, {BUS, cm, ca, dm}, true);
    TreeView(x, c, d, BUS, v4);
    t := Tree(x, c, d, BUS);
    ghost var before := states;
    states, ops := Extended(states, ops, x, v4, t);
    assert states[5] == states[..|before|][5];
    CountedIsRegistered(states[|ops|], x);
  }

  lemma CountedIsRegistered(s: Reg, x: string)
    requires ViewOf(s, x).unseen == 3 && ViewOf(s, x).at == None
    ensures Registered(s, x) && s.objs[s.ids[x]].bus == None
  {
  }

  // ---------------------------------------------------------------- a listing that repeats an id

  function Twice(x: string): Dir {
    Dir([Entry(x, Unreadable, Unreadable), Entry(x, Unreadable, Unreadable)])
  }

  lemma TwiceFacts(x: string)
    requires IsId(x) && Canonical(x) && !IsCoupler(x)
    ensures CanonicalDir(Twice(x)) && Readable(Twice(x)) && DirIds(Twice(x)) == {x}
    ensures TreePairs(BUS, Twice(x)) == {(BUS, x)} && Counts(BUS, Twice(x), BUS, x) == [2]
  {
    hide IsId, IsCoupler, Canonical;
    var e := Entry(x, Unreadable, Unreadable);
    var es := [e, e];
    var none: seq<Entry> := [];
    assert es[1..] == [e] && [e][1..] == none;
    assert RootIds(none) == [] && RootIds([e]) == [x] && RootIds(es) == [x] + [x];
    assert [x, x][1..] == [x] && [x][1..] == [] && Occurs([x], x) == 1 && Occurs([x, x], x) == 2;
    CountsInElsewhere(BUS, es, BUS, x);
    assert EntryPairs(BUS, none) == {} && EntryPairs(BUS, [e]) == {(BUS, x)} && EntryPairs(BUS, es) == {(BUS, x)};
    assert ReadableEntries(none) && ReadableEntries([e]) && ReadableEntries(es);
    assert EntryIds(none) == {} && EntryIds([e]) == {x} && EntryIds(es) == {x};
  }

  lemma TwiceSucceedsIff(s: Reg, x: string)
    requires Valid(s) && BUS in s.buses && IsId(x) && Canonical(x) && !IsCoupler(x)
    ensures Scan(s, BUS, Twice(x)).1 <==> Loads(s.structs, Family(x)) && Behind(s, BUS, x)
  {
    hide Valid, Scan, Twice, IsId, IsCoupler, Canonical, Behind, TreePairs, Counts, Readable, CanonicalDir, DirIds,
         Loads, Family;
    TwiceFacts(x);
    ScanSucceedsExactlyWhen(s, BUS, Twice(x));
    assert [2][1..] == [] && Fits([2], true) && !Fits([2], false);
    assert (BUS, x) in TreePairs(BUS, Twice(x));
  }

  /** On a new bus it raises an exception. */
  lemma RepeatRaises(structs: Structs) returns (states: seq<Reg>, ops: seq<T.Op>, x: string)
    requires Able(structs)
    ensures T.IsHistory(states, ops) && |ops| == 1 && BUS in states[1].buses && IsId(x) && Readable(Twice(x))
    ensures Loadable(states[1].structs, DirIds(Twice(x))) && !Scan(states[1], BUS, Twice(x)).1
  {
    hide IsId, IsCoupler, Canonical, ViewOf, Scan, Valid, Behind, Twice, Readable, DirIds, Family;
    x := "10.0.0";
    ExampleExists();
    TwiceFacts(x);
    states, ops := Opened(structs, x);
    T.JournalFaithful(states, ops, 1);
    TwiceSucceedsIff(states[1], x);
    BehindView(states[1], BUS, x);
  }

  /** After the device has been there and has moved away, it does not. */
  lemma RepeatAccepted(structs: Structs) returns (states: seq<Reg>, ops: seq<T.Op>, x: string)
    requires Able(structs)
    ensures T.IsHistory(states, ops) && |ops| == 3 && BUS in states[3].buses && IsId(x)
    ensures Scan(states[3], BUS, Twice(x)).1
  {
    hide IsId, IsCoupler, Canonical, Tree, GoodDir, TreePairs, Port, Moved, OneScan, ViewOf, Scan, Valid, T.Apply,
         T.Allowed, DirIds, Family, Able, Behind, Twice;
    x := "10.0.0";
    var c, d := "1F.0.0", "1F.1.0";
    ExampleExists();
    assert Families({x, c, d});
    PortsDiffer(c, d);
    Journey(x, c, d);
    var cm := Port(BUS, c, "main");
    states, ops := Opened(structs, x);
    TreeGood(x, c, d, BUS);
    TreeGood(x, c, d, cm);
    var v0, v1 := View(None, 0, {}, {}, true), View(Some(BUS), 0, {BUS}, {BUS}, true);
    TreeView(x, c, d, BUS, v0);
    states, ops := Extended(states, ops, x, v0, Tree(x, c, d, BUS));
    TreeView(x, c, d, cm, v1);
    states, ops := Extended(states, ops, x, v1, Tree(x, c, d, cm));
    T.JournalFaithful(states, ops, 3);
    AbleLoads(states[3].structs);
    TwiceSucceedsIff(states[3], x);
    BehindView(states[3], BUS, x);
  }

  // ---------------------------------------------------------------- a structure that cannot be loaded

  const NO_STRUCTURES := On({}, map[])

  /** On a server that publishes no structures, scanning a new bus with one new device raises an exception; the device
      is then registered, but located nowhere. */
  lemma UnpublishedRaises() returns (states: seq<Reg>, ops: seq<T.Op>, d: Dir, x: string)
    ensures T.IsHistory(states, ops) && |ops| == 1 && states[0].structs == NO_STRUCTURES && BUS in states[1].buses
    ensures GoodDir(d) && RootIds(d.entries) == [x]
    ensures var (t, ok) := Scan(states[1], BUS, d); !ok && Registered(t, x) && t.objs[t.ids[x]].bus == None
  {
    hide IsId, IsCoupler, Canonical, GoodDir, T.Apply, Family;
    x := "10.0.0";
    ExampleExists();
    JustIfGood(x, true);
    d := Dir(JustIf(x, true));
    var s := GetTopBus(T.Empty(NO_STRUCTURES), "bus.0");
    states, ops := [T.Empty(NO_STRUCTURES), s], [T.OpenTop("bus.0")];
    assert states[1] == T.Apply(states[0], ops[0]) by { OpenTopApplies(states[0]); }
    assert s.buses == map[BUS := BusRec([], [])] && s.ids == map[] && HasBus(s, BUS);
    assert d.entries[0].name == x && RootIds(d.entries[1..]) == [];
    GetDeviceNew(s, x);
    var v := Found(s, BUS, x, []);
    assert !v.ok && v.reg == GetDevice(s, x).0;
    assert Listed(s.objs, []) == [];
    assert Visit(s, BUS, d.entries, []) == v;
  }

  lemma OpenTopApplies(s: Reg)
    ensures T.Apply(s, T.OpenTop("bus.0")) == GetTopBus(s, "bus.0") && T.Allowed(s, T.OpenTop("bus.0"))
  {
  }
}
