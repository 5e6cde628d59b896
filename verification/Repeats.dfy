/** Exactly which scans raise an exception: unreadable directories, structures that cannot be loaded, and listings
    that repeat an id (Bus._scan_one, old_devs.remove). */
module Repeats {
  import opened Text
  import opened Registry
  import opened ScanTree
  import opened OneId
  import opened Relocation
  import Teardown

  // ---------------------------------------------------------------- what is counted

  function Occurs(ids: seq<string>, id: string): nat {
    if ids == [] then 0 else (if ids[0] == id then 1 else 0) + Occurs(ids[1..], id)
  }

  /** How often the id is listed at q, for each time that q is scanned: more than once if a coupler is repeated. */
  function Counts(p: BusPath, d: Dir, q: BusPath, id: string): seq<nat>
    decreases d, 1
  {
    if d.Unreadable? then []
    else (if q == p then [Occurs(RootIds(d.entries), id)] else []) + CountsIn(p, d.entries, q, id)
  }

  function CountsIn(p: BusPath, es: seq<Entry>, q: BusPath, id: string): seq<nat>
    decreases es, 0
  {
    if es == [] then [] else CountsOne(p, es[0], q, id) + CountsIn(p, es[1..], q, id)
  }

  function CountsOne(p: BusPath, e: Entry, q: BusPath, id: string): seq<nat>
    decreases e, 2
  {
    if HasPorts(e) then Counts(Port(p, e.name, "main"), e.main, q, id) + Counts(Port(p, e.name, "aux"), e.aux, q, id)
    else []
  }

  /** Once each time; but twice the first time, if the bus has a left-behind entry of the id. */
  predicate Fits(counts: seq<nat>, behind: bool) {
    counts == [] ||
    if counts[0] == 0 then Fits(counts[1..], behind)
    else counts[0] <= (if behind then 2 else 1) && Fits(counts[1..], false)
  }

  predicate StillBehind(counts: seq<nat>, behind: bool) {
    behind && forall i :: 0 <= i < |counts| ==> counts[i] == 0
  }

  lemma {:induction false} FitsBoth(a: seq<nat>, b: seq<nat>, behind: bool)
    ensures Fits(a + b, behind) <==> Fits(a, behind) && Fits(b, StillBehind(a, behind))
    ensures StillBehind(a + b, behind) <==> StillBehind(b, StillBehind(a, behind))
  {
    if a == [] {
      assert a + b == b;
    } else {
      assert (a + b)[0] == a[0] && (a + b)[1..] == a[1..] + b;
      FitsBoth(a[1..], b, if a[0] == 0 then behind else false);
      StillTail(a, behind);
    }
  }

  lemma StillTail(a: seq<nat>, behind: bool)
    requires a != []
    ensures StillBehind(a, behind) <==> StillBehind(a[1..], if a[0] == 0 then behind else false)
  {
    assert forall i :: 0 < i < |a| ==> a[i] == a[1..][i - 1];
  }

  predicate IsBehind(v: View, q: BusPath) {
    q in v.lists && v.at != Some(q)
  }

  ghost predicate OnlyAt(pairs: set<(BusPath, string)>, id: string, q: BusPath) {
    forall x :: (x, id) in pairs ==> x == q
  }

  // ---------------------------------------------------------------- the bus that lists the id

  lemma NotBehindPorts(p: BusPath, e: Entry, id: string)
    requires HasPorts(e) && OnlyAt(OnePairs(p, e), id, p)
    ensures id !in DirIds(e.main) && id !in DirIds(e.aux)
  {
    hide IsId, IsCoupler, DirIds, TreePairs;
    var main, aux := Port(p, e.name, "main"), Port(p, e.name, "aux");
    PortBelow(p, e.name, "main");
    PortBelow(p, e.name, "aux");
    TreePairsInside(main, e.main);
    TreePairsInside(aux, e.aux);
    if id in DirIds(e.main) {
      var q := PairOf(main, e.main, id);
    }
    if id in DirIds(e.aux) {
      var q := PairOf(aux, e.aux, id);
    }
  }

  predicate PortsReadable(e: Entry) {
    HasPorts(e) ==> Readable(e.main) && Readable(e.aux)
  }

  /** Ports that do not list the id. */
  lemma PassPorts(p: BusPath, e: Entry, id: string, v: View)
    requires HasPorts(e) && id !in DirIds(e.main) && id !in DirIds(e.aux) && Sound(v)
    ensures BothPorts(p, e, id, v).Some? <==> PortsReadable(e)
    ensures PortsReadable(e) ==>
              var w := BothPorts(p, e, id, v).value;
              Sound(w) && w.loads == v.loads && (w.at == Some(p) <==> v.at == Some(p)) &&
              (p in w.lists <==> p in v.lists)
  {
    hide IsId, IsCoupler, DirIds, OneScan, Readable;
    var main, aux := Port(p, e.name, "main"), Port(p, e.name, "aux");
    PortBelow(p, e.name, "main");
    PortBelow(p, e.name, "aux");
    UnlistedScan(main, e.main, id, v);
    if Readable(e.main) {
      var w := OneScan(main, e.main, id, v).value;
      ScanKeeps(main, e.main, id, v, p);
      UnlistedScan(aux, e.aux, id, w);
      if Readable(e.aux) {
        ScanKeeps(aux, e.aux, id, w, p);
      }
    }
  }

  function Allowance(p: BusPath, v: View, waiting: bool): nat {
    (if v.at == Some(p) then 0 else 1) + (if waiting then 1 else 0)
  }

  lemma HereEntry(p: BusPath, e: Entry, id: string, v: View, waiting: bool)
    requires OnlyAt(OnePairs(p, e), id, p) && Sound(v)
    ensures var n := if IsId(e.name) && e.name == id then 1 else 0;
            (OneEntry(p, e, id, v, waiting).Some? <==>
               PortsReadable(e) && n <= Allowance(p, v, waiting) && (n > 0 ==> v.loads)) &&
            (OneEntry(p, e, id, v, waiting).Some? ==>
               var (w, still) := OneEntry(p, e, id, v, waiting).value;
               Sound(w) && w.loads == v.loads && Allowance(p, w, still) == Allowance(p, v, waiting) - n &&
               (n == 0 ==>
                  still == waiting && (w.at == Some(p) <==> v.at == Some(p)) && (p in w.lists <==> p in v.lists)) &&
               (n == 1 ==> w.at == Some(p) && p in w.lists))
  {
    hide IsId, IsCoupler, DirIds, OneScan, BothPorts, PortsReadable, OnlyAt, OnePairs;
    var met := if IsId(e.name) && e.name == id then Met(p, v, waiting) else Some((v, waiting));
    if met.Some? {
      var (w, still) := met.value;
      if HasPorts(e) {
        NotBehindPorts(p, e, id);
        PassPorts(p, e, id, w);
      } else {
        NoPortsReadable(e);
      }
    }
  }

  lemma NoPortsReadable(e: Entry)
    requires !HasPorts(e)
    ensures PortsReadable(e)
  {
  }

  lemma {:induction false} HereVisit(p: BusPath, es: seq<Entry>, id: string, v: View, waiting: bool)
    requires OnlyAt(EntryPairs(p, es), id, p) && Sound(v)
    ensures var n := Occurs(RootIds(es), id);
            (OneVisit(p, es, id, v, waiting).Some? <==>
               ReadableEntries(es) && n <= Allowance(p, v, waiting) && (n > 0 ==> v.loads)) &&
            (OneVisit(p, es, id, v, waiting).Some? ==>
               var (w, still) := OneVisit(p, es, id, v, waiting).value;
               Sound(w) && w.loads == v.loads &&
               (n == 0 ==>
                  still == waiting && (w.at == Some(p) <==> v.at == Some(p)) && (p in w.lists <==> p in v.lists)) &&
               (n > 0 ==> w.at == Some(p) && p in w.lists))
    decreases es
  {
    hide OneEntry, OneVisit, OnePairs, TreePairs, Allowance, IsId, IsCoupler, Readable, Sound;
    if es == [] {
      VisitNone(p, id, v, waiting);
    } else {
      VisitStep(p, es, id, v, waiting);
      assert EntryPairs(p, es) == OnePairs(p, es[0]) + EntryPairs(p, es[1..]) by { PairsOfFirst(p, es); }
      HereEntry(p, es[0], id, v, waiting);
      RootsOfFirst(es, id);
      if OneEntry(p, es[0], id, v, waiting).Some? {
        var (w, still) := OneEntry(p, es[0], id, v, waiting).value;
        HereVisit(p, es[1..], id, w, still);
      }
    }
  }

  lemma PairsOfFirst(p: BusPath, es: seq<Entry>)
    requires es != []
    ensures EntryPairs(p, es) == OnePairs(p, es[0]) + EntryPairs(p, es[1..])
  {
  }

  lemma RootsOfFirst(es: seq<Entry>, id: string)
    requires es != []
    ensures Occurs(RootIds(es), id) == (if IsId(es[0].name) && es[0].name == id then 1 else 0) +
            Occurs(RootIds(es[1..]), id)
  {
    if IsId(es[0].name) {
      assert RootIds(es)[1..] == RootIds(es[1..]);
    } else {
      assert RootIds(es) == RootIds(es[1..]);
    }
  }

  lemma {:induction false} CountsElsewhere(p: BusPath, d: Dir, q: BusPath, id: string)
    requires !(p <= q)
    ensures Counts(p, d, q, id) == []
    decreases d, 1
  {
    if d.Dir? {
      CountsInElsewhere(p, d.entries, q, id);
    }
  }

  lemma {:induction false} CountsInElsewhere(p: BusPath, es: seq<Entry>, q: BusPath, id: string)
    requires !(p < q)
    ensures CountsIn(p, es, q, id) == []
    decreases es, 0
  {
    hide IsId, IsCoupler, Counts;
    if es != [] {
      CountsInElsewhere(p, es[1..], q, id);
      if HasPorts(es[0]) {
        PortBelow(p, es[0].name, "main");
        PortBelow(p, es[0].name, "aux");
        CountsElsewhere(Port(p, es[0].name, "main"), es[0].main, q, id);
        CountsElsewhere(Port(p, es[0].name, "aux"), es[0].aux, q, id);
      }
    }
  }

  lemma {:induction false} RootPairs(p: BusPath, es: seq<Entry>, id: string)
    ensures Occurs(RootIds(es), id) > 0 <==> (p, id) in EntryPairs(p, es)
    decreases es
  {
    hide IsId, IsCoupler, TreePairs;
    if es != [] {
      RootPairs(p, es[1..], id);
      RootsOfFirst(es, id);
      PairsOfFirst(p, es);
      if HasPorts(es[0]) {
        TreePairsInside(Port(p, es[0].name, "main"), es[0].main);
        TreePairsInside(Port(p, es[0].name, "aux"), es[0].aux);
        PortBelow(p, es[0].name, "main");
        PortBelow(p, es[0].name, "aux");
      }
    }
  }

  /** One scan, for an id that the tree lists at one bus at most. */
  lemma {:induction false} ScanFits(p: BusPath, d: Dir, q: BusPath, id: string, v: View)
    requires OnlyAt(TreePairs(p, d), id, q) && Sound(v)
    ensures OneScan(p, d, id, v).Some? <==>
            Readable(d) && ((q, id) in TreePairs(p, d) ==> v.loads) && Fits(Counts(p, d, q, id), IsBehind(v, q))
    ensures OneScan(p, d, id, v).Some? ==>
              var w := OneScan(p, d, id, v).value;
              Sound(w) && w.loads == v.loads && (IsBehind(w, q) <==> StillBehind(Counts(p, d, q, id), IsBehind(v, q)))
    decreases d, 1
  {
    hide OneVisit, CountsIn, EntryPairs;
    if d.Dir? {
      if q == p {
        HereVisit(p, d.entries, id, v, p in v.lists);
        RootPairs(p, d.entries, id);
        CountsInElsewhere(p, d.entries, q, id);
        var n := Occurs(RootIds(d.entries), id);
        assert Counts(p, d, q, id) == [n] && [n][1..] == [];
      } else {
        VisitFits(p, d.entries, q, id, v, p in v.lists);
        assert Counts(p, d, q, id) == CountsIn(p, d.entries, q, id);
      }
    }
  }

  lemma {:induction false} VisitFits(p: BusPath, es: seq<Entry>, q: BusPath, id: string, v: View, waiting: bool)
    requires OnlyAt(EntryPairs(p, es), id, q) && Sound(v) && q != p
    ensures OneVisit(p, es, id, v, waiting).Some? <==>
            ReadableEntries(es) && ((q, id) in EntryPairs(p, es) ==> v.loads) &&
            Fits(CountsIn(p, es, q, id), IsBehind(v, q))
    ensures OneVisit(p, es, id, v, waiting).Some? ==>
              var w := OneVisit(p, es, id, v, waiting).value.0;
              Sound(w) && w.loads == v.loads &&
              (IsBehind(w, q) <==> StillBehind(CountsIn(p, es, q, id), IsBehind(v, q)))
    decreases es, 0
  {
    hide OneEntry, OneVisit, OnePairs, TreePairs, IsId, IsCoupler, Readable, Sound, Fits, StillBehind, IsBehind,
         CountsOne;
    if es == [] {
      VisitNone(p, id, v, waiting);
      NoCounts(IsBehind(v, q));
    } else {
      VisitStep(p, es, id, v, waiting);
      PairsOfFirst(p, es);
      FitsBoth(CountsOne(p, es[0], q, id), CountsIn(p, es[1..], q, id), IsBehind(v, q));
      EntryFits(p, es[0], q, id, v, waiting);
      if OneEntry(p, es[0], id, v, waiting).Some? {
        var (w, still) := OneEntry(p, es[0], id, v, waiting).value;
        VisitFits(p, es[1..], q, id, w, still);
      }
    }
  }

  lemma NoCounts(behind: bool)
    ensures Fits([], behind) && (StillBehind([], behind) <==> behind)
  {
  }

  lemma {:induction false} EntryFits(p: BusPath, e: Entry, q: BusPath, id: string, v: View, waiting: bool)
    requires OnlyAt(OnePairs(p, e), id, q) && Sound(v) && q != p
    ensures OneEntry(p, e, id, v, waiting).Some? <==>
            PortsReadable(e) && ((q, id) in OnePairs(p, e) ==> v.loads) && Fits(CountsOne(p, e, q, id), IsBehind(v, q))
    ensures OneEntry(p, e, id, v, waiting).Some? ==>
              var w := OneEntry(p, e, id, v, waiting).value.0;
              Sound(w) && w.loads == v.loads &&
              (IsBehind(w, q) <==> StillBehind(CountsOne(p, e, q, id), IsBehind(v, q)))
    decreases e, 3
  {
    hide IsId, IsCoupler, OneScan, TreePairs, Readable, Sound, Fits, StillBehind, IsBehind, Counts;
    NoCounts(IsBehind(v, q));
    assert IsId(e.name) ==> (p, e.name) in OnePairs(p, e);
    if HasPorts(e) {
      var main, aux := Port(p, e.name, "main"), Port(p, e.name, "aux");
      FitsBoth(Counts(main, e.main, q, id), Counts(aux, e.aux, q, id), IsBehind(v, q));
      ScanFits(main, e.main, q, id, v);
      if OneScan(main, e.main, id, v).Some? {
        ScanFits(aux, e.aux, q, id, OneScan(main, e.main, id, v).value);
      }
    }
  }

  // ---------------------------------------------------------------- the registry

  /** No id is listed by two buses. */
  ghost predicate OneBusEach(p: BusPath, d: Dir) {
    forall x, y, id :: (x, id) in TreePairs(p, d) && (y, id) in TreePairs(p, d) ==> x == y
  }

  lemma BehindView(s: Reg, q: BusPath, id: string)
    ensures Behind(s, q, id) <==> IsBehind(ViewOf(s, id), q)
  {
    hide ListsId;
    ListsLive(s, id);
  }

  lemma FitsPerId(s: Reg, p: BusPath, d: Dir, q: BusPath, id: string)
    requires Valid(s) && OneBusEach(p, d) && (q, id) in TreePairs(p, d)
    ensures OneScan(p, d, id, ViewOf(s, id)).Some? <==>
            Readable(d) && Loads(s.structs, Family(id)) && Fits(Counts(p, d, q, id), Behind(s, q, id))
  {
    hide Valid, OneScan, TreePairs, Fits, Counts, Behind, Readable, ViewOf, Sound, Loads, Family;
    ViewSound(s, id);
    ViewLoads(s, id);
    ScanFits(p, d, q, id, ViewOf(s, id));
    BehindView(s, q, id);
  }

  lemma {:induction false} ScanReadable(s: Reg, p: BusPath, d: Dir)
    ensures Scan(s, p, d).1 ==> Readable(d)
    decreases d, 1
  {
    hide MissedAll, Visit;
    if d.Dir? && HasBus(s, p) {
      VisitReadable(s, p, d.entries, Listed(s.objs, s.buses[p].devs));
    }
  }

  lemma {:induction false} VisitReadable(s: Reg, p: BusPath, es: seq<Entry>, left: seq<string>)
    ensures Visit(s, p, es, left).ok ==> ReadableEntries(es)
    decreases es, 0
  {
    hide Found, ScanPort, IsId, IsCoupler, Readable;
    if es != [] {
      var e := es[0];
      var t := Found(s, p, e.name, left).reg;
      PortReadable(t, p, e.name, "main", e.main);
      PortReadable(ScanPort(t, p, e.name, "main", e.main).0, p, e.name, "aux", e.aux);
      VisitReadable(VisitOne(s, p, e, left).reg, p, es[1..], VisitOne(s, p, e, left).left);
    }
  }

  lemma {:induction false} PortReadable(s: Reg, p: BusPath, name: string, port: string, d: Dir)
    ensures ScanPort(s, p, name, port, d).1 ==> Readable(d)
    decreases d, 2
  {
    hide Scan, Readable;
    if p in s.buses {
      ScanReadable(GetSubBus(s, p, Upper(name), port), Port(p, Upper(name), port), d);
    }
  }

  /** From any valid registry, a scan of a tree in which no id is listed by two buses raises an exception unless every
      directory can be read, the structure of every family can be loaded, and each bus lists each id once, or twice
      where it has a left-behind entry of it; a bus behind a repeated coupler is scanned again, and must then list it
      at most once. */
  lemma ScanSucceedsExactlyWhen(s: Reg, p: BusPath, d: Dir)
    requires Valid(s) && p in s.buses && CanonicalDir(d) && OneBusEach(p, d)
    ensures Scan(s, p, d).1 <==>
            Readable(d) && Loadable(s.structs, DirIds(d)) &&
            forall q, id :: (q, id) in TreePairs(p, d) ==> Fits(Counts(p, d, q, id), Behind(s, q, id))
  {
    hide Valid, Scan, OneScan, TreePairs, CanonicalDir, Fits, Counts, Behind, Readable, ViewOf, Sound, DirIds, Loads,
         Family;
    if Scan(s, p, d).1 {
      ScanReadable(s, p, d);
      ScanLoads(s, p, d);
      forall q, id | (q, id) in TreePairs(p, d) ensures Fits(Counts(p, d, q, id), Behind(s, q, id)) {
        ScanView(s, p, d, id);
        FitsPerId(s, p, d, q, id);
      }
    } else {
      var id := ScanFails(s, p, d);
      if id in DirIds(d) {
        var q := PairOf(p, d, id);
        FitsPerId(s, p, d, q, id);
      } else {
        ViewSound(s, id);
        UnlistedScan(p, d, id, ViewOf(s, id));
      }
    }
  }
}
