/** Scanning again after devices have come, gone and moved. From whatever valid registry, a scan of a readable tree
    without repeated ids raises an exception only if the structure of some family cannot be loaded; otherwise a listed
    device is afterwards located at the bus that lists it, except in one case, which is given exactly. */
module Relocation {
  import opened Text
  import opened Registry
  import opened ScanTree
  import opened OneId
  import Teardown

  // ---------------------------------------------------------------- scans that do not list the id

  predicate Readable(d: Dir)
    decreases d, 1
  {
    d.Dir? && ReadableEntries(d.entries)
  }

  predicate ReadableEntries(es: seq<Entry>)
    decreases es, 0
  {
    es == [] || ((HasPorts(es[0]) ==> Readable(es[0].main) && Readable(es[0].aux)) && ReadableEntries(es[1..]))
  }

  /** The device may be lost from p or below, and is counted otherwise. */
  ghost predicate Passed(p: BusPath, v: View, w: View) {
    Sound(w) && w.loads == v.loads && w.unseen >= v.unseen &&
    (w.at == v.at || (w.at.None? && v.at.Some? && p <= v.at.value))
  }

  lemma {:induction false} UnlistedScan(p: BusPath, d: Dir, id: string, v: View)
    requires id !in DirIds(d) && Sound(v)
    ensures OneScan(p, d, id, v).Some? <==> Readable(d)
    ensures Readable(d) ==> Passed(p, v, OneScan(p, d, id, v).value)
    decreases d, 1
  {
    hide OneVisit;
    if d.Dir? {
      UnlistedVisit(p, d.entries, id, v, p in v.lists);
    }
  }

  lemma {:induction false} UnlistedVisit(p: BusPath, es: seq<Entry>, id: string, v: View, waiting: bool)
    requires id !in EntryIds(es) && Sound(v)
    ensures OneVisit(p, es, id, v, waiting).Some? <==> ReadableEntries(es)
    ensures ReadableEntries(es) ==>
              var (w, still) := OneVisit(p, es, id, v, waiting).value;
              still == waiting && Passed(p, v, w) && (v.at == Some(p) ==> w.at == Some(p))
    decreases es, 0
  {
    hide OneEntry, OneIds;
    if es != [] {
      UnlistedEntry(p, es[0], id, v, waiting);
      if OneEntry(p, es[0], id, v, waiting).Some? {
        UnlistedVisit(p, es[1..], id, OneEntry(p, es[0], id, v, waiting).value.0, waiting);
      }
    }
  }

  lemma {:induction false} UnlistedEntry(p: BusPath, e: Entry, id: string, v: View, waiting: bool)
    requires id !in OneIds(e) && Sound(v)
    ensures OneEntry(p, e, id, v, waiting).Some? <==> (HasPorts(e) ==> Readable(e.main) && Readable(e.aux))
    ensures OneEntry(p, e, id, v, waiting).Some? ==>
              var (w, still) := OneEntry(p, e, id, v, waiting).value;
              still == waiting && Passed(p, v, w) &&
              (v.at.Some? && !(|p| < |v.at.value| && v.at.value[|p|] == e.name) ==> w.at == v.at)
    decreases e, 3
  {
    hide IsId, IsCoupler, OneScan, DirIds;
    if HasPorts(e) {
      var main, aux := Port(p, e.name, "main"), Port(p, e.name, "aux");
      assert main[|p|] == e.name && aux[|p|] == e.name && p <= main && p <= aux;
      UnlistedScan(main, e.main, id, v);
      if Readable(e.main) {
        UnlistedScan(aux, e.aux, id, OneScan(main, e.main, id, v).value);
      }
    }
  }

  // ---------------------------------------------------------------- counting

  /** The counter after n more scans that missed the device while it was elsewhere. */
  function Capped(unseen: nat, n: nat): nat {
    if unseen > 2 then unseen else if unseen + n > 3 then 3 else unseen + n
  }

  lemma SetSum<T>(h: set<T>, a: set<T>, b: set<T>)
    requires a !! b
    ensures |h * (a + b)| == |h * a| + |h * b|
  {
    assert h * (a + b) == h * a + h * b;
  }

  lemma {:induction false} PathsUnder(p: BusPath, es: seq<Entry>)
    ensures forall x :: x in EntryPaths(p, es) ==> p < x && |p| < |x| && x[|p|] in EntryIds(es)
    decreases es
  {
    hide IsId, IsCoupler, DirIds, TreePaths;
    if es != [] {
      OneUnder(p, es[0]);
      PathsUnder(p, es[1..]);
    }
  }

  lemma OneUnder(p: BusPath, e: Entry)
    ensures forall x :: x in OnePaths(p, e) ==> p < x && |p| < |x| && x[|p|] == e.name && e.name in OneIds(e)
    ensures HasPorts(e) ==> TreePaths(Port(p, e.name, "main"), e.main) !! TreePaths(Port(p, e.name, "aux"), e.aux)
  {
    hide IsId, IsCoupler, TreePaths;
    var main, aux := Port(p, e.name, "main"), Port(p, e.name, "aux");
    forall x | x in TreePaths(main, e.main) && HasPorts(e)
      ensures main <= x && x[|p|] == e.name && x[|p| + 1] == "main" {
      PathsBelow(main, e.main, x);
      assert main[|p|] == e.name && main[|p| + 1] == "main";
    }
    forall x | x in TreePaths(aux, e.aux) && HasPorts(e) ensures aux <= x && x[|p|] == e.name && x[|p| + 1] == "aux" {
      PathsBelow(aux, e.aux, x);
      assert aux[|p|] == e.name && aux[|p| + 1] == "aux";
    }
  }

  /** The paths behind different entries are apart. */
  lemma PathsApart(p: BusPath, es: seq<Entry>)
    requires es != [] && GoodEntries(es)
    ensures OnePaths(p, es[0]) !! EntryPaths(p, es[1..])
    ensures EntryPaths(p, es) == OnePaths(p, es[0]) + EntryPaths(p, es[1..])
  {
    hide IsId, IsCoupler, TreePaths, OneIds, GoodEntry;
    OneUnder(p, es[0]);
    PathsUnder(p, es[1..]);
  }

  /** A good tree that does not list the id, and does not have its device: each bus that holds the device counts it. */
  lemma {:induction false} CountedScan(p: BusPath, d: Dir, id: string, v: View)
    requires GoodDir(d) && id !in DirIds(d) && Sound(v) && (v.at.Some? ==> v.at.value !in TreePaths(p, d))
    ensures OneScan(p, d, id, v) == Some(v.(unseen := Capped(v.unseen, |v.holds * TreePaths(p, d)|)))
    decreases d, 1
  {
    hide OneVisit, EntryPaths, GoodEntries, EntryIds;
    CountedVisit(p, d.entries, id, v, p in v.lists);
    PathsUnder(p, d.entries);
    SetSum(v.holds, {p}, EntryPaths(p, d.entries));
    assert v.holds * {p} == if p in v.holds then {p} else {};
  }

  lemma {:induction false} CountedVisit(p: BusPath, es: seq<Entry>, id: string, v: View, waiting: bool)
    requires GoodEntries(es) && id !in EntryIds(es) && Sound(v) && (v.at.Some? ==> v.at.value !in EntryPaths(p, es))
    ensures OneVisit(p, es, id, v, waiting) ==
            Some((v.(unseen := Capped(v.unseen, |v.holds * EntryPaths(p, es)|)), waiting))
    decreases es, 0
  {
    hide OneEntry, OneIds, TreePaths, GoodEntry, IsId, IsCoupler;
    if es == [] {
      assert v.holds * {} == {};
    } else {
      PathsApart(p, es);
      CountedEntry(p, es[0], id, v, waiting);
      SetSum(v.holds, OnePaths(p, es[0]), EntryPaths(p, es[1..]));
      CountedVisit(p, es[1..], id, v.(unseen := Capped(v.unseen, |v.holds * OnePaths(p, es[0])|)), waiting);
    }
  }

  lemma {:induction false} CountedEntry(p: BusPath, e: Entry, id: string, v: View, waiting: bool)
    requires GoodEntry(e) && id !in OneIds(e) && Sound(v) && (v.at.Some? ==> v.at.value !in OnePaths(p, e))
    ensures OneEntry(p, e, id, v, waiting) ==
            Some((v.(unseen := Capped(v.unseen, |v.holds * OnePaths(p, e)|)), waiting))
    decreases e, 3
  {
    CountedPorts(p, e, id, v);
    hide IsId, IsCoupler, OneScan, BothPorts, DirIds, TreePaths, GoodDir;
    if !HasPorts(e) {
      assert v.holds * {} == {};
    }
  }

  lemma {:induction false} CountedPorts(p: BusPath, e: Entry, id: string, v: View)
    requires GoodEntry(e) && id !in OneIds(e) && Sound(v) && (v.at.Some? ==> v.at.value !in OnePaths(p, e))
    ensures HasPorts(e) ==> BothPorts(p, e, id, v) == Some(v.(unseen := Capped(v.unseen, |v.holds * OnePaths(p, e)|)))
    decreases e, 2
  {
    hide IsId, IsCoupler, OneScan, DirIds, TreePaths, GoodDir, Canonical;
    if HasPorts(e) {
      var main, aux := Port(p, e.name, "main"), Port(p, e.name, "aux");
      OneUnder(p, e);
      CountedScan(main, e.main, id, v);
      CountedScan(aux, e.aux, id, OneScan(main, e.main, id, v).value);
      SetSum(v.holds, TreePaths(main, e.main), TreePaths(aux, e.aux));
    }
  }

  // ---------------------------------------------------------------- scans that list the id

  /** The buses that are scanned after the id has been met at q, and before q's own scan ends: those behind the ports
      of q's entries from the id's own entry onward. */
  function After(p: BusPath, d: Dir, q: BusPath, id: string): set<BusPath>
    decreases d, 1
  {
    if d.Unreadable? then {} else AfterEntries(p, d.entries, q, id)
  }

  function AfterEntries(p: BusPath, es: seq<Entry>, q: BusPath, id: string): set<BusPath>
    decreases es, 0
  {
    if es == [] then {}
    else if q == p && es[0].name == id then EntryPaths(p, es)
    else AfterOne(p, es[0], q, id) + AfterEntries(p, es[1..], q, id)
  }

  function AfterOne(p: BusPath, e: Entry, q: BusPath, id: string): set<BusPath>
    decreases e, 2
  {
    if HasPorts(e) then After(Port(p, e.name, "main"), e.main, q, id) + After(Port(p, e.name, "aux"), e.aux, q, id)
    else {}
  }

  /** The bus has an entry of the id although the device is elsewhere, and while the bus is being scanned three other
      dictionaries that have the device are scanned without listing it. */
  predicate CountedOut(v: View, q: BusPath, after: set<BusPath>) {
    q in v.lists && v.at != Some(q) && |v.holds * after| >= 3
  }

  /** Where the device ends up; a lost one has been counted to three. */
  ghost predicate Ends(v: View, w: View, q: BusPath, after: set<BusPath>) {
    Sound(w) && if CountedOut(v, q, after) then w.at == None && w.unseen > 2 else w.at == Some(q)
  }

  lemma {:induction false} AfterElsewhere(p: BusPath, d: Dir, q: BusPath, id: string)
    requires !(p <= q)
    ensures After(p, d, q, id) == {}
    decreases d, 1
  {
    if d.Dir? {
      AfterEntriesElsewhere(p, d.entries, q, id);
    }
  }

  lemma {:induction false} AfterEntriesElsewhere(p: BusPath, es: seq<Entry>, q: BusPath, id: string)
    requires q != p && forall e :: e in es ==> !(|p| < |q| && p <= q && q[|p|] == e.name)
    ensures AfterEntries(p, es, q, id) == {}
    decreases es, 0
  {
    hide IsId, IsCoupler;
    if es != [] {
      assert es[0] in es;
      AfterOneElsewhere(p, es[0], q, id);
      AfterEntriesElsewhere(p, es[1..], q, id);
    }
  }

  lemma {:induction false} AfterOneElsewhere(p: BusPath, e: Entry, q: BusPath, id: string)
    requires HasPorts(e) ==> !(|p| < |q| && p <= q && q[|p|] == e.name)
    ensures AfterOne(p, e, q, id) == {}
    decreases e, 2
  {
    hide IsId, IsCoupler, After;
    if HasPorts(e) {
      var main, aux := Port(p, e.name, "main"), Port(p, e.name, "aux");
      assert main[|p|] == e.name && aux[|p|] == e.name && p <= main && p <= aux;
      AfterElsewhere(main, e.main, q, id);
      AfterElsewhere(aux, e.aux, q, id);
    }
  }

  lemma {:induction false} TreePairsInside(p: BusPath, d: Dir)
    ensures forall q, id :: (q, id) in TreePairs(p, d) ==> p <= q && id in DirIds(d) && q in TreePaths(p, d)
    decreases d, 1
  {
    hide IsId, IsCoupler;
    if d.Dir? {
      EntryPairsInside(p, d.entries);
      forall q, id | (q, id) in TreePairs(p, d) ensures p <= q && q in TreePaths(p, d) {
        PathsBelow(p, d, q);
      }
    }
  }

  lemma {:induction false} EntryPairsInside(p: BusPath, es: seq<Entry>)
    ensures forall q, id :: (q, id) in EntryPairs(p, es) ==>
              id in EntryIds(es) && (q == p ==> id in RootIds(es)) && (q != p ==> q in EntryPaths(p, es))
    decreases es, 0
  {
    hide IsId, IsCoupler, DirIds, TreePaths, TreePairs;
    if es != [] {
      EntryPairsInside(p, es[1..]);
      if HasPorts(es[0]) {
        TreePairsInside(Port(p, es[0].name, "main"), es[0].main);
        TreePairsInside(Port(p, es[0].name, "aux"), es[0].aux);
      }
    }
  }

  lemma {:induction false} RootsAreIds(es: seq<Entry>)
    ensures forall id :: id in RootIds(es) ==> id in EntryIds(es)
  {
    if es != [] {
      RootsAreIds(es[1..]);
    }
  }

  /** The id is listed at this very bus, once: afterwards it is here, counted by what follows it, and still awaited
      just if it was listed without being here. */
  lemma {:induction false} MetVisit(p: BusPath, es: seq<Entry>, id: string, v: View, waiting: bool)
    requires GoodEntries(es) && id in RootIds(es) && Sound(v) && v.loads && (v.at == Some(p) ==> waiting)
    ensures OneVisit(p, es, id, v, waiting).Some?
    ensures var (w, still) := OneVisit(p, es, id, v, waiting).value;
            Sound(w) && w.at == Some(p) && still == (waiting && v.at != Some(p)) &&
            w.unseen == Capped(0, |v.holds * AfterEntries(p, es, p, id)|)
    decreases es
  {
    hide OneEntry, OneIds, TreePaths, GoodEntry, GoodEntries, OneVisit, EntryPaths, AfterEntries, RootIds, EntryIds;
    OneRootOf(es, id);
    if es[0].name == id {
      MetHere(p, es, id, v, waiting);
    } else {
      VisitStep(p, es, id, v, waiting);
      UnlistedEntry(p, es[0], id, v, waiting);
      GoodReads(es[0]);
      var (w, _) := OneEntry(p, es[0], id, v, waiting).value;
      MetVisit(p, es[1..], id, w, waiting);
      MetLater(p, es, id, v, waiting);
    }
  }

  lemma MetHere(p: BusPath, es: seq<Entry>, id: string, v: View, waiting: bool)
    requires es != [] && GoodEntries(es) && es[0].name == id && IsId(id) && id !in EntryIds(es[1..])
    requires Sound(v) && v.loads && (v.at == Some(p) ==> waiting)
    ensures OneVisit(p, es, id, v, waiting).Some?
    ensures var (w, still) := OneVisit(p, es, id, v, waiting).value;
            Sound(w) && w.at == Some(p) && still == (waiting && v.at != Some(p)) &&
            w.unseen == Capped(0, |v.holds * AfterEntries(p, es, p, id)|)
  {
    hide OneEntry, OneIds, TreePaths, GoodEntry, OneVisit, EntryPaths, IsId, RootIds, EntryIds;
    VisitStep(p, es, id, v, waiting);
    PathsApart(p, es);
    MetEntry(p, es[0], id, v, waiting);
    var (w, still) := OneEntry(p, es[0], id, v, waiting).value;
    PathsUnder(p, es[1..]);
    CountedVisit(p, es[1..], id, w, still);
    assert w.holds * EntryPaths(p, es[1..]) == v.holds * EntryPaths(p, es[1..]);
    SetSum(v.holds, OnePaths(p, es[0]), EntryPaths(p, es[1..]));
  }

  /** An earlier entry does not change what follows the id's own. */
  lemma MetLater(p: BusPath, es: seq<Entry>, id: string, v: View, waiting: bool)
    requires es != [] && GoodEntries(es) && es[0].name != id && OneEntry(p, es[0], id, v, waiting).Some?
    ensures var w := OneEntry(p, es[0], id, v, waiting).value.0;
            w.holds * AfterEntries(p, es[1..], p, id) == v.holds * AfterEntries(p, es, p, id)
  {
    hide OneEntry, TreePaths, GoodEntry, EntryPaths, AfterEntries, DirIds, IsId, IsCoupler;
    var w := OneEntry(p, es[0], id, v, waiting).value.0;
    AfterRest(p, es, id);
    AfterUnder(p, es[1..], p, id);
    PathsUnder(p, es[1..]);
    PortsNamed(es[0]);
    forall x | x in AfterEntries(p, es[1..], p, id) ensures x in w.holds <==> x in v.holds {
      EntryLeaves(p, es[0], id, v, waiting, x);
    }
  }

  lemma VisitStep(p: BusPath, es: seq<Entry>, id: string, v: View, waiting: bool)
    requires es != []
    ensures OneVisit(p, es, id, v, waiting) ==
            match OneEntry(p, es[0], id, v, waiting)
            case None => None
            case Some((w, still)) => OneVisit(p, es[1..], id, w, still)
  {
  }

  /** An id listed by a good directory is in one entry only. */
  lemma OneRootOf(es: seq<Entry>, id: string)
    requires GoodEntries(es) && id in RootIds(es)
    ensures es != [] && GoodEntry(es[0]) && GoodEntries(es[1..])
    ensures es[0].name == id ==> IsId(id) && id !in EntryIds(es[1..])
    ensures es[0].name != id ==> id in RootIds(es[1..]) && id !in OneIds(es[0])
  {
    hide IsCoupler, DirIds, GoodEntry;
    RootsAreIds(es[1..]);
    if es[0].name == id {
      RootIsId(es, id);
    }
  }

  lemma {:induction false} RootIsId(es: seq<Entry>, id: string)
    requires id in RootIds(es)
    ensures IsId(id)
  {
    if id in RootIds(es[1..]) {
      RootIsId(es[1..], id);
    }
  }

  lemma GoodReads(e: Entry)
    requires GoodEntry(e)
    ensures HasPorts(e) ==> Readable(e.main) && Readable(e.aux)
  {
    hide IsId, IsCoupler;
    if HasPorts(e) {
      GoodIsReadable(e.main);
      GoodIsReadable(e.aux);
    }
  }

  lemma {:induction false} GoodIsReadable(d: Dir)
    requires GoodDir(d)
    ensures Readable(d)
    decreases d, 1
  {
    GoodEntriesReadable(d.entries);
  }

  lemma {:induction false} GoodEntriesReadable(es: seq<Entry>)
    requires GoodEntries(es)
    ensures ReadableEntries(es)
    decreases es, 0
  {
    hide IsId, IsCoupler;
    if es != [] {
      GoodEntriesReadable(es[1..]);
      if HasPorts(es[0]) {
        GoodIsReadable(es[0].main);
        GoodIsReadable(es[0].aux);
      }
    }
  }

  lemma MetEntry(p: BusPath, e: Entry, id: string, v: View, waiting: bool)
    requires GoodEntry(e) && IsId(e.name) && e.name == id && Sound(v) && v.loads && (v.at == Some(p) ==> waiting)
    ensures OneEntry(p, e, id, v, waiting).Some?
    ensures var (w, still) := OneEntry(p, e, id, v, waiting).value;
            Sound(w) && w.at == Some(p) && still == (waiting && v.at != Some(p)) && w.holds == v.holds + {p} &&
            w.unseen == Capped(0, |v.holds * OnePaths(p, e)|)
  {
    hide IsId, IsCoupler, OneScan, BothPorts, DirIds, TreePaths, GoodDir, Canonical;
    var (w, still) := Met(p, v, waiting).value;
    assert v.at == Some(p) ==> v.holds + {p} == v.holds && v.lists + {p} == v.lists;
    OneUnder(p, e);
    assert v.holds * OnePaths(p, e) == w.holds * OnePaths(p, e);
    if HasPorts(e) {
      MetPorts(p, e, id, w);
    } else {
      assert v.holds * {} == {};
    }
  }

  /** Its own ports, if it is a coupler. */
  lemma MetPorts(p: BusPath, e: Entry, id: string, w: View)
    requires GoodEntry(e) && HasPorts(e) && e.name == id && Sound(w) && w.at == Some(p)
    ensures BothPorts(p, e, id, w) == Some(w.(unseen := Capped(w.unseen, |w.holds * OnePaths(p, e)|)))
  {
    hide IsId, IsCoupler, OneScan, DirIds, TreePaths, GoodDir, Canonical;
    var main, aux := Port(p, e.name, "main"), Port(p, e.name, "aux");
    OneUnder(p, e);
    CountedScan(main, e.main, id, w);
    CountedScan(aux, e.aux, id, OneScan(main, e.main, id, w).value);
    SetSum(w.holds, TreePaths(main, e.main), TreePaths(aux, e.aux));
  }

  lemma AfterRest(p: BusPath, es: seq<Entry>, id: string)
    requires es != [] && es[0].name != id
    ensures AfterEntries(p, es, p, id) == AfterEntries(p, es[1..], p, id)
  {
    AfterOneElsewhere(p, es[0], p, id);
  }

  lemma {:induction false} AfterInside(p: BusPath, d: Dir, q: BusPath, id: string)
    ensures After(p, d, q, id) <= TreePaths(p, d)
    decreases d, 1
  {
    if d.Dir? {
      AfterUnder(p, d.entries, q, id);
    }
  }

  lemma {:induction false} AfterUnder(p: BusPath, es: seq<Entry>, q: BusPath, id: string)
    ensures AfterEntries(p, es, q, id) <= EntryPaths(p, es)
    decreases es, 0
  {
    hide IsId, IsCoupler, TreePaths, After;
    if es != [] {
      AfterUnder(p, es[1..], q, id);
      if HasPorts(es[0]) {
        AfterInside(Port(p, es[0].name, "main"), es[0].main, q, id);
        AfterInside(Port(p, es[0].name, "aux"), es[0].aux, q, id);
      }
    }
  }

  lemma PortsNamed(e: Entry)
    ensures HasPorts(e) ==> e.name in OneIds(e)
  {
  }

  /** An entry leaves the dictionaries behind other entries alone. */
  lemma EntryLeaves(p: BusPath, e: Entry, id: string, v: View, waiting: bool, x: BusPath)
    requires OneEntry(p, e, id, v, waiting).Some? && x != p && (HasPorts(e) ==> !(p < x && x[|p|] == e.name))
    ensures var w := OneEntry(p, e, id, v, waiting).value.0;
            (x in w.lists <==> x in v.lists) && (x in w.holds <==> x in v.holds)
  {
    hide IsId, IsCoupler, OneScan;
    if HasPorts(e) {
      var main, aux := Port(p, e.name, "main"), Port(p, e.name, "aux");
      assert main[|p|] == e.name && aux[|p|] == e.name && p < main && p < aux;
      var (w, _) := (if e.name == id then Met(p, v, waiting) else Some((v, waiting))).value;
      ScanKeeps(main, e.main, id, w, x);
      ScanKeeps(aux, e.aux, id, OneScan(main, e.main, id, w).value, x);
    }
  }

  function OnePairs(p: BusPath, e: Entry): set<(BusPath, string)> {
    (if IsId(e.name) then {(p, e.name)} else {}) +
    (if HasPorts(e) then TreePairs(Port(p, e.name, "main"), e.main) + TreePairs(Port(p, e.name, "aux"), e.aux) else {})
  }

  lemma OnePairsInside(p: BusPath, e: Entry, q: BusPath, id: string)
    requires (q, id) in OnePairs(p, e) && q != p
    ensures HasPorts(e) && id in OneIds(e) && p <= q && |p| < |q| && q[|p|] == e.name
  {
    hide IsId, IsCoupler, TreePaths, TreePairs, DirIds;
    TreePairsInside(Port(p, e.name, "main"), e.main);
    TreePairsInside(Port(p, e.name, "aux"), e.aux);
    OneUnder(p, e);
    assert q in OnePaths(p, e);
  }

  lemma {:induction false} NamesAreIds(es: seq<Entry>)
    ensures forall e :: e in es && IsId(e.name) ==> e.name in EntryIds(es)
    decreases es
  {
    hide IsCoupler, DirIds;
    if es != [] {
      NamesAreIds(es[1..]);
      assert es == [es[0]] + es[1..];
    }
  }

  /** Which entry leads to the bus. */
  lemma PairSplit(p: BusPath, es: seq<Entry>, q: BusPath, id: string)
    requires GoodEntries(es) && (q, id) in EntryPairs(p, es) && q != p
    ensures es != [] && GoodEntry(es[0]) && GoodEntries(es[1..]) && p <= q && |p| < |q|
    ensures (q, id) in OnePairs(p, es[0]) ==>
              id !in EntryIds(es[1..]) && q[|p|] == es[0].name && forall e :: e in es[1..] ==> e.name != q[|p|]
    ensures (q, id) !in OnePairs(p, es[0]) ==>
              (q, id) in EntryPairs(p, es[1..]) && id !in OneIds(es[0]) && q[|p|] in EntryIds(es[1..]) &&
              (HasPorts(es[0]) ==> q[|p|] != es[0].name)
  {
    hide IsCoupler, TreePaths, TreePairs, GoodEntry, DirIds;
    if (q, id) in OnePairs(p, es[0]) {
      OnePairsInside(p, es[0], q, id);
      NamesAreIds(es[1..]);
    } else {
      EntryPairsInside(p, es[1..]);
      PathsUnder(p, es[1..]);
      PortsNamed(es[0]);
    }
  }

  lemma {:induction false} StaysThere(p: BusPath, es: seq<Entry>, id: string, v: View, waiting: bool)
    requires id !in EntryIds(es) && Sound(v) && ReadableEntries(es) && v.at.Some?
    requires forall e :: e in es ==> !(|p| < |v.at.value| && v.at.value[|p|] == e.name)
    ensures OneVisit(p, es, id, v, waiting).Some? && OneVisit(p, es, id, v, waiting).value.0.at == v.at
    decreases es
  {
    hide OneEntry, OneIds, OneVisit, Passed, IsId, IsCoupler, Readable;
    if es == [] {
      VisitNone(p, id, v, waiting);
    } else {
      VisitStep(p, es, id, v, waiting);
      assert es[0] in es;
      UnlistedEntry(p, es[0], id, v, waiting);
      var (w, still) := OneEntry(p, es[0], id, v, waiting).value;
      PassedSound(p, v, w);
      StaysThere(p, es[1..], id, w, still);
    }
  }

  lemma VisitNone(p: BusPath, id: string, v: View, waiting: bool)
    ensures OneVisit(p, [], id, v, waiting) == Some((v, waiting))
  {
  }

  lemma PassedSound(p: BusPath, v: View, w: View)
    requires Passed(p, v, w)
    ensures Sound(w) && w.loads == v.loads
  {
  }

  /** Entries before the one that leads to the bus do not matter. */
  lemma SameCount(p: BusPath, es: seq<Entry>, q: BusPath, id: string, v: View, waiting: bool)
    requires GoodEntries(es) && es != [] && (q, id) in EntryPairs(p, es[1..]) && q != p && Sound(v)
    requires id !in OneIds(es[0]) && OneEntry(p, es[0], id, v, waiting).Some? && p <= q && |p| < |q|
    requires HasPorts(es[0]) ==> q[|p|] != es[0].name
    ensures var w := OneEntry(p, es[0], id, v, waiting).value.0; var after := AfterEntries(p, es[1..], q, id);
            CountedOut(w, q, after) <==> CountedOut(v, q, after)
  {
    hide IsId, IsCoupler, OneScan, OneEntry, TreePaths, OneIds, TreePairs, After;
    var w := OneEntry(p, es[0], id, v, waiting).value.0;
    var after := AfterEntries(p, es[1..], q, id);
    UnlistedEntry(p, es[0], id, v, waiting);
    AfterUnder(p, es[1..], q, id);
    PathsUnder(p, es[1..]);
    PortsNamed(es[0]);
    EntryLeaves(p, es[0], id, v, waiting, q);
    NoPortsNoLoss(p, es[0], id, v, waiting);
    forall x | x in after ensures x in w.holds <==> x in v.holds {
      EntryLeaves(p, es[0], id, v, waiting, x);
    }
    assert w.holds * after == v.holds * after;
  }

  lemma NoPortsNoLoss(p: BusPath, e: Entry, id: string, v: View, waiting: bool)
    requires id !in OneIds(e)
    ensures !HasPorts(e) ==> OneEntry(p, e, id, v, waiting) == Some((v, waiting))
  {
    hide IsCoupler;
  }

  /** Where a scan of a good tree leaves the device of an id that the tree lists, whatever was before. */
  lemma {:induction false} ListedScan(p: BusPath, d: Dir, q: BusPath, id: string, v: View)
    requires GoodDir(d) && (q, id) in TreePairs(p, d) && Sound(v)
    ensures OneScan(p, d, id, v).Some? <==> v.loads
    ensures v.loads ==> Ends(v, OneScan(p, d, id, v).value, q, After(p, d, q, id))
    decreases d, 1
  {
    hide OneVisit, EntryPairs, GoodEntries, AfterEntries;
    EntryPairsInside(p, d.entries);
    if !v.loads {
      if OneScan(p, d, id, v).Some? {
        ScanNeedsLoads(p, d, id, v);
      }
    } else if q == p {
      MetVisit(p, d.entries, id, v, p in v.lists);
    } else {
      ListedVisit(p, d.entries, q, id, v, p in v.lists);
    }
  }

  lemma {:induction false} ListedVisit(p: BusPath, es: seq<Entry>, q: BusPath, id: string, v: View, waiting: bool)
    requires GoodEntries(es) && (q, id) in EntryPairs(p, es) && q != p && Sound(v) && v.loads
    ensures OneVisit(p, es, id, v, waiting).Some?
    ensures var (w, still) := OneVisit(p, es, id, v, waiting).value; Ends(v, w, q, AfterEntries(p, es, q, id))
    decreases es, 0
  {
    hide OneEntry, OneIds, TreePaths, GoodEntry, OneVisit, EntryPaths, OneScan, Passed, IsId, IsCoupler, AfterOne,
         After;
    VisitStep(p, es, id, v, waiting);
    PairSplit(p, es, q, id);
    GoodReads(es[0]);
    if (q, id) in OnePairs(p, es[0]) {
      ListedEntry(p, es[0], q, id, v, waiting);
      var (w, still) := OneEntry(p, es[0], id, v, waiting).value;
      EndsSound(v, w, q, AfterOne(p, es[0], q, id));
      GoodEntriesReadable(es[1..]);
      UnlistedVisit(p, es[1..], id, w, still);
      if w.at.Some? {
        StaysThere(p, es[1..], id, w, still);
      }
      EndsKept(v, w, OneVisit(p, es[1..], id, w, still).value.0, q, p, AfterOne(p, es[0], q, id));
      AfterEntriesElsewhere(p, es[1..], q, id);
      assert AfterEntries(p, es, q, id) == AfterOne(p, es[0], q, id) + {};
      assert AfterOne(p, es[0], q, id) + {} == AfterOne(p, es[0], q, id);
    } else {
      UnlistedEntry(p, es[0], id, v, waiting);
      var (w, still) := OneEntry(p, es[0], id, v, waiting).value;
      PassedSound(p, v, w);
      ListedVisit(p, es[1..], q, id, w, still);
      AfterOneElsewhere(p, es[0], q, id);
      assert AfterEntries(p, es, q, id) == {} + AfterEntries(p, es[1..], q, id);
      assert {} + AfterEntries(p, es[1..], q, id) == AfterEntries(p, es[1..], q, id);
      SameCount(p, es, q, id, v, waiting);
    }
  }

  lemma {:induction false} ListedEntry(p: BusPath, e: Entry, q: BusPath, id: string, v: View, waiting: bool)
    requires GoodEntry(e) && (q, id) in OnePairs(p, e) && q != p && Sound(v) && v.loads
    ensures OneEntry(p, e, id, v, waiting).Some?
    ensures var (w, still) := OneEntry(p, e, id, v, waiting).value; Ends(v, w, q, AfterOne(p, e, q, id))
    decreases e, 3
  {
    hide IsId, IsCoupler, OneScan, DirIds, TreePaths, TreePairs, GoodDir, Canonical, After, Passed, Ends;
    var main, aux := Port(p, e.name, "main"), Port(p, e.name, "aux");
    TreePairsInside(main, e.main);
    TreePairsInside(aux, e.aux);
    GoodIsReadable(e.main);
    GoodIsReadable(e.aux);
    PortsPart(p, e.name, q);
    if (q, id) in TreePairs(main, e.main) {
      ListedScan(main, e.main, q, id, v);
      var w := OneScan(main, e.main, id, v).value;
      EndsSound(v, w, q, After(main, e.main, q, id));
      UnlistedScan(aux, e.aux, id, w);
      AfterElsewhere(aux, e.aux, q, id);
      assert After(main, e.main, q, id) + {} == After(main, e.main, q, id);
      EndsStay(v, w, OneScan(aux, e.aux, id, w).value, q, aux, After(main, e.main, q, id));
    } else {
      UnlistedScan(main, e.main, id, v);
      var w := OneScan(main, e.main, id, v).value;
      PassedSound(main, v, w);
      ListedScan(aux, e.aux, q, id, w);
      AfterElsewhere(main, e.main, q, id);
      assert {} + After(aux, e.aux, q, id) == After(aux, e.aux, q, id);
      SameCountMain(p, e, q, id, v);
      EndsSame(v, w, OneScan(aux, e.aux, id, w).value, q, After(aux, e.aux, q, id));
    }
  }

  lemma PortsPart(p: BusPath, name: string, q: BusPath)
    ensures Port(p, name, "main") <= q ==> !(Port(p, name, "aux") <= q)
  {
    assert Port(p, name, "main")[|p| + 1] == "main" && Port(p, name, "aux")[|p| + 1] == "aux";
  }

  lemma EndsSound(v: View, w: View, q: BusPath, after: set<BusPath>)
    requires Ends(v, w, q, after)
    ensures Sound(w)
  {
  }

  lemma EndsStay(v: View, w: View, u: View, q: BusPath, c: BusPath, after: set<BusPath>)
    requires Ends(v, w, q, after) && Passed(c, w, u) && !(c <= q)
    ensures Ends(v, u, q, after)
  {
  }

  lemma EndsKept(v: View, w: View, u: View, q: BusPath, p: BusPath, after: set<BusPath>)
    requires Ends(v, w, q, after) && Passed(p, w, u) && (w.at.Some? ==> u.at == w.at)
    ensures Ends(v, u, q, after)
  {
  }

  lemma EndsSame(v: View, w: View, u: View, q: BusPath, after: set<BusPath>)
    requires Ends(w, u, q, after) && (CountedOut(w, q, after) <==> CountedOut(v, q, after))
    ensures Ends(v, u, q, after)
  {
  }

  lemma SameCountMain(p: BusPath, e: Entry, q: BusPath, id: string, v: View)
    requires id !in DirIds(e.main) && Sound(v) && Port(p, e.name, "aux") <= q && Readable(e.main)
    ensures var main := Port(p, e.name, "main"); var after := After(Port(p, e.name, "aux"), e.aux, q, id);
            OneScan(main, e.main, id, v).Some? &&
            (CountedOut(OneScan(main, e.main, id, v).value, q, after) <==> CountedOut(v, q, after))
  {
    hide OneScan, DirIds, TreePaths, After, Readable;
    var main, aux := Port(p, e.name, "main"), Port(p, e.name, "aux");
    var after := After(aux, e.aux, q, id);
    UnlistedScan(main, e.main, id, v);
    var w := OneScan(main, e.main, id, v).value;
    PortsPart(p, e.name, q);
    ScanKeeps(main, e.main, id, v, q);
    AfterInside(aux, e.aux, q, id);
    forall x | x in after ensures x in w.holds <==> x in v.holds {
      PathsBelow(aux, e.aux, x);
      PortsPart(p, e.name, x);
      ScanKeeps(main, e.main, id, v, x);
    }
    assert w.holds * after == v.holds * after;
  }

  // ---------------------------------------------------------------- the registry

  /** The buses of a set whose dictionary has the registered device of the id. */
  ghost function Holding(s: Reg, paths: set<BusPath>, id: string): set<BusPath> {
    set x | x in paths && x in s.buses && Registered(s, id) && s.ids[id] in s.buses[x].devs
  }

  /** The bus lists the id although its device is elsewhere: an entry that was left behind. */
  ghost predicate Behind(s: Reg, q: BusPath, id: string) {
    ListsId(s, q, id) && !(Registered(s, id) && s.objs[s.ids[id]].bus == Some(q))
  }

  lemma {:induction false} PairOf(p: BusPath, d: Dir, id: string) returns (q: BusPath)
    requires id in DirIds(d)
    ensures (q, id) in TreePairs(p, d)
    decreases d, 1
  {
    q := EntryPairOf(p, d.entries, id);
  }

  lemma {:induction false} EntryPairOf(p: BusPath, es: seq<Entry>, id: string) returns (q: BusPath)
    requires id in EntryIds(es)
    ensures (q, id) in EntryPairs(p, es)
    decreases es, 0
  {
    hide IsId, IsCoupler;
    var e := es[0];
    if id in EntryIds(es[1..]) {
      q := EntryPairOf(p, es[1..], id);
    } else if HasPorts(e) && id in DirIds(e.main) {
      q := PairOf(Port(p, e.name, "main"), e.main, id);
    } else if HasPorts(e) && id in DirIds(e.aux) {
      q := PairOf(Port(p, e.name, "aux"), e.aux, id);
    } else {
      q := p;
    }
  }

  /** A scan of a good tree raises an exception exactly when the structure of some family cannot be loaded, whatever
      the registry held before. */
  lemma GoodScanSucceeds(s: Reg, p: BusPath, d: Dir)
    requires Valid(s) && p in s.buses && GoodDir(d)
    ensures Scan(s, p, d).1 <==> Loadable(s.structs, DirIds(d))
  {
    hide Valid, Scan, OneScan, After, TreePairs, GoodDir, ViewOf, CanonicalDir, Sound, DirIds, Loads, Family;
    CanonicalGood(d);
    ScanIsPerId(s, p, d);
    ScanLoads(s, p, d);
    if Loadable(s.structs, DirIds(d)) {
      forall id ensures OneScan(p, d, id, ViewOf(s, id)).Some? {
        ViewSound(s, id);
        ViewLoads(s, id);
        if id in DirIds(d) {
          var q := PairOf(p, d, id);
          ListedScan(p, d, q, id, ViewOf(s, id));
        } else {
          GoodIsReadable(d);
          UnlistedScan(p, d, id, ViewOf(s, id));
        }
      }
    }
  }

  /** From any valid registry, after a scan of a good tree: the device of each id the tree lists is located at the bus
      that lists it, or it is located nowhere, and that if and only if that bus had a left-behind entry of the id and
      at least three buses behind the ports of its entries from the id's own entry onward have the device in their
      dictionaries. The scan raises an exception exactly when some structure cannot be loaded. */
  lemma RescanFindsTheTree(s: Reg, p: BusPath, d: Dir, q: BusPath, id: string)
    requires Valid(s) && p in s.buses && GoodDir(d) && (q, id) in TreePairs(p, d)
    ensures var (t, ok) := Scan(s, p, d);
            Valid(t) && (ok <==> Loadable(s.structs, DirIds(d))) &&
            (ok ==>
               Registered(t, id) &&
               t.objs[t.ids[id]].bus ==
                 if Behind(s, q, id) && |Holding(s, After(p, d, q, id), id)| >= 3 then None else Some(q))
  {
    hide Valid, Scan, OneScan, After, TreePairs, GoodDir, ListsId, CanonicalDir, DirIds, Loadable;
    GoodScanSucceeds(s, p, d);
    CanonicalGood(d);
    ScanValid(s, p, d);
    var (t, ok) := Scan(s, p, d);
    if ok {
      ScanIsPerId(s, p, d);
      ViewSound(s, id);
      ListedScan(p, d, q, id, ViewOf(s, id));
      ListsLive(s, id);
      assert ViewOf(s, id).holds * After(p, d, q, id) == Holding(s, After(p, d, q, id), id);
    }
  }
}
