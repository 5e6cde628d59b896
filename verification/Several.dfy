/** Ids that several buses list, any number of times: exactly which scans raise an exception, told by the order in which
    the scan meets the id (Bus._scan_one). Each bus is scanned once. */
module Several {
  import opened Text
  import opened Registry
  import opened ScanTree
  import opened OneId
  import opened Relocation
  import R = Repeats

  // ---------------------------------------------------------------- the order

  /** The buses at which a scan meets the id, in order. */
  function Meets(p: BusPath, d: Dir, id: string): seq<BusPath>
    decreases d, 1
  {
    if d.Unreadable? then [] else MeetsIn(p, d.entries, id)
  }

  function MeetsIn(p: BusPath, es: seq<Entry>, id: string): seq<BusPath>
    decreases es, 0
  {
    if es == [] then [] else MeetsOne(p, es[0], id) + MeetsIn(p, es[1..], id)
  }

  function MeetsOne(p: BusPath, e: Entry, id: string): seq<BusPath>
    decreases e, 2
  {
    Here(p, e, id) + Below(p, e, id)
  }

  function Here(p: BusPath, e: Entry, id: string): seq<BusPath> {
    if IsId(e.name) && e.name == id then [p] else []
  }

  function Below(p: BusPath, e: Entry, id: string): seq<BusPath>
    decreases e, 1
  {
    if HasPorts(e) then Meets(Port(p, e.name, "main"), e.main, id) + Meets(Port(p, e.name, "aux"), e.aux, id) else []
  }

  /** Where the id was met last, or else where it was before. */
  function LastMet(prev: Option<BusPath>, meets: seq<BusPath>): Option<BusPath> {
    if meets == [] then prev else Some(meets[|meets| - 1])
  }

  /** How often the id is met at q just after it had been met there, or had been there before. */
  function AtHome(prev: Option<BusPath>, meets: seq<BusPath>, q: BusPath): nat
    decreases |meets|
  {
    if meets == [] then 0
    else (if meets[0] == q && prev == Some(q) then 1 else 0) + AtHome(Some(meets[0]), meets[1..], q)
  }

  lemma {:induction false} AtHomeBoth(prev: Option<BusPath>, a: seq<BusPath>, b: seq<BusPath>, q: BusPath)
    ensures AtHome(prev, a + b, q) == AtHome(prev, a, q) + AtHome(LastMet(prev, a), b, q)
    ensures LastMet(prev, a + b) == LastMet(LastMet(prev, a), b)
    decreases |a|
  {
    if a == [] {
      assert a + b == b;
    } else {
      assert (a + b)[0] == a[0] && (a + b)[1..] == a[1..] + b;
      AtHomeBoth(Some(a[0]), a[1..], b, q);
    }
  }

  lemma {:induction false} NeverMet(prev: Option<BusPath>, meets: seq<BusPath>, q: BusPath)
    requires q !in meets
    ensures AtHome(prev, meets, q) == 0
    decreases |meets|
  {
    if meets != [] {
      NeverMet(Some(meets[0]), meets[1..], q);
    }
  }

  /** No coupler twice in a directory, so that no bus is scanned twice. */
  predicate EachOnce(d: Dir)
    decreases d, 1
  {
    d.Dir? ==> EntriesOnce(d.entries)
  }

  predicate EntriesOnce(es: seq<Entry>)
    decreases es, 0
  {
    es == [] ||
    (EntriesOnce(es[1..]) &&
     (HasPorts(es[0]) ==>
        EachOnce(es[0].main) && EachOnce(es[0].aux) && forall e :: e in es[1..] ==>
        e.name != es[0].name || !HasPorts(e)))
  }

  // ---------------------------------------------------------------- which buses occur

  lemma {:induction false} MeetsInside(p: BusPath, d: Dir, id: string)
    ensures forall x :: x in Meets(p, d, id) ==> x in TreePaths(p, d)
    ensures Meets(p, d, id) != [] <==> id in DirIds(d)
    decreases d, 1
  {
    if d.Dir? {
      MeetsInInside(p, d.entries, id);
    }
  }

  lemma {:induction false} MeetsInInside(p: BusPath, es: seq<Entry>, id: string)
    ensures forall x :: x in MeetsIn(p, es, id) ==> x == p || x in EntryPaths(p, es)
    ensures MeetsIn(p, es, id) != [] <==> id in EntryIds(es)
    decreases es, 0
  {
    hide IsId, IsCoupler, Meets, TreePaths, DirIds;
    if es != [] {
      MeetsInInside(p, es[1..], id);
      MeetsOneInside(p, es[0], id);
      hide MeetsOne, HasPorts;
      assert EntryPaths(p, es) == OnePaths(p, es[0]) + EntryPaths(p, es[1..]) by { PathsOfFirst(p, es); }
    }
  }

  lemma PathsOfFirst(p: BusPath, es: seq<Entry>)
    requires es != []
    ensures EntryPaths(p, es) == OnePaths(p, es[0]) + EntryPaths(p, es[1..])
  {
  }

  lemma {:induction false} MeetsOneInside(p: BusPath, e: Entry, id: string)
    ensures forall x :: x in Below(p, e, id) ==> x in OnePaths(p, e)
    ensures forall x :: x in MeetsOne(p, e, id) ==> x == p || x in OnePaths(p, e)
    ensures MeetsOne(p, e, id) != [] <==> id in OneIds(e)
    decreases e, 2
  {
    hide IsId, IsCoupler, Meets, TreePaths, DirIds;
    if HasPorts(e) {
      MeetsInside(Port(p, e.name, "main"), e.main, id);
      MeetsInside(Port(p, e.name, "aux"), e.aux, id);
    }
  }

  lemma {:induction false} PathNames(p: BusPath, es: seq<Entry>)
    ensures forall x :: x in EntryPaths(p, es) ==> |p| < |x| && exists e :: e in es && HasPorts(e) && x[|p|] == e.name
    decreases es
  {
    hide IsId, IsCoupler, TreePaths;
    if es != [] {
      PathNames(p, es[1..]);
      OneUnder(p, es[0]);
      assert es == [es[0]] + es[1..];
    }
  }

  lemma OnceApart(p: BusPath, es: seq<Entry>)
    requires es != [] && EntriesOnce(es)
    ensures OnePaths(p, es[0]) !! EntryPaths(p, es[1..]) && p !in OnePaths(p, es[0]) && p !in EntryPaths(p, es[1..])
    ensures EntryPaths(p, es) == OnePaths(p, es[0]) + EntryPaths(p, es[1..])
  {
    hide IsId, IsCoupler, TreePaths, EachOnce;
    OneUnder(p, es[0]);
    PathNames(p, es[1..]);
  }

  // ---------------------------------------------------------------- one id

  predicate Agrees(v: View, prev: Option<BusPath>, x: BusPath) {
    v.at == Some(x) <==> prev == Some(x)
  }

  ghost predicate AgreesOn(v: View, prev: Option<BusPath>, paths: set<BusPath>) {
    forall x :: x in paths ==> Agrees(v, prev, x)
  }

  /** Where it already is, an id is met at most once, and only if the bus had an entry of it before. */
  ghost predicate InOrder(v: View, prev: Option<BusPath>, meets: seq<BusPath>, paths: set<BusPath>) {
    (meets != [] ==> v.loads) && forall q :: q in paths ==> AtHome(prev, meets, q) <= if q in v.lists then 1 else 0
  }

  /** What is known after scanning some buses, about all others. */
  ghost predicate Follows(v: View, w: View, prev: Option<BusPath>, meets: seq<BusPath>, paths: set<BusPath>) {
    Sound(w) && w.loads == v.loads &&
    forall x :: x !in paths ==>
      (x in w.lists <==> x in v.lists) && (Agrees(v, prev, x) ==> Agrees(w, LastMet(prev, meets), x))
  }

  lemma OrderSplit(v: View, w: View, prev: Option<BusPath>, a: seq<BusPath>, b: seq<BusPath>,
                   pa: set<BusPath>, pb: set<BusPath>)
    requires w.loads == v.loads && pa !! pb && forall x :: x in pb ==> (x in w.lists <==> x in v.lists)
    requires (forall x :: x in pa ==> x !in b) && (forall x :: x in pb ==> x !in a)
    ensures InOrder(v, prev, a + b, pa + pb) <==> InOrder(v, prev, a, pa) && InOrder(w, LastMet(prev, a), b, pb)
  {
    hide LastMet;
    forall q | q in pa + pb
      ensures AtHome(prev, a + b, q) == if q in pa then AtHome(prev, a, q) else AtHome(LastMet(prev, a), b, q) {
      AtHomeBoth(prev, a, b, q);
      if q in pa {
        NeverMet(LastMet(prev, a), b, q);
      } else {
        NeverMet(prev, a, q);
      }
    }
    forall q | q in pa ensures AtHome(prev, a + b, q) == AtHome(prev, a, q) {
      assert q in pa + pb;
    }
    forall q | q in pb ensures AtHome(prev, a + b, q) == AtHome(LastMet(prev, a), b, q) {
      assert q in pa + pb;
    }
  }

  lemma FollowsTwice(v: View, w: View, u: View, prev: Option<BusPath>, a: seq<BusPath>, b: seq<BusPath>,
                     pa: set<BusPath>, pb: set<BusPath>)
    requires Follows(v, w, prev, a, pa) && Follows(w, u, LastMet(prev, a), b, pb)
    ensures Follows(v, u, prev, a + b, pa + pb)
  {
    assert LastMet(prev, a + b) == LastMet(LastMet(prev, a), b);
  }

  /** What is outside the scanned buses is as it was, so that the next scan can go on. */
  lemma AgreesAfter(v: View, w: View, prev: Option<BusPath>, meets: seq<BusPath>, a: set<BusPath>, b: set<BusPath>)
    requires Follows(v, w, prev, meets, a) && AgreesOn(v, prev, b) && a !! b
    ensures AgreesOn(w, LastMet(prev, meets), b) && forall x :: x in b ==> (x in w.lists <==> x in v.lists)
  {
    hide Agrees, LastMet;
  }

  lemma AgreesFewer(v: View, prev: Option<BusPath>, a: set<BusPath>, b: set<BusPath>)
    requires AgreesOn(v, prev, a) && b <= a
    ensures AgreesOn(v, prev, b)
  {
  }

  lemma AgreesOne(v: View, prev: Option<BusPath>, p: BusPath)
    ensures AgreesOn(v, prev, {p}) <==> Agrees(v, prev, p)
  {
  }

  lemma InOrderHere(v: View, prev: Option<BusPath>, m: seq<BusPath>, paths: set<BusPath>, p: BusPath)
    ensures InOrder(v, prev, m, {p} + paths) <==>
            InOrder(v, prev, m, paths) && AtHome(prev, m, p) <= if p in v.lists then 1 else 0
  {
  }

  lemma FollowsMissed(v: View, w: View, prev: Option<BusPath>, m: seq<BusPath>, paths: set<BusPath>, p: BusPath)
    requires Follows(v, w, prev, m, paths) && p in paths
    ensures Follows(v, Miss(p, w), prev, m, paths)
  {
  }

  lemma OrderNone(v: View, prev: Option<BusPath>, p: BusPath)
    requires Sound(v)
    ensures InOrder(v, prev, [], {}) && AtHome(prev, [], p) == 0 && LastMet(prev, []) == prev
    ensures Follows(v, v, prev, [], {p} + {})
  {
    assert forall q :: AtHome(prev, [], q) == 0;
  }

  lemma FollowsSound(v: View, w: View, prev: Option<BusPath>, m: seq<BusPath>, paths: set<BusPath>)
    requires Follows(v, w, prev, m, paths)
    ensures Sound(w) && w.loads == v.loads
  {
  }

  lemma NoPorts(p: BusPath, e: Entry, id: string)
    requires !HasPorts(e)
    ensures Below(p, e, id) == [] && OnePaths(p, e) == {} && R.PortsReadable(e)
  {
  }

  lemma FollowsAt(v: View, w: View, prev: Option<BusPath>, m: seq<BusPath>, paths: set<BusPath>, p: BusPath)
    requires Follows(v, w, prev, m, paths) && p !in paths && Agrees(v, prev, p)
    ensures Agrees(w, LastMet(prev, m), p)
  {
  }

  /** Meeting the id itself. */
  lemma MetOrder(p: BusPath, e: Entry, id: string, v: View, waiting: bool, prev: Option<BusPath>)
    requires Sound(v) && Agrees(v, prev, p) && AgreesOn(v, prev, OnePaths(p, e)) && p !in OnePaths(p, e)
    ensures var here := Here(p, e, id);
            var met := if IsId(e.name) && e.name == id then Met(p, v, waiting) else Some((v, waiting));
            (met.Some? <==> InOrder(v, prev, here, {}) && AtHome(prev, here, p) <= if waiting then 1 else 0) &&
            (met.Some? ==>
               var (w, still) := met.value;
               Follows(v, w, prev, here, {p}) && AgreesOn(w, LastMet(prev, here), OnePaths(p, e)) &&
               Agrees(w, LastMet(prev, here), p) && still == (waiting && AtHome(prev, here, p) == 0) &&
               forall x :: x in OnePaths(p, e) ==> (x in w.lists <==> x in v.lists))
  {
    hide IsId, OnePaths;
    var none: seq<BusPath> := [];
    assert [p][1..] == none && forall q, r :: AtHome(q, none, r) == 0;
  }

  lemma {:induction false} OrderScan(p: BusPath, d: Dir, id: string, v: View, prev: Option<BusPath>)
    requires EachOnce(d) && Sound(v) && AgreesOn(v, prev, TreePaths(p, d))
    ensures var m := Meets(p, d, id);
            (OneScan(p, d, id, v).Some? <==> Readable(d) && InOrder(v, prev, m, TreePaths(p, d))) &&
            (OneScan(p, d, id, v).Some? ==> Follows(v, OneScan(p, d, id, v).value, prev, m, TreePaths(p, d)))
    decreases d, 1
  {
    hide OneVisit, MeetsIn, EntryPaths, EntriesOnce, InOrder, Follows, AgreesOn, Sound;
    if d.Dir? {
      var m, waiting := MeetsIn(p, d.entries, id), p in v.lists;
      AgreesFewer(v, prev, TreePaths(p, d), EntryPaths(p, d.entries));
      AgreesFewer(v, prev, TreePaths(p, d), {p});
      AgreesOne(v, prev, p);
      OrderVisit(p, d.entries, id, v, waiting, prev);
      InOrderHere(v, prev, m, EntryPaths(p, d.entries), p);
      if OneVisit(p, d.entries, id, v, waiting).Some? {
        var (w, still) := OneVisit(p, d.entries, id, v, waiting).value;
        FollowsMissed(v, w, prev, m, TreePaths(p, d), p);
      }
    }
  }

  /** The entries of one directory. Its own bus is met as often as the id occurs in it; waiting is its allowance. */
  lemma {:induction false} OrderVisit(p: BusPath, es: seq<Entry>, id: string, v: View, waiting: bool,
                                      prev: Option<BusPath>)
    requires EntriesOnce(es) && Sound(v) && Agrees(v, prev, p) && AgreesOn(v, prev, EntryPaths(p, es))
    ensures var m, paths := MeetsIn(p, es, id), EntryPaths(p, es);
            (OneVisit(p, es, id, v, waiting).Some? <==>
               ReadableEntries(es) && InOrder(v, prev, m, paths) && AtHome(prev, m, p) <= if waiting then 1 else 0) &&
            (OneVisit(p, es, id, v, waiting).Some? ==>
               var (w, still) := OneVisit(p, es, id, v, waiting).value;
               Follows(v, w, prev, m, {p} + paths) && Agrees(w, LastMet(prev, m), p) &&
               still == (waiting && AtHome(prev, m, p) == 0))
    decreases es, 0
  {
    hide OneVisit, OneEntry, MeetsOne, TreePaths, InOrder, Follows, AgreesOn, Agrees, Sound, IsId, IsCoupler, AtHome,
         LastMet, EachOnce, Readable;
    if es == [] {
      VisitNone(p, id, v, waiting);
      OrderNone(v, prev, p);
    } else {
      var e, a, b := es[0], MeetsOne(p, es[0], id), MeetsIn(p, es[1..], id);
      var pa, pb := OnePaths(p, e), EntryPaths(p, es[1..]);
      VisitStep(p, es, id, v, waiting);
      OnceApart(p, es);
      AgreesFewer(v, prev, EntryPaths(p, es), pa);
      AgreesFewer(v, prev, EntryPaths(p, es), pb);
      OrderEntry(p, e, id, v, waiting, prev);
      MeetsOneInside(p, e, id);
      MeetsInInside(p, es[1..], id);
      AtHomeBoth(prev, a, b, p);
      if OneEntry(p, e, id, v, waiting).Some? {
        var (w, still) := OneEntry(p, e, id, v, waiting).value;
        FollowsSound(v, w, prev, a, {p} + pa);
        AgreesAfter(v, w, prev, a, {p} + pa, pb);
        OrderVisit(p, es[1..], id, w, still, LastMet(prev, a));
        OrderSplit(v, w, prev, a, b, pa, pb);
        if OneVisit(p, es[1..], id, w, still).Some? {
          FollowsTwice(v, w, OneVisit(p, es[1..], id, w, still).value.0, prev, a, b, {p} + pa, {p} + pb);
          assert {p} + pa + ({p} + pb) == {p} + EntryPaths(p, es);
        }
      } else {
        OrderSplit(v, v, prev, a, b, pa, pb);
      }
    }
  }

  lemma {:induction false} OrderEntry(p: BusPath, e: Entry, id: string, v: View, waiting: bool, prev: Option<BusPath>)
    requires (HasPorts(e) ==> EachOnce(e.main) && EachOnce(e.aux)) && Sound(v)
    requires Agrees(v, prev, p) && AgreesOn(v, prev, OnePaths(p, e)) && p !in OnePaths(p, e)
    ensures var m, paths := MeetsOne(p, e, id), OnePaths(p, e);
            (OneEntry(p, e, id, v, waiting).Some? <==>
               R.PortsReadable(e) && InOrder(v, prev, m, paths) && AtHome(prev, m, p) <= if waiting then 1 else 0) &&
            (OneEntry(p, e, id, v, waiting).Some? ==>
               var (w, still) := OneEntry(p, e, id, v, waiting).value;
               Follows(v, w, prev, m, {p} + paths) && Agrees(w, LastMet(prev, m), p) &&
               still == (waiting && AtHome(prev, m, p) == 0))
    decreases e, 3
  {
    hide IsId, IsCoupler, BothPorts, Below, OnePaths, InOrder, Follows, EachOnce, Sound, R.PortsReadable, AtHome;
    var here, below, paths := Here(p, e, id), Below(p, e, id), OnePaths(p, e);
    MeetsOneInside(p, e, id);
    AtHomeBoth(prev, here, below, p);
    NeverMet(LastMet(prev, here), below, p);
    MetOrder(p, e, id, v, waiting, prev);
    var met := if IsId(e.name) && e.name == id then Met(p, v, waiting) else Some((v, waiting));
    if met.Some? {
      var (w, still) := met.value;
      FollowsSound(v, w, prev, here, {p});
      OrderSplit(v, w, prev, here, below, {}, paths);
      assert {} + paths == paths;
      if HasPorts(e) {
        OrderPorts(p, e, id, w, LastMet(prev, here));
        if BothPorts(p, e, id, w).Some? {
          FollowsTwice(v, w, BothPorts(p, e, id, w).value, prev, here, below, {p}, paths);
          FollowsAt(w, BothPorts(p, e, id, w).value, LastMet(prev, here), below, paths, p);
          assert LastMet(prev, here + below) == LastMet(LastMet(prev, here), below);
        }
      } else {
        NoPorts(p, e, id);
        OrderNone(w, LastMet(prev, here), p);
        assert here + [] == here;
        assert {p} + {} == {p};
      }
    } else {
      OrderSplit(v, v, prev, here, below, {}, paths);
      assert {} + paths == paths;
    }
  }

  lemma {:induction false} OrderPorts(p: BusPath, e: Entry, id: string, v: View, prev: Option<BusPath>)
    requires HasPorts(e) && EachOnce(e.main) && EachOnce(e.aux) && Sound(v) && AgreesOn(v, prev, OnePaths(p, e))
    ensures var m, paths := Below(p, e, id), OnePaths(p, e);
            (BothPorts(p, e, id, v).Some? <==> R.PortsReadable(e) && InOrder(v, prev, m, paths)) &&
            (BothPorts(p, e, id, v).Some? ==> Follows(v, BothPorts(p, e, id, v).value, prev, m, paths))
    decreases e, 2
  {
    hide IsId, IsCoupler, OneScan, Meets, TreePaths, InOrder, Follows, AgreesOn, Sound, EachOnce, Readable, LastMet;
    var main, aux := Port(p, e.name, "main"), Port(p, e.name, "aux");
    var a, b, pa, pb := Meets(main, e.main, id), Meets(aux, e.aux, id), TreePaths(main, e.main), TreePaths(aux, e.aux);
    OneUnder(p, e);
    MeetsInside(main, e.main, id);
    MeetsInside(aux, e.aux, id);
    AgreesFewer(v, prev, OnePaths(p, e), pa);
    AgreesFewer(v, prev, OnePaths(p, e), pb);
    OrderScan(main, e.main, id, v, prev);
    if OneScan(main, e.main, id, v).Some? {
      var w := OneScan(main, e.main, id, v).value;
      FollowsSound(v, w, prev, a, pa);
      AgreesAfter(v, w, prev, a, pa, pb);
      OrderScan(aux, e.aux, id, w, LastMet(prev, a));
      OrderSplit(v, w, prev, a, b, pa, pb);
      if OneScan(aux, e.aux, id, w).Some? {
        FollowsTwice(v, w, OneScan(aux, e.aux, id, w).value, prev, a, b, pa, pb);
      }
    } else {
      OrderSplit(v, v, prev, a, b, pa, pb);
    }
  }

  // ---------------------------------------------------------------- the registry

  function PlaceOf(s: Reg, id: string): Option<BusPath> {
    if id in s.ids && s.ids[id] < |s.objs| then s.objs[s.ids[id]].bus else None
  }

  /** No bus meets the id where it already is more often than once, or at all if the bus had no entry of it before. */
  ghost predicate Orderly(s: Reg, p: BusPath, d: Dir, id: string) {
    forall q :: q in TreePaths(p, d) ==>
      AtHome(PlaceOf(s, id), Meets(p, d, id), q) <= if ListsId(s, q, id) then 1 else 0
  }

  lemma OrderlyPerId(s: Reg, p: BusPath, d: Dir, id: string)
    requires Valid(s) && EachOnce(d)
    ensures OneScan(p, d, id, ViewOf(s, id)).Some? <==>
            Readable(d) && (id in DirIds(d) ==> Loads(s.structs, Family(id))) && Orderly(s, p, d, id)
  {
    hide Valid, OneScan, EachOnce, Readable, TreePaths, Meets, AtHome, ListsId, Sound, DirIds, Loads, Family;
    ViewSound(s, id);
    ListsLive(s, id);
    MeetsInside(p, d, id);
    OrderScan(p, d, id, ViewOf(s, id), PlaceOf(s, id));
  }

  /** From any valid registry, a scan that meets no bus twice succeeds if and only if every directory can be read, every
      structure can be loaded, and each id is met in order. */
  lemma ScanSucceedsInOrder(s: Reg, p: BusPath, d: Dir)
    requires Valid(s) && p in s.buses && CanonicalDir(d) && EachOnce(d)
    ensures Scan(s, p, d).1 <==> Readable(d) && Loadable(s.structs, DirIds(d)) && forall id :: Orderly(s, p, d, id)
  {
    hide Valid, Scan, OneScan, CanonicalDir, EachOnce, Readable, ViewOf, DirIds, Loads, Family, Orderly;
    ScanIsPerId(s, p, d);
    forall id
      ensures OneScan(p, d, id, ViewOf(s, id)).Some? <==>
              Readable(d) && (id in DirIds(d) ==> Loads(s.structs, Family(id))) && Orderly(s, p, d, id) {
      OrderlyPerId(s, p, d, id);
    }
    if Scan(s, p, d).1 {
      assert OneScan(p, d, "", ViewOf(s, "")).Some?;
    }
  }

  // ---------------------------------------------------------------- repeated couplers

  /** A coupler twice: first nothing is listed behind it, then another coupler, with the id behind that, and the id
      itself twice. */
  function Doubled(c: string, f: string, x: string): Dir {
    var none := Dir([]);
    Dir([Entry(c, none, none), Entry(c, Dir(Again(f, x)), none)])
  }

  function Again(f: string, x: string): seq<Entry> {
    var it := Entry(x, Unreadable, Unreadable);
    [Entry(f, Dir([it]), Dir([])), it, it]
  }

  lemma ScanNone(p: BusPath, x: string, v: View)
    ensures OneScan(p, Dir([]), x, v) == Some(if p in v.lists then Miss(p, v) else v)
  {
  }

  lemma ScanJust(p: BusPath, x: string, v: View)
    requires IsId(x) && !IsCoupler(x) && p !in v.lists && v.at != Some(p) && v.loads
    ensures OneScan(p, Dir([Entry(x, Unreadable, Unreadable)]), x, v) == Some(Met(p, v, false).value.0)
  {
    hide IsId, IsCoupler;
    VisitStep(p, [Entry(x, Unreadable, Unreadable)], x, v, false);
    VisitNone(p, x, Met(p, v, false).value.0, false);
    assert [Entry(x, Unreadable, Unreadable)][1..] == [];
  }

  lemma AgainVisit(p: BusPath, f: string, x: string, v: View, waiting: bool)
    requires IsId(x) && !IsCoupler(x) && IsId(f) && IsCoupler(f)
    requires v.loads && (forall q :: q in v.lists ==> |q| <= |p|) && (v.at.Some? ==> |v.at.value| <= |p|)
    ensures OneVisit(p, Again(f, x), x, v, waiting).Some? <==> waiting
  {
    hide IsId, IsCoupler, OneScan;
    var it, es, main, aux := Entry(x, Unreadable, Unreadable), Again(f, x), Port(p, f, "main"), Port(p, f, "aux");
    assert main[|p| + 1] == "main" && aux[|p| + 1] == "aux";
    var w := Met(main, v, false).value.0;
    ScanJust(main, x, v);
    ScanNone(aux, x, w);
    VisitStep(p, es, x, v, waiting);
    assert es[1..] == [it, it] && [it, it][1..] == [it] && [it][1..] == [];
    VisitStep(p, [it, it], x, w, waiting);
    VisitStep(p, [it], x, Met(p, w, waiting).value.0, waiting);
  }

  /** Where couplers are repeated, the order of meetings and the entries do not decide: here only the device's counter
      of missed scans does, because the first listing may lose the device. */
  lemma CounterDecides(b: BusPath, c: string, f: string, x: string, unseen: nat)
    requires IsId(c) && IsCoupler(c) && IsId(f) && IsCoupler(f) && IsId(x) && !IsCoupler(x)
    ensures var p := Port(b, c, "main");
            OneScan(b, Doubled(c, f, x), x, View(Some(p), unseen, {p}, {p}, true)).Some? <==> unseen <= 2
  {
    hide IsId, IsCoupler, OneScan, Again;
    var none, p, q := Dir([]), Port(b, c, "main"), Port(b, c, "aux");
    var v := View(Some(p), unseen, {p}, {p}, true);
    var first, second, es := Entry(c, none, none), Entry(c, Dir(Again(f, x)), none), Doubled(c, f, x).entries;
    assert p[|b| + 1] == "main" && q[|b| + 1] == "aux";
    ScanNone(p, x, v);
    var w := Miss(p, v);
    ScanNone(q, x, w);
    VisitStep(b, es, x, v, false);
    assert es[1..] == [second] && [second][1..] == [];
    VisitStep(b, [second], x, w, false);
    AgainVisit(p, f, x, w, unseen <= 2);
    ScanFirst(b, Doubled(c, f, x), x, v);
    ScanFirst(p, Dir(Again(f, x)), x, w);
    if unseen <= 2 {
      var u := OneScan(p, Dir(Again(f, x)), x, w).value;
      ScanNone(q, x, u);
    }
  }

  lemma ScanFirst(p: BusPath, d: Dir, x: string, v: View)
    requires d.Dir?
    ensures OneScan(p, d, x, v).Some? <==> OneVisit(p, d.entries, x, v, p in v.lists).Some?
  {
  }
}
