/** What a scan of the whole server finds (Server._scan_base): every bus's tree, and a second scan changes nothing. */
module ScanServer {
  import opened Text
  import opened Registry
  import opened ScanTree
  import Teardown

  /** The names that _scan_base takes for buses. */
  predicate IsBusName(name: string) {
    "bus." <= name
  }

  function BusNames(es: seq<(string, Dir)>): set<string> {
    if es == [] then {} else (if IsBusName(es[0].0) then {es[0].0} else {}) + BusNames(es[1..])
  }

  function ServerIds(es: seq<(string, Dir)>): set<string> {
    if es == [] then {} else (if IsBusName(es[0].0) then DirIds(es[0].1) else {}) + ServerIds(es[1..])
  }

  /** The device entries of all buses. */
  function ServerPairs(es: seq<(string, Dir)>): set<(BusPath, string)> {
    if es == [] then {}
    else (if IsBusName(es[0].0) then TreePairs([es[0].0], es[0].1) else {}) + ServerPairs(es[1..])
  }

  function ServerPaths(es: seq<(string, Dir)>): set<BusPath> {
    if es == [] then {}
    else (if IsBusName(es[0].0) then TreePaths([es[0].0], es[0].1) else {}) + ServerPaths(es[1..])
  }

  /** Buses with different names and good trees, no device on two of them. Entries of other names do not matter. */
  predicate GoodServer(es: seq<(string, Dir)>) {
    es == [] ||
    (GoodServer(es[1..]) &&
     (IsBusName(es[0].0) ==>
        GoodDir(es[0].1) && es[0].0 !in BusNames(es[1..]) && DirIds(es[0].1) !! ServerIds(es[1..])))
  }

  ghost predicate NewNames(s: Reg, es: seq<(string, Dir)>) {
    forall n :: n in BusNames(es) ==> [n] !in s.tops
  }

  /** What scanning buses of some names, over some ids, leaves alone. */
  ghost predicate Spared(s: Reg, t: Reg, names: set<string>, ids: set<string>) {
    |s.objs| <= |t.objs| && Advanced(s.structs, t.structs) &&
    (forall id :: id in s.ids ==> id in t.ids && t.ids[id] == s.ids[id]) &&
    (forall r :: 0 <= r < |s.objs| ==> t.objs[r].id == s.objs[r].id) &&
    (forall r :: 0 <= r < |s.objs| && s.objs[r].id !in ids ==> t.objs[r] == s.objs[r]) &&
    (forall q :: q in s.tops ==> q in t.tops) &&
    (forall q :: q in t.tops && q !in s.tops ==> |q| == 1 && q[0] in names) &&
    (forall q :: q in s.buses && q != [] && q[0] !in names ==> q in t.buses && t.buses[q] == s.buses[q])
  }

  lemma SparedTwice(s: Reg, t: Reg, u: Reg, a: set<string>, b: set<string>, x: set<string>, y: set<string>)
    requires Spared(s, t, a, x) && Spared(t, u, b, y)
    ensures Spared(s, u, a + b, x + y)
  {
  }

  /** Every bus of the server is in step with its directory. */
  ghost predicate ServerInStep(s: Reg, es: seq<(string, Dir)>) {
    es == [] ||
    (ServerInStep(s, es[1..]) && (IsBusName(es[0].0) ==> [es[0].0] in s.tops && InStep(s, [es[0].0], es[0].1)))
  }

  lemma TopParts(s: Reg, name: string)
    requires Valid(s) && [name] !in s.tops
    ensures [name] !in s.buses
  {
    hide Parent, Replay;
    NotListedNotLive(s, [name]);
  }

  /** One new bus. */
  lemma BusScanned(s: Reg, name: string, d: Dir)
    requires Valid(s) && [name] !in s.tops && GoodDir(d) && Loadable(s.structs, DirIds(d))
    ensures [name] !in s.buses
    ensures var (t, ok) := Scan(GetTopBus(s, name), [name], d);
            ok && Valid(t) && InStep(t, [name], d) && [name] in t.tops && Spared(s, t, {name}, DirIds(d)) &&
            t.buses.Keys <= s.buses.Keys + TreePaths([name], d)
  {
    hide Valid, Scan, InStep, DirIds, TreePaths, GoodDir, Loadable;
    GetTopBusValid(s, name);
    TopParts(s, name);
    var s1 := GetTopBus(s, name);
    ScanFresh(s1, [name], d);
    RootInTree([name], d);
  }

  /** Buses of other names stay in step. */
  lemma {:induction false} BusKept(s: Reg, t: Reg, name: string, d: Dir, names: set<string>, ids: set<string>)
    requires IdsValid(s) && InStep(s, [name], d) && [name] in s.tops && Spared(s, t, names, ids)
    requires name !in names && DirIds(d) !! ids
    ensures InStep(t, [name], d) && [name] in t.tops
  {
    hide InStep, DirIds;
    InStepLive(s, [name], d);
    InStepKept(s, t, [name], d);
  }

  lemma {:induction false} ServerKept(s: Reg, t: Reg, es: seq<(string, Dir)>, names: set<string>, ids: set<string>)
    requires IdsValid(s) && ServerInStep(s, es) && Spared(s, t, names, ids)
    requires BusNames(es) !! names && ServerIds(es) !! ids
    ensures ServerInStep(t, es)
  {
    hide InStep, DirIds, Spared, IsBusName;
    if es != [] {
      ServerKept(s, t, es[1..], names, ids);
      if IsBusName(es[0].0) {
        BusKept(s, t, es[0].0, es[0].1, names, ids);
      }
    }
  }

  lemma {:induction false} BaseLoads(s: Reg, es: seq<(string, Dir)>)
    ensures var (t, ok) := ScanBase(s, es);
            Advanced(s.structs, t.structs) && (ok ==> Loadable(s.structs, ServerIds(es)))
    decreases |es|
  {
    hide Scan, DirIds, Advanced;
    AdvancedSame(s.structs);
    if es != [] {
      if IsBusName(es[0].0) {
        var s1 := GetTopBus(s, es[0].0);
        var (t, ok) := Scan(s1, [es[0].0], es[0].1);
        ScanLoads(s1, [es[0].0], es[0].1);
        BaseLoads(t, es[1..]);
        AdvancedTwice(s.structs, t.structs, ScanBase(t, es[1..]).0.structs);
        AdvancedLoads(s.structs, t.structs, ServerIds(es[1..]));
      } else {
        BaseLoads(s, es[1..]);
      }
    }
  }

  /** One scan of a server whose buses are all new, whatever else the registry holds: it succeeds exactly when the
      structures can be loaded; then every bus is in step with its directory, and nothing else is touched. */
  lemma {:induction false} ScanBaseFresh(s: Reg, es: seq<(string, Dir)>)
    requires Valid(s) && GoodServer(es) && NewNames(s, es)
    ensures var (t, ok) := ScanBase(s, es);
            (ok <==> Loadable(s.structs, ServerIds(es))) &&
            (ok ==> Valid(t) && ServerInStep(t, es) && Spared(s, t, BusNames(es), ServerIds(es)) &&
                    t.buses.Keys <= s.buses.Keys + ServerPaths(es))
    decreases |es|
  {
    hide Valid, Scan, GetTopBus, GoodDir, InStep, DirIds, TreePaths;
    BaseLoads(s, es);
    if es != [] && Loadable(s.structs, ServerIds(es)) {
      var (name, d) := es[0];
      if IsBusName(name) {
        BusScanned(s, name, d);
        var t := Scan(GetTopBus(s, name), [name], d).0;
        AdvancedLoads(s.structs, t.structs, ServerIds(es[1..]));
        ScanBaseFresh(t, es[1..]);
        var u := ScanBase(t, es[1..]).0;
        SparedTwice(s, t, u, {name}, BusNames(es[1..]), DirIds(d), ServerIds(es[1..]));
        ValidParts(t);
        BusKept(t, u, name, d, BusNames(es[1..]), ServerIds(es[1..]));
      } else {
        ScanBaseFresh(s, es[1..]);
      }
    }
  }

  lemma {:induction false} ScanBaseAgain(s: Reg, es: seq<(string, Dir)>)
    requires Valid(s) && GoodServer(es) && ServerInStep(s, es)
    ensures ScanBase(s, es) == (s, true)
    decreases |es|
  {
    hide Valid, Scan, GoodDir, InStep, DirIds;
    if es != [] {
      if IsBusName(es[0].0) {
        ScanAgain(s, [es[0].0], es[0].1);
      }
      ScanBaseAgain(s, es[1..]);
    }
  }

  /** The server's buses are scanned, and scanned again: the second time nothing changes and nothing is announced, or
      both scans raise an exception. */
  lemma SecondServerScan(s: Reg, es: seq<(string, Dir)>)
    requires Valid(s) && GoodServer(es) && NewNames(s, es)
    ensures var (t, ok) := ScanBase(s, es); if ok then ScanBase(t, es) == (t, true) else !ScanBase(t, es).1
  {
    hide Valid, ScanBase, GoodServer, ServerInStep, Spared, Loadable, ServerIds;
    ScanBaseFresh(s, es);
    var (t, ok) := ScanBase(s, es);
    if ok {
      ScanBaseAgain(t, es);
    } else {
      BaseLoads(s, es);
      BaseLoads(t, es);
      AdvancedLoads(s.structs, t.structs, ServerIds(es));
    }
  }

  lemma {:induction false} PairsOfServer(s: Reg, es: seq<(string, Dir)>, q: BusPath, id: string)
    requires ServerInStep(s, es)
    ensures (q, id) in ServerPairs(es) <==> q in ServerPaths(es) && ListsId(s, q, id)
    ensures (q, id) in ServerPairs(es) ==> DeviceAt(s, q, id)
  {
    hide InStep, ListsId, DeviceAt, TreePairs, TreePaths, IsBusName;
    if es != [] {
      PairsOfServer(s, es[1..], q, id);
      if IsBusName(es[0].0) {
        PairsOfTree(s, [es[0].0], es[0].1, q, id);
      }
    }
  }

  lemma NotUnderNew(s: Reg, name: string, q: BusPath)
    requires TreeValid(s) && [name] !in s.tops && [name] <= q
    ensures q !in s.buses
  {
    NotListedNotLive(s, [name]);
    if q in s.buses {
      Teardown.LiveLength(s, q);
      AncestorLive(s, [name], q);
    }
  }

  /** The paths of new buses were not live. */
  lemma {:induction false} ServerPathsNew(s: Reg, es: seq<(string, Dir)>, q: BusPath)
    requires Valid(s) && NewNames(s, es) && q in ServerPaths(es)
    ensures q !in s.buses
  {
    hide Valid, TreePaths;
    var (name, d) := es[0];
    if q in ServerPaths(es[1..]) {
      ServerPathsNew(s, es[1..], q);
    } else {
      PathsBelow([name], d, q);
      ValidParts(s);
      NotUnderNew(s, name, q);
    }
  }

  /** After one scan of the whole server: on the buses that are new, the listed (bus, id) pairs are exactly the device
      entries of the server's trees, and each of these devices is located there. With an empty registry all buses are
      new. */
  lemma ServerScanFindsTheTrees(s: Reg, es: seq<(string, Dir)>, q: BusPath, id: string)
    requires Valid(s) && GoodServer(es) && NewNames(s, es)
    ensures var (t, ok) := ScanBase(s, es);
            (ok <==> Loadable(s.structs, ServerIds(es))) &&
            (ok ==> Valid(t) && (q !in s.buses && ListsId(t, q, id) <==> (q, id) in ServerPairs(es)) &&
                    ((q, id) in ServerPairs(es) ==> DeviceAt(t, q, id)))
  {
    hide Valid, ScanBase, GoodServer, ServerInStep, Spared, DeviceAt, ServerPaths, ServerPairs, NewNames, ServerIds,
         Loadable;
    ScanBaseFresh(s, es);
    var (t, ok) := ScanBase(s, es);
    if ok {
      PairsOfServer(t, es, q, id);
      if q in ServerPaths(es) {
        ServerPathsNew(s, es, q);
      }
      assert ListsId(t, q, id) ==> q in t.buses.Keys;
    }
  }
}
