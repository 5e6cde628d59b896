/** Bus.add_device when the device has polling intervals (bus.py, device.py): Device.locate sets the bus and announces
    it before it restarts the poll tasks, and an interval without a getter makes that raise. */
module Locating {
  import opened Text
  import opened Registry
  import opened ScanTree
  import P = Polling

  /** Bus.add_device: the dictionary entry follows the location, unless locating has raised. */
  function AddPolled(s: Reg, p: BusPath, r: nat, o: P.Offers, polls: P.Polls, bus: nat, order: seq<string>)
    : (Reg, P.Polls, bool)
    requires HasBus(s, p) && r < |s.objs| && P.Enumerates(order, polls.intervals.Keys)
  {
    var (after, ok) := P.LocateAt(o, polls, bus, order);
    (if ok then AddDevice(s, p, r) else Locate(s, p, r), after, ok)
  }

  /** A device's poll tasks follow its intervals, and its polling state knows the same place as the registry; numbers
      stand for buses there. */
  ghost predicate InAgreement(s: Reg, p: BusPath, r: nat, polls: P.Polls, bus: nat)
    requires r < |s.objs|
  {
    P.OneTaskEach(polls) && P.Follows(polls) && (forall k :: k in polls.intervals ==> polls.intervals[k] > 0.0) &&
    (polls.bus == Some(bus) <==> s.objs[r].bus == Some(p))
  }

  /** Device.locate alone. */
  lemma LocateValidIff(s: Reg, p: BusPath, r: nat)
    requires Valid(s) && p in s.buses && r < |s.objs|
    ensures Journalled(Locate(s, p, r)) <==> IsRegistered(s, r)
    ensures Valid(Locate(s, p, r)) <==> IsRegistered(s, r) && r in s.buses[p].devs
  {
    hide Replay, SnapshotOf, TreeValid, DictsValid;
    var t := Locate(s, p, r);
    LocateJournalledIff(s, p, r);
    ShapeKept(s, t);
    ListingsKept(s, t);
    assert t.objs[r].bus == Some(p);
  }

  /** add_device raises exactly when the device is elsewhere and has an interval without a getter. The journal survives
      exactly for a registered device object; the invariant does if, besides, nothing was raised or the bus had already
      listed the device. */
  lemma AddPolledValidIff(s: Reg, p: BusPath, r: nat, o: P.Offers, polls: P.Polls, bus: nat, order: seq<string>)
    requires Valid(s) && p in s.buses && r < |s.objs|
    requires InAgreement(s, p, r, polls, bus) && P.Enumerates(order, polls.intervals.Keys)
    ensures HasBus(s, p)
    ensures var (t, after, ok) := AddPolled(s, p, r, o, polls, bus, order);
            (ok <==> s.objs[r].bus == Some(p) || P.Pollable(o, polls)) &&
            (Valid(t) <==> IsRegistered(s, r) && (ok || r in s.buses[p].devs)) &&
            (Journalled(t) <==> IsRegistered(s, r)) && t.objs[r].bus == Some(p) && (ok ==> P.Follows(after))
  {
    hide Valid, Journalled, P.OneTaskEach, P.Follows, P.Pollable, DistinctIds;
    ValidParts(s);
    if polls.bus != Some(bus) {
      P.LocateFollows(o, polls, bus, order);
    }
    AddDeviceValid(s, p, r);
    LocateValidIff(s, p, r);
  }

  // ---------------------------------------------------------------- what follows from the exception

  /** The registered device of an id is located at a bus; its dictionary may lack it. */
  ghost predicate Stuck(s: Reg, p: BusPath, id: string) {
    IdsValid(s) && id in s.ids && s.objs[s.ids[id]].bus == Some(p)
  }

  lemma StuckFound(s: Reg, p: BusPath, id: string, name: string, left: seq<string>)
    requires Stuck(s, p, id) && Canonical(name) && id !in left
    ensures var v := Found(s, p, name, left);
            v.ok ==> name != id && Stuck(v.reg, p, id) && id !in v.left
  {
    hide WithEntry, DistinctIds, Upper;
  }

  lemma {:induction false} StuckVisit(s: Reg, p: BusPath, es: seq<Entry>, id: string, left: seq<string>)
    requires Stuck(s, p, id) && id !in left
    requires forall e :: e in es && IsId(e.name) ==> Canonical(e.name) && !IsCoupler(e.name)
    ensures id in RootIds(es) ==> !Visit(s, p, es, left).ok
    decreases |es|
  {
    hide Stuck, Found, IsId, IsCoupler, Canonical;
    if es != [] {
      assert es[0] in es;
      if IsId(es[0].name) {
        StuckFound(s, p, id, es[0].name, left);
      }
      var v := VisitOne(s, p, es[0], left);
      if v.ok {
        StuckVisit(v.reg, p, es[1..], id, v.left);
      }
    }
  }

  /** After such an exception, every scan of the bus that lists the device among plain devices raises, unless an old
      entry of its id is there. */
  lemma ScanRaisesAfterwards(s: Reg, p: BusPath, r: nat, o: P.Offers, polls: P.Polls, bus: nat, order: seq<string>,
                             d: Dir)
    requires Valid(s) && p in s.buses && r < |s.objs|
    requires IsRegistered(s, r)
    requires InAgreement(s, p, r, polls, bus) && P.Enumerates(order, polls.intervals.Keys)
    requires s.objs[r].bus != Some(p) && !P.Pollable(o, polls) && !ListsId(s, p, s.objs[r].id)
    requires d.Dir? && s.objs[r].id in RootIds(d.entries)
    requires forall e :: e in d.entries && IsId(e.name) ==> Canonical(e.name) && !IsCoupler(e.name)
    ensures HasBus(s, p) && !Scan(AddPolled(s, p, r, o, polls, bus, order).0, p, d).1
  {
    hide Valid, P.OneTaskEach, P.Follows, P.Pollable, Visit, InAgreement, IsId, Canonical, P.LocateAt, P.Enumerates;
    hide Replay;
    AddPolledValidIff(s, p, r, o, polls, bus, order);
    ValidParts(s);
    var t := AddPolled(s, p, r, o, polls, bus, order).0;
    var id := s.objs[r].id;
    if HasBus(t, p) {
      var left := Listed(t.objs, t.buses[p].devs);
      assert forall i :: 0 <= i < |left| ==> left[i] == s.objs[s.buses[p].devs[i]].id;
      StuckVisit(t, p, d.entries, id, left);
    }
  }
}
