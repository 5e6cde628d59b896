/** Poll tasks: those a device runs for its own intervals (Device.locate, delocate, set_polling_interval), and those
    a bus runs for the intervals its devices ask for (Bus.update_poll). */
module Polling {
  import opened Text

  // ---------------------------------------------------------------- tasks

  /** What a task does: read an attribute for one device at fixed times, or poll an item of a bus. */
  datatype Job = Reading(typ: string, every: real) | ForBus(item: string)

  /** The service's background tasks: numbered in the order they were made, some of them cancelled. */
  class Tasks {
    var jobs: seq<Job>
    var cancelled: set<nat>

    constructor ()
      ensures jobs == [] && cancelled == {}
    {
      jobs, cancelled := [], {};
    }

    /** Service.add_task */
    method AddTask(job: Job) returns (task: nat)
      modifies this`jobs
      ensures task == |old(jobs)| && jobs == old(jobs) + [job]
    {
      task, jobs := |jobs|, jobs + [job];
    }

    method Cancel(task: nat)
      modifies this`cancelled
      ensures cancelled == old(cancelled) + {task}
    {
      cancelled := cancelled + {task};
    }
  }

  ghost function TasksOf(m: map<string, nat>, keys: set<string>): set<nat> {
    set k | k in keys && k in m :: m[k]
  }

  // ---------------------------------------------------------------- one device, as a state machine

  /** What a device's class offers: the attributes with a getter, and those the bus polls for all its devices. */
  datatype Offers = Offers(getters: set<string>, bulk: set<string>)

  /** A device's polling state. mine holds every task ever made for it. */
  datatype Polls = Polls(
    bus: Option<nat>,
    intervals: map<string, real>,
    tasks: map<string, nat>,
    jobs: seq<Job>,
    cancelled: set<nat>,
    mine: set<nat>
  )

  /** Device._set_poll_task; false stands for the RuntimeError on an attribute without a getter. */
  function SetTask(o: Offers, s: Polls, typ: string, value: real): (Polls, bool) {
    var stopped :=
      if typ in s.tasks then s.(tasks := s.tasks - {typ}, cancelled := s.cancelled + {s.tasks[typ]})
      else s;
    if value == 0.0 then (stopped, true)
    else if typ !in o.getters then (stopped, false)
    else
      (stopped.(tasks := stopped.tasks[typ := |s.jobs|], jobs := s.jobs + [Reading(typ, value)],
                mine := s.mine + {|s.jobs|}), true)
  }

  /** The loop in Device.locate, over the intervals in some order; the first exception ends it. */
  function SetTasks(o: Offers, s: Polls, order: seq<string>): (Polls, bool)
    requires forall typ :: typ in order ==> typ in s.intervals
    decreases |order|
  {
    if order == [] then (s, true)
    else
      var (t, ok) := SetTask(o, s, order[0], s.intervals[order[0]]);
      if !ok then (t, false) else SetTasks(o, t, order[1..])
  }

  /** Device.locate */
  function LocateAt(o: Offers, s: Polls, bus: nat, order: seq<string>): (Polls, bool)
    requires forall typ :: typ in order ==> typ in s.intervals
  {
    if s.bus == Some(bus) then (s, true) else SetTasks(o, s.(bus := Some(bus)), order)
  }

  /** Device.delocate */
  function DelocateFrom(s: Polls, bus: nat): Polls {
    if s.bus != Some(bus) then s else s.(bus := None, tasks := map[], cancelled := s.cancelled + s.tasks.Values)
  }

  /** Device.set_polling_interval */
  function SetInterval(o: Offers, s: Polls, typ: string, value: real): (Polls, bool) {
    var t := s.(intervals := if value > 0.0 then s.intervals[typ := value] else s.intervals - {typ});
    if t.bus.None? || typ in o.bulk then (t, true) else SetTask(o, t, typ, value)
  }

  /** Each of the device's tasks is cancelled, or it is the task of exactly one key. */
  ghost predicate OneTaskEach(s: Polls) {
    (forall t :: t in s.cancelled ==> t < |s.jobs|) &&
    (forall k :: k in s.tasks ==> s.tasks[k] in s.mine && s.tasks[k] !in s.cancelled) &&
    (forall j, k :: j in s.tasks && k in s.tasks && s.tasks[j] == s.tasks[k] ==> j == k) &&
    (forall t :: t in s.mine ==> t < |s.jobs| && (t in s.cancelled || t in s.tasks.Values))
  }

  /** The device polls for exactly its intervals while it is located, and not at all otherwise. */
  ghost predicate Follows(s: Polls) {
    if s.bus.Some? then s.tasks.Keys == s.intervals.Keys else s.tasks == map[]
  }

  ghost predicate Pollable(o: Offers, s: Polls) {
    forall k :: k in s.intervals ==> s.intervals[k] > 0.0 && k in o.getters
  }

  lemma SetTaskOneEach(o: Offers, s: Polls, typ: string, value: real)
    requires OneTaskEach(s)
    ensures OneTaskEach(SetTask(o, s, typ, value).0)
  {
    var t := SetTask(o, s, typ, value).0;
    forall x | x in t.mine ensures x < |t.jobs| && (x in t.cancelled || x in t.tasks.Values) {
      if x in s.mine && x !in t.cancelled {
        var k :| k in s.tasks && s.tasks[k] == x;
        assert k in t.tasks && t.tasks[k] == x;
      } else if x !in s.mine {
        assert typ in t.tasks && t.tasks[typ] == x;
      }
    }
  }

  lemma {:induction false} SetTasksOneEach(o: Offers, s: Polls, order: seq<string>)
    requires OneTaskEach(s) && forall typ :: typ in order ==> typ in s.intervals
    ensures OneTaskEach(SetTasks(o, s, order).0)
    decreases |order|
  {
    hide OneTaskEach;
    if order != [] {
      SetTaskOneEach(o, s, order[0], s.intervals[order[0]]);
      var (t, ok) := SetTask(o, s, order[0], s.intervals[order[0]]);
      if ok {
        SetTasksOneEach(o, t, order[1..]);
      }
    }
  }

  /** Restarting every task of an order: it succeeds exactly when every interval in it is 0 or has a getter. */
  lemma {:induction false} SetTasksMeaning(o: Offers, s: Polls, order: seq<string>)
    requires forall typ :: typ in order ==> typ in s.intervals && s.intervals[typ] != 0.0
    ensures var (t, ok) := SetTasks(o, s, order);
            t.bus == s.bus && t.intervals == s.intervals && (ok <==> forall typ :: typ in order ==> typ in o.getters) &&
            (ok ==> t.tasks.Keys == s.tasks.Keys + set typ | typ in order)
    decreases |order|
  {
    if order == [] {
      assert (set typ | typ in order) == {};
    } else {
      var (t, ok) := SetTask(o, s, order[0], s.intervals[order[0]]);
      assert order[0] in order && order == [order[0]] + order[1..];
      if ok {
        SetTasksMeaning(o, t, order[1..]);
        assert t.tasks.Keys == s.tasks.Keys + {order[0]};
        assert (set typ | typ in order) == {order[0]} + set typ | typ in order[1..];
      }
    }
  }

  /** The task of an interval reads its attribute, and at that interval. */
  ghost predicate Timely(s: Polls) {
    forall k :: k in s.tasks && k in s.intervals ==>
      s.tasks[k] < |s.jobs| && s.jobs[s.tasks[k]] == Reading(k, s.intervals[k])
  }

  lemma SetTaskTimely(o: Offers, s: Polls, typ: string, value: real)
    requires forall k :: k in s.tasks && k in s.intervals && k != typ ==>
               s.tasks[k] < |s.jobs| && s.jobs[s.tasks[k]] == Reading(k, s.intervals[k])
    requires typ in s.intervals ==> s.intervals[typ] == value
    ensures Timely(SetTask(o, s, typ, value).0)
  {
  }

  lemma {:induction false} SetTasksTimely(o: Offers, s: Polls, order: seq<string>)
    requires Timely(s) && forall typ :: typ in order ==> typ in s.intervals
    ensures Timely(SetTasks(o, s, order).0)
    decreases |order|
  {
    if order != [] {
      SetTaskTimely(o, s, order[0], s.intervals[order[0]]);
      var (t, ok) := SetTask(o, s, order[0], s.intervals[order[0]]);
      if ok {
        SetTasksTimely(o, t, order[1..]);
      }
    }
  }

  ghost predicate Enumerates(order: seq<string>, keys: set<string>) {
    forall k :: k in order <==> k in keys
  }

  /** Locating a device succeeds exactly when every one of its intervals has a getter, whatever the order; a located
      device that moves restarts its tasks. */
  lemma LocateFollows(o: Offers, s: Polls, bus: nat, order: seq<string>)
    requires OneTaskEach(s) && Follows(s) && Enumerates(order, s.intervals.Keys) && s.bus != Some(bus)
    requires forall k :: k in s.intervals ==> s.intervals[k] > 0.0
    ensures var (t, ok) := LocateAt(o, s, bus, order);
            OneTaskEach(t) && (ok <==> Pollable(o, s)) && (ok ==> t.bus == Some(bus) && Follows(t))
  {
    var moved := s.(bus := Some(bus));
    assert OneTaskEach(moved);
    SetTasksOneEach(o, moved, order);
    SetTasksMeaning(o, moved, order);
    assert (set typ | typ in order) == s.intervals.Keys;
  }

  lemma {:induction false} SetTasksNew(o: Offers, s: Polls, order: seq<string>)
    requires (forall typ :: typ in order ==> typ in s.intervals && s.intervals[typ] != 0.0) && SetTasks(o, s, order).1
    ensures var t := SetTasks(o, s, order).0;
            |s.jobs| <= |t.jobs| &&
            forall k :: k in t.tasks ==>
              t.tasks[k] >= |s.jobs| || (k !in order && k in s.tasks && t.tasks[k] == s.tasks[k])
    decreases |order|
  {
    if order != [] {
      assert order == [order[0]] + order[1..];
      SetTasksNew(o, SetTask(o, s, order[0], s.intervals[order[0]]).0, order[1..]);
    }
  }

  /** A device that is found where it is keeps its tasks; one that is found elsewhere gets new ones only. */
  lemma LocateRestarts(o: Offers, s: Polls, bus: nat, order: seq<string>)
    requires OneTaskEach(s) && Follows(s) && Enumerates(order, s.intervals.Keys) && Pollable(o, s)
    ensures var t := LocateAt(o, s, bus, order).0;
            t.tasks.Keys == s.intervals.Keys &&
            forall k :: k in s.intervals ==>
              if s.bus == Some(bus) then t.tasks[k] == s.tasks[k] else t.tasks[k] !in s.mine
  {
    if s.bus != Some(bus) {
      LocateFollows(o, s, bus, order);
      SetTasksMeaning(o, s.(bus := Some(bus)), order);
      SetTasksNew(o, s.(bus := Some(bus)), order);
    }
  }

  lemma DelocateFollows(s: Polls, bus: nat)
    requires OneTaskEach(s) && Follows(s)
    ensures var t := DelocateFrom(s, bus);
            OneTaskEach(t) && Follows(t) && t.intervals == s.intervals &&
            (if s.bus == Some(bus) then t.bus == None && t.mine <= t.cancelled else t == s)
  {
  }

  /** A located device keeps polling for exactly its intervals if and only if the new value is 0, or is positive
      just when there is a getter: a negative value leaves a task without an interval, and a positive one without a
      getter an interval without a task. What the bus polls for all its devices gets no task of its own here, so
      there the interval must already have been set, or already have been absent. */
  lemma SetIntervalFollowsIff(o: Offers, s: Polls, typ: string, value: real)
    requires OneTaskEach(s) && Follows(s) && s.bus.Some?
    ensures var t := SetInterval(o, s, typ, value).0;
            OneTaskEach(t) &&
            (Follows(t) <==>
               if typ in o.bulk then value > 0.0 <==> typ in s.intervals
               else value == 0.0 || (value > 0.0 <==> typ in o.getters))
  {
    hide OneTaskEach, SetTask;
    var changed := s.(intervals := if value > 0.0 then s.intervals[typ := value] else s.intervals - {typ});
    IntervalsDoNotMatter(s, changed.intervals);
    var t := SetInterval(o, s, typ, value).0;
    if typ !in o.bulk {
      SetTaskOneEach(o, changed, typ, value);
      SetTaskKeys(o, changed, typ, value);
    }
    assert t.intervals.Keys == if value > 0.0 then s.intervals.Keys + {typ} else s.intervals.Keys - {typ};
    assert Follows(t) <==> (typ in t.tasks.Keys <==> typ in t.intervals.Keys);
  }

  lemma IntervalsDoNotMatter(s: Polls, intervals: map<string, real>)
    requires OneTaskEach(s)
    ensures OneTaskEach(s.(intervals := intervals))
  {
  }

  lemma SetTaskKeys(o: Offers, s: Polls, typ: string, value: real)
    ensures var t := SetTask(o, s, typ, value).0;
            t.tasks.Keys == (if value != 0.0 && typ in o.getters then s.tasks.Keys + {typ} else s.tasks.Keys - {typ}) &&
            t.intervals == s.intervals && t.bus == s.bus
  {
  }

  /** The interval of the key is the new value if that is positive, and gone otherwise; no other interval changes. Only
      an attribute without a getter makes it raise, and only where a task is to be made. */
  lemma SetIntervalMeaning(o: Offers, s: Polls, typ: string, value: real)
    ensures var (t, ok) := SetInterval(o, s, typ, value);
            (typ in t.intervals <==> value > 0.0) && (value > 0.0 ==> t.intervals[typ] == value) &&
            (forall k :: k != typ ==>
               (k in t.intervals <==> k in s.intervals) && (k in t.intervals ==> t.intervals[k] == s.intervals[k])) &&
            t.bus == s.bus && (ok <==> s.bus.None? || typ in o.bulk || value == 0.0 || typ in o.getters)
  {
  }

  /** The tasks go on reading at the intervals unless the bus polls the item: then the device's own task stays, and
      keeps the old interval. */
  lemma SetIntervalTimelyIff(o: Offers, s: Polls, typ: string, value: real)
    requires OneTaskEach(s) && Follows(s) && Timely(s) && s.bus.Some?
    ensures Timely(SetInterval(o, s, typ, value).0) <==>
            (typ in o.bulk && value > 0.0 && typ in s.intervals ==> s.intervals[typ] == value)
  {
    hide OneTaskEach;
    var changed := s.(intervals := if value > 0.0 then s.intervals[typ := value] else s.intervals - {typ});
    if typ !in o.bulk {
      SetTaskTimely(o, changed, typ, value);
    } else if typ in s.intervals {
      assert typ in s.tasks.Keys;
    }
  }

  // ---------------------------------------------------------------- runs

  datatype Op =
    | Locate(bus: nat, order: seq<string>)
    | Delocate(from: nat)
    | Set(typ: string, value: real)
    | Others(jobs: seq<Job>, cancelled: set<nat>)   // what other devices and buses do with their tasks

  function Apply(o: Offers, s: Polls, op: Op): (Polls, bool)
    requires op.Locate? ==> Enumerates(op.order, s.intervals.Keys)
  {
    match op
    case Locate(bus, order) => LocateAt(o, s, bus, order)
    case Delocate(bus) => (DelocateFrom(s, bus), true)
    case Set(typ, value) => SetInterval(o, s, typ, value)
    case Others(jobs, cancelled) => (s.(jobs := jobs, cancelled := cancelled), true)
  }

  /** Attributes that only the device polls and that have a getter, with values of at least 0. */
  ghost predicate Sensible(o: Offers, s: Polls, op: Op) {
    match op
    case Locate(bus, order) => Enumerates(order, s.intervals.Keys)
    case Delocate(bus) => true
    case Set(typ, value) => typ !in o.bulk && typ in o.getters && value >= 0.0
    case Others(jobs, cancelled) =>
      s.jobs <= jobs && s.cancelled <= cancelled && (forall t :: t in cancelled ==> t < |jobs|) &&
      cancelled * s.mine == s.cancelled * s.mine
  }

  ghost predicate IsRun(o: Offers, s: Polls, ops: seq<Op>)
    decreases |ops|
  {
    ops == [] || (Sensible(o, s, ops[0]) && IsRun(o, Apply(o, s, ops[0]).0, ops[1..]))
  }

  ghost function After(o: Offers, s: Polls, ops: seq<Op>): Polls
    requires IsRun(o, s, ops)
    decreases |ops|
  {
    if ops == [] then s else After(o, Apply(o, s, ops[0]).0, ops[1..])
  }

  lemma OpFollows(o: Offers, s: Polls, op: Op)
    requires OneTaskEach(s) && Follows(s) && Pollable(o, s) && Sensible(o, s, op)
    ensures var (t, ok) := Apply(o, s, op); ok && OneTaskEach(t) && Follows(t) && Pollable(o, t)
    ensures Timely(s) ==> Timely(Apply(o, s, op).0)
  {
    match op
    case Locate(bus, order) =>
      if s.bus != Some(bus) {
        LocateFollows(o, s, bus, order);
        SetTasksMeaning(o, s.(bus := Some(bus)), order);
        if Timely(s) {
          SetTasksTimely(o, s.(bus := Some(bus)), order);
        }
      }
    case Delocate(bus) => DelocateFollows(s, bus);
    case Set(typ, value) =>
      if s.bus.Some? {
        SetIntervalFollowsIff(o, s, typ, value);
        if Timely(s) {
          SetIntervalTimelyIff(o, s, typ, value);
        }
      }
    case Others(jobs, cancelled) => OthersFollow(s, jobs, cancelled);
  }

  lemma OthersFollow(s: Polls, jobs: seq<Job>, cancelled: set<nat>)
    requires OneTaskEach(s) && s.jobs <= jobs && s.cancelled <= cancelled && forall t :: t in cancelled ==> t < |jobs|
    requires cancelled * s.mine == s.cancelled * s.mine
    ensures OneTaskEach(s.(jobs := jobs, cancelled := cancelled))
    ensures Timely(s) ==> Timely(s.(jobs := jobs, cancelled := cancelled))
  {
    forall t | t in s.mine ensures t in cancelled <==> t in s.cancelled {
      assert t in cancelled * s.mine <==> t in s.cancelled * s.mine;
    }
  }

  const UNPOLLED := Polls(None, map[], map[], [], {}, {})

  /** Over any run of locating, moving, losing and changing intervals: exactly one live task for each interval while
      the device is located, which reads at that interval, none while it is not, and every other task the device ever
      had is cancelled. */
  lemma {:induction false} PollTasksFollow(o: Offers, s: Polls, ops: seq<Op>)
    requires OneTaskEach(s) && Follows(s) && Pollable(o, s) && Timely(s) && IsRun(o, s, ops)
    ensures OneTaskEach(After(o, s, ops)) && Follows(After(o, s, ops)) && Pollable(o, After(o, s, ops))
    ensures Timely(After(o, s, ops))
    decreases |ops|
  {
    hide OneTaskEach, Follows, Pollable, Timely, Apply, Enumerates;
    if ops != [] {
      OpFollows(o, s, ops[0]);
      PollTasksFollow(o, Apply(o, s, ops[0]).0, ops[1..]);
    }
  }

  lemma LiveTasksOfRun(o: Offers, ops: seq<Op>)
    requires IsRun(o, UNPOLLED, ops)
    ensures var t := After(o, UNPOLLED, ops);
            |t.mine - t.cancelled| == if t.bus.Some? then |t.intervals.Keys| else 0
  {
    PollTasksFollow(o, UNPOLLED, ops);
    var t := After(o, UNPOLLED, ops);
    assert t.mine - t.cancelled == t.tasks.Values;
    ValuesCount(t.tasks);
  }

  /** The value that was set last. */
  function LastSet(ops: seq<Op>, typ: string): Option<real> {
    if ops == [] then None
    else
      var last := ops[|ops| - 1];
      if last.Set? && last.typ == typ then Some(last.value) else LastSet(ops[..|ops| - 1], typ)
  }

  lemma LastSetFirst(ops: seq<Op>, typ: string)
    requires ops != []
    ensures LastSet(ops, typ) ==
            if LastSet(ops[1..], typ).Some? then LastSet(ops[1..], typ)
            else if ops[0].Set? && ops[0].typ == typ then Some(ops[0].value)
            else None
    decreases |ops|
  {
    if |ops| > 1 {
      LastSetFirst(ops[..|ops| - 1], typ);
      assert ops[1..][..|ops[1..]| - 1] == ops[..|ops| - 1][1..];
    }
  }

  lemma OpIntervals(o: Offers, s: Polls, op: Op)
    requires Sensible(o, s, op)
    ensures op.Set? || Apply(o, s, op).0.intervals == s.intervals
  {
    if op.Locate? && s.bus != Some(op.bus) {
      SetTasksIntervals(o, s.(bus := Some(op.bus)), op.order);
    }
  }

  lemma {:induction false} SetTasksIntervals(o: Offers, s: Polls, order: seq<string>)
    requires forall typ :: typ in order ==> typ in s.intervals
    ensures SetTasks(o, s, order).0.intervals == s.intervals
    decreases |order|
  {
    if order != [] {
      SetTaskKeys(o, s, order[0], s.intervals[order[0]]);
      var (t, ok) := SetTask(o, s, order[0], s.intervals[order[0]]);
      if ok {
        SetTasksIntervals(o, t, order[1..]);
      }
    }
  }

  lemma {:induction false} IntervalsOfRun(o: Offers, s: Polls, ops: seq<Op>, typ: string)
    requires IsRun(o, s, ops)
    ensures var t, last := After(o, s, ops), LastSet(ops, typ);
            (typ in t.intervals <==> if last.Some? then last.value > 0.0 else typ in s.intervals) &&
            (typ in t.intervals ==> t.intervals[typ] == if last.Some? then last.value else s.intervals[typ])
    decreases |ops|
  {
    hide SetInterval, SetTasks;
    if ops != [] {
      var t := Apply(o, s, ops[0]).0;
      LastSetFirst(ops, typ);
      IntervalsOfRun(o, t, ops[1..], typ);
      OpIntervals(o, s, ops[0]);
      if ops[0].Set? {
        SetIntervalMeaning(o, s, ops[0].typ, ops[0].value);
      }
    }
  }

  /** After any run, a located device has a live task for an attribute if and only if the value that was set for it last
      is positive, and that task reads the attribute at that value. */
  lemma TaskOfRun(o: Offers, ops: seq<Op>, typ: string)
    requires IsRun(o, UNPOLLED, ops) && After(o, UNPOLLED, ops).bus.Some?
    ensures var t, last := After(o, UNPOLLED, ops), LastSet(ops, typ);
            (typ in t.tasks <==> last.Some? && last.value > 0.0) &&
            (typ in t.tasks ==>
               t.tasks[typ] !in t.cancelled && t.tasks[typ] < |t.jobs| &&
               t.jobs[t.tasks[typ]] == Reading(typ, last.value))
  {
    hide IsRun, After, LastSet;
    PollTasksFollow(o, UNPOLLED, ops);
    IntervalsOfRun(o, UNPOLLED, ops, typ);
    var t := After(o, UNPOLLED, ops);
    assert typ in t.tasks.Keys <==> typ in t.intervals.Keys;
  }

  ghost predicate Injective(m: map<string, nat>) {
    forall j, k :: j in m && k in m && m[j] == m[k] ==> j == k
  }

  lemma ValuesWithout(m: map<string, nat>, k: string)
    requires Injective(m) && k in m
    ensures m.Values == (m - {k}).Values + {m[k]} && m[k] !in (m - {k}).Values
  {
    forall v | v in m.Values && v != m[k] ensures v in (m - {k}).Values {
      var j :| j in m && m[j] == v;
      assert (m - {k})[j] == v;
    }
  }

  lemma {:induction false} ValuesCount(m: map<string, nat>)
    requires Injective(m)
    ensures |m.Values| == |m.Keys|
    decreases |m.Keys|
  {
    if m == map[] {
      assert m.Values == {};
    } else {
      var k :| k in m;
      ValuesWithout(m, k);
      assert (m - {k}).Keys == m.Keys - {k} && Injective(m - {k});
      hide Injective;
      ValuesCount(m - {k});
    }
  }

  /** The device object. */
  class Device {
    const offers: Offers
    const service: Tasks
    var bus: Option<nat>
    var intervals: map<string, real>
    var tasks: map<string, nat>
    ghost var mine: set<nat>

    ghost function State(): Polls
      reads this, service
    {
      Polls(bus, intervals, tasks, service.jobs, service.cancelled, mine)
    }

    constructor (offers: Offers, service: Tasks)
      ensures this.offers == offers && this.service == service
      ensures State() == Polls(None, map[], map[], service.jobs, service.cancelled, {})
    {
      this.offers, this.service := offers, service;
      bus, intervals, tasks, mine := None, map[], map[], {};
    }

    method SetPollTask(typ: string, value: real) returns (ok: bool)
      modifies this`tasks, this`mine, service
      ensures (State(), ok) == SetTask(offers, old(State()), typ, value)
    {
      if typ in tasks {
        var task := tasks[typ];
        tasks := tasks - {typ};
        service.Cancel(task);
      }
      if value == 0.0 {
        return true;
      }
      if typ !in offers.getters {
        return false;
      }
      var task := service.AddTask(Reading(typ, value));
      tasks := tasks[typ := task];
      mine := mine + {task};
      ok := true;
    }

    /** The order in which the dictionary yields the intervals does not matter to the caller. */
    method LocateOn(b: nat) returns (ok: bool, ghost order: seq<string>)
      modifies this`bus, this`tasks, this`mine, service
      ensures Enumerates(order, old(intervals.Keys))
      ensures (State(), ok) == LocateAt(offers, old(State()), b, order)
    {
      if bus == Some(b) {
        order := Enumeration(intervals.Keys);
        return true, order;
      }
      bus := Some(b);
      order := [];
      var todo := intervals.Keys;
      ghost var start := State();
      while todo != {}
        invariant todo <= intervals.Keys && intervals == start.intervals && bus == start.bus
        invariant Enumerates(order, intervals.Keys - todo)
        invariant SetTasks(offers, start, order) == (State(), true)
      {
        var typ :| typ in todo;
        ghost var before := State();
        ok := SetPollTask(typ, intervals[typ]);
        SetTasksSnoc(offers, start, order, typ);
        order := order + [typ];
        todo := todo - {typ};
        if !ok {
          ghost var rest := Enumeration(todo);
          SetTasksStops(offers, start, order, rest);
          order := order + rest;
          return false, order;
        }
      }
      ok := true;
    }

    method DelocateAt(b: nat)
      modifies this`bus, this`tasks, service
      ensures State() == DelocateFrom(old(State()), b)
    {
      if bus == Some(b) {
        bus := None;
        var todo := tasks.Keys;
        while todo != {}
          invariant bus == None && tasks == old(tasks) && todo <= tasks.Keys && service.jobs == old(service.jobs)
          invariant service.cancelled == old(service.cancelled) + TasksOf(tasks, tasks.Keys - todo)
        {
          var k :| k in todo;
          service.Cancel(tasks[k]);
          assert tasks.Keys - (todo - {k}) == (tasks.Keys - todo) + {k};
          todo := todo - {k};
        }
        assert tasks.Keys - {} == tasks.Keys && TasksOf(tasks, tasks.Keys) == tasks.Values;
        tasks := map[];
      }
    }

    method SetPollingInterval(typ: string, value: real) returns (ok: bool)
      modifies this, service
      ensures (State(), ok) == SetInterval(offers, old(State()), typ, value)
    {
      intervals := if value > 0.0 then intervals[typ := value] else intervals - {typ};
      ok := true;
      if bus.Some? {
        if typ !in offers.bulk {
          ok := SetPollTask(typ, value);
        }
      }
    }
  }

  ghost function Enumeration(keys: set<string>): (order: seq<string>)
    ensures Enumerates(order, keys)
  {
    if keys == {} then [] else var k :| k in keys; [k] + Enumeration(keys - {k})
  }

  lemma {:induction false} SetTasksSnoc(o: Offers, s: Polls, order: seq<string>, typ: string)
    requires (forall k :: k in order ==> k in s.intervals) && typ in s.intervals
    requires SetTasks(o, s, order).1
    ensures SetTasks(o, s, order).0.intervals == s.intervals
    ensures SetTasks(o, s, order + [typ]) == SetTask(o, SetTasks(o, s, order).0, typ, s.intervals[typ])
    decreases |order|
  {
    if order == [] {
      assert order + [typ] == [typ];
    } else {
      assert (order + [typ])[1..] == order[1..] + [typ] && (order + [typ])[0] == order[0];
      SetTasksSnoc(o, SetTask(o, s, order[0], s.intervals[order[0]]).0, order[1..], typ);
    }
  }

  lemma {:induction false} SetTasksStops(o: Offers, s: Polls, order: seq<string>, rest: seq<string>)
    requires forall k :: k in order + rest ==> k in s.intervals
    requires !SetTasks(o, s, order).1
    ensures SetTasks(o, s, order + rest) == SetTasks(o, s, order)
    decreases |order|
  {
    var (t, ok) := SetTask(o, s, order[0], s.intervals[order[0]]);
    assert (order + rest)[1..] == order[1..] + rest && (order + rest)[0] == order[0];
    if ok {
      SetTasksStops(o, t, order[1..], rest);
    }
  }

  // ---------------------------------------------------------------- what a bus polls

  /** How often to poll, and how much that may vary. */
  datatype Interval = Fixed(every: real) | Varying(every: real, spread: real)

  /** What a device wants polled: the items it yields, each with its interval if there is one. */
  type Wish = seq<(string, Option<Interval>)>

  ghost predicate Wants(wish: Wish, k: string, i: Interval) {
    (k, Some(i)) in wish
  }

  ghost predicate AnyWants(wishes: seq<Wish>, k: string, i: Interval) {
    exists w :: w in wishes && Wants(w, k, i)
  }

  /** The value is the least interval that any device wants for the item. */
  ghost predicate LeastEvery(wishes: seq<Wish>, k: string, least: real) {
    (exists i :: AnyWants(wishes, k, i) && i.every == least) && forall i :: AnyWants(wishes, k, i) ==> least <= i.every
  }

  ghost predicate LeastSpread(wishes: seq<Wish>, k: string, least: real) {
    (exists i :: AnyWants(wishes, k, i) && i.Varying? && i.spread == least) &&
    forall i :: AnyWants(wishes, k, i) && i.Varying? ==> least <= i.spread
  }

  /** Exactly the wanted items, each with its least interval; and the least spread where there is one. */
  ghost predicate Gathered(wishes: seq<Wish>, items: set<string>, every: map<string, real>, spread: map<string, real>) {
    every.Keys == items && GatheredEvery(wishes, every) && GatheredSpread(wishes, spread)
  }

  ghost predicate GatheredEvery(wishes: seq<Wish>, every: map<string, real>) {
    (forall k, i :: AnyWants(wishes, k, i) ==> k in every) &&
    (forall k :: k in every ==> LeastEvery(wishes, k, every[k]))
  }

  ghost predicate GatheredSpread(wishes: seq<Wish>, spread: map<string, real>) {
    (forall k, i :: AnyWants(wishes, k, i) && i.Varying? ==> k in spread) &&
    (forall k :: k in spread ==> LeastSpread(wishes, k, spread[k]))
  }

  function Smaller(m: map<string, real>, k: string, x: real): map<string, real> {
    m[k := if k in m && m[k] < x then m[k] else x]
  }

  function Gather(every: map<string, real>, spread: map<string, real>, k: string,
                  i: Interval): (map<string, real>, map<string, real>) {
    (Smaller(every, k, i.every), if i.Varying? then Smaller(spread, k, i.spread) else spread)
  }

  lemma AnyWantsGrows(wishes: seq<Wish>, wish: Wish, k: string, i: Interval)
    ensures AnyWants(wishes + [wish], k, i) <==> AnyWants(wishes, k, i) || Wants(wish, k, i)
  {
  }

  lemma GatheredSame(wishes: seq<Wish>, others: seq<Wish>, items: set<string>, every: map<string, real>,
                     spread: map<string, real>)
    requires Gathered(wishes, items, every, spread)
    requires forall k, i :: AnyWants(others, k, i) <==> AnyWants(wishes, k, i)
    ensures Gathered(others, items, every, spread)
  {
    hide AnyWants;
    forall k | k in every ensures LeastEvery(others, k, every[k]) {
      assert LeastEvery(wishes, k, every[k]);
    }
    forall k | k in spread ensures LeastSpread(others, k, spread[k]) {
      assert LeastSpread(wishes, k, spread[k]);
    }
  }

  /** The wishes grow by one. */
  ghost predicate OneMore(wishes: seq<Wish>, others: seq<Wish>, k: string, i: Interval) {
    forall j, x :: AnyWants(others, j, x) <==> AnyWants(wishes, j, x) || (j == k && x == i)
  }

  lemma EveryOne(wishes: seq<Wish>, others: seq<Wish>, every: map<string, real>, k: string, i: Interval)
    requires GatheredEvery(wishes, every) && OneMore(wishes, others, k, i)
    ensures GatheredEvery(others, Smaller(every, k, i.every))
  {
  }

  lemma SpreadOne(wishes: seq<Wish>, others: seq<Wish>, spread: map<string, real>, k: string, i: Interval)
    requires GatheredSpread(wishes, spread) && OneMore(wishes, others, k, i)
    ensures GatheredSpread(others, if i.Varying? then Smaller(spread, k, i.spread) else spread)
  {
  }

  lemma GatheredOne(wishes: seq<Wish>, others: seq<Wish>, items: set<string>, every: map<string, real>,
                    spread: map<string, real>, k: string, i: Interval)
    requires Gathered(wishes, items, every, spread) && OneMore(wishes, others, k, i)
    ensures var (e, s) := Gather(every, spread, k, i); Gathered(others, items + {k}, e, s)
  {
    hide GatheredEvery, GatheredSpread, OneMore;
    EveryOne(wishes, others, every, k, i);
    SpreadOne(wishes, others, spread, k, i);
  }

  ghost predicate HasTask(before: map<string, nat>, after: map<string, nat>, t: nat) {
    exists k :: k in after && k !in before && after[k] == t
  }

  /** The old tasks are kept, and each new item has one of the tasks numbered from lo up to hi. */
  ghost predicate Started(before: map<string, nat>, after: map<string, nat>, lo: nat, hi: nat) {
    (forall k :: k in before ==> k in after && after[k] == before[k]) &&
    (forall k :: k in after && k !in before ==> lo <= after[k] < hi) &&
    lo <= hi && (forall t {:trigger HasTask(before, after, t)} :: lo <= t < hi ==> HasTask(before, after, t)) &&
    (forall j, k :: j in after && k in after && j !in before && k !in before && after[j] == after[k] ==> j == k)
  }

  /** The new ones poll their items. */
  ghost predicate ForItems(before: map<string, nat>, after: map<string, nat>, jobs: seq<Job>) {
    forall k :: k in after && k !in before ==> after[k] < |jobs| && jobs[after[k]] == ForBus(k)
  }

  lemma StartedOne(before: map<string, nat>, after: map<string, nat>, lo: nat, hi: nat, k: string)
    requires k !in before && Started(before, after, lo, hi) && k !in after
    ensures Started(before, after[k := hi], lo, hi + 1)
  {
    var next := after[k := hi];
    forall t | lo <= t < hi + 1 ensures HasTask(before, next, t) {
      if t < hi {
        assert HasTask(before, after, t);
        var j :| j in after && j !in before && after[j] == t;
        assert next[j] == t;
      } else {
        assert next[k] == t;
      }
    }
  }

  /** A bus's poll tasks. */
  class BusPolls {
    const service: Tasks
    var tasks: map<string, nat>
    var intervals: map<string, real>
    var spreads: map<string, real>

    constructor (service: Tasks)
      ensures this.service == service && tasks == map[] && intervals == map[] && spreads == map[]
    {
      this.service, tasks, intervals, spreads := service, map[], map[], map[];
    }

    /** Bus.update_poll: afterwards there is a task for exactly the items that some device wants; tasks of items that
        were wanted before are the same, new ones were just made, and exactly the others were cancelled. */
    method UpdatePoll(wishes: seq<Wish>)
      modifies this, service
      ensures forall k :: k in tasks <==> exists i :: AnyWants(wishes, k, i)
      ensures forall k :: k in tasks && k in old(tasks) ==> tasks[k] == old(tasks)[k]
      ensures Started(old(tasks) - (old(tasks.Keys) - tasks.Keys), tasks, |old(service.jobs)|, |service.jobs|)
      ensures ForItems(old(tasks) - (old(tasks.Keys) - tasks.Keys), tasks, service.jobs) &&
              old(service.jobs) <= service.jobs
      ensures service.cancelled == old(service.cancelled) + TasksOf(old(tasks), old(tasks.Keys) - tasks.Keys)
      ensures forall k :: k in tasks ==> k in intervals && LeastEvery(wishes, k, intervals[k])
      ensures forall k :: k !in tasks ==>
              (k in intervals <==> k in old(intervals)) && (k in intervals ==> intervals[k] == old(intervals)[k])
      ensures forall k, i :: AnyWants(wishes, k, i) && i.Varying? ==> k in spreads && LeastSpread(wishes, k, spreads[k])
      ensures forall k :: (forall i :: AnyWants(wishes, k, i) ==> i.Fixed?) ==>
                (k in spreads <==> k in old(spreads)) && (k in spreads ==> spreads[k] == old(spreads)[k])
    {
      hide LeastEvery, LeastSpread, AnyWants;
      var items, every, spread := GatherAll(wishes);
      forall k ensures k in items <==> exists i :: AnyWants(wishes, k, i) {
        EveryWanted(wishes, every, k);
      }
      var stale := tasks.Keys - items;
      CancelAll(stale);
      intervals := intervals + every;
      spreads := spreads + spread;
      StartAll(items);
      assert old(tasks.Keys) - tasks.Keys == stale;
      forall k | forall i :: AnyWants(wishes, k, i) ==> i.Fixed? ensures k !in spread {
        SpreadWanted(wishes, spread, k);
      }
    }

    /** The items any device wants, with the least interval and spread of each. */
    method GatherAll(wishes: seq<Wish>)
      returns (items: set<string>, every: map<string, real>, spread: map<string, real>)
      ensures Gathered(wishes, items, every, spread)
    {
      items, every, spread := {}, map[], map[];
      var n := 0;
      while n < |wishes|
        invariant n <= |wishes|
        invariant Gathered(wishes[..n], items, every, spread)
      {
        var m := 0;
        GatheredEmpty(wishes[..n], wishes[n][..0], items, every, spread);
        while m < |wishes[n]|
          invariant m <= |wishes[n]|
          invariant Gathered(wishes[..n] + [wishes[n][..m]], items, every, spread)
        {
          var (k, i) := wishes[n][m];
          NextWish(wishes[..n], wishes[n], m, items, every, spread);
          if i.Some? {
            var (e, s) := Gather(every, spread, k, i.value);
            items, every, spread := items + {k}, e, s;
          }
          m := m + 1;
        }
        assert wishes[n][..m] == wishes[n] && wishes[..n] + [wishes[n]] == wishes[..n + 1];
        n := n + 1;
      }
      assert wishes[..n] == wishes;
    }

    method CancelAll(stale: set<string>)
      requires stale <= tasks.Keys
      modifies this`tasks, service`cancelled
      ensures tasks == old(tasks) - stale
      ensures service.cancelled == old(service.cancelled) + TasksOf(old(tasks), stale)
    {
      var todo := stale;
      while todo != {}
        invariant todo <= stale && tasks == old(tasks) - (stale - todo)
        invariant service.cancelled == old(service.cancelled) + TasksOf(old(tasks), stale - todo)
      {
        var k :| k in todo;
        var task := tasks[k];
        tasks := tasks - {k};
        service.Cancel(task);
        assert stale - (todo - {k}) == (stale - todo) + {k};
        todo := todo - {k};
      }
      assert stale - {} == stale;
    }

    method StartAll(items: set<string>)
      requires tasks.Keys <= items
      modifies this`tasks, service`jobs
      ensures tasks.Keys == items && Started(old(tasks), tasks, |old(service.jobs)|, |service.jobs|)
      ensures ForItems(old(tasks), tasks, service.jobs) && old(service.jobs) <= service.jobs
    {
      var todo := items;
      while todo != {}
        invariant todo <= items && items - todo <= tasks.Keys <= items
        invariant Started(old(tasks), tasks, |old(service.jobs)|, |service.jobs|)
        invariant ForItems(old(tasks), tasks, service.jobs) && old(service.jobs) <= service.jobs
      {
        var k :| k in todo;
        if k !in tasks {
          StartedOne(old(tasks), tasks, |old(service.jobs)|, |service.jobs|, k);
          var task := service.AddTask(ForBus(k));
          tasks := tasks[k := task];
        }
        todo := todo - {k};
      }
    }
  }

  lemma SpreadWanted(wishes: seq<Wish>, spread: map<string, real>, k: string)
    requires GatheredSpread(wishes, spread)
    ensures k in spread ==> exists i :: AnyWants(wishes, k, i) && i.Varying?
  {
  }

  lemma EveryWanted(wishes: seq<Wish>, every: map<string, real>, k: string)
    requires GatheredEvery(wishes, every)
    ensures k in every <==> exists i :: AnyWants(wishes, k, i)
  {
  }

  lemma GatheredEmpty(wishes: seq<Wish>, none: Wish, items: set<string>, every: map<string, real>,
                      spread: map<string, real>)
    requires Gathered(wishes, items, every, spread) && none == []
    ensures Gathered(wishes + [none], items, every, spread)
  {
    forall k, i ensures AnyWants(wishes + [none], k, i) <==> AnyWants(wishes, k, i) {
      AnyWantsGrows(wishes, none, k, i);
    }
    GatheredSame(wishes, wishes + [none], items, every, spread);
  }

  lemma NextWish(wishes: seq<Wish>, wish: Wish, m: nat, items: set<string>, every: map<string, real>,
                 spread: map<string, real>)
    requires m < |wish| && Gathered(wishes + [wish[..m]], items, every, spread)
    ensures wish[m].1.None? ==> Gathered(wishes + [wish[..m + 1]], items, every, spread)
    ensures wish[m].1.Some? ==>
              var (e, s) := Gather(every, spread, wish[m].0, wish[m].1.value);
              Gathered(wishes + [wish[..m + 1]], items + {wish[m].0}, e, s)
  {
    hide Gathered, AnyWants, Gather;
    assert wish[..m + 1] == wish[..m] + [wish[m]];
    forall k, i ensures AnyWants(wishes + [wish[..m + 1]], k, i) <==>
                        AnyWants(wishes + [wish[..m]], k, i) || wish[m] == (k, Some(i)) {
      AnyWantsGrows(wishes, wish[..m], k, i);
      AnyWantsGrows(wishes, wish[..m + 1], k, i);
    }
    if wish[m].1.None? {
      GatheredSame(wishes + [wish[..m]], wishes + [wish[..m + 1]], items, every, spread);
    } else {
      GatheredOne(wishes + [wish[..m]], wishes + [wish[..m + 1]], items, every, spread, wish[m].0, wish[m].1.value);
    }
  }
}
