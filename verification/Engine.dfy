/** The Server object's request engine, as the source has it: a write queue, a deque of message objects,
    the re-send loop and the reconnect delay (asyncowfs/server.py). Each method is the step of the client
    in module Pipeline that bears its name. */
module Engine {
  import opened Text
  import opened Wire
  import opened Messages
  import P = Pipeline

  function Ids(ms: seq<Message>): (ids: seq<nat>)
    ensures |ids| == |ms|
  {
    seq(|ms|, i requires 0 <= i < |ms| => ms[i].id)
  }

  // ---------------------------------------------------------------- the re-send loop, on the client's view

  /** The loop, with the outcomes of the sends that it makes, false for one that raises: it ends with an empty backlog,
      or else it waits for the outcome of another send. */
  function Rounds(c: P.Client, sends: seq<bool>): P.Client
    requires P.ValidIds(c)
    decreases |c.backlog| + |sends|
  {
    if c.backlog == [] then c
    else if !P.Sends(c) then Rounds(P.ResendOne(c), sends)
    else if sends == [] then c
    else if sends[0] then Rounds(P.ResendOne(c), sends[1..])
    else Rounds(P.ResendFailed(c), sends[1..])
  }

  function Successes(sends: seq<bool>): nat {
    if sends == [] then 0 else (if sends[0] then 1 else 0) + Successes(sends[1..])
  }

  /** The messages of a list that are, or are not, cancelled, in order. */
  function Keep(msgs: seq<P.Record>, ids: seq<nat>, cancelled: bool): seq<nat>
    requires P.Below(ids, |msgs|)
  {
    if ids == [] then []
    else (if msgs[ids[0]].cancelled == cancelled then [ids[0]] else []) + Keep(msgs, ids[1..], cancelled)
  }

  lemma KeepStep(msgs: seq<P.Record>, ids: seq<nat>, cancelled: bool, before: seq<nat>)
    requires P.Below(ids, |msgs|) && ids != []
    ensures P.Below(ids[1..], |msgs|)
    ensures before + Keep(msgs, ids, cancelled) ==
            (if msgs[ids[0]].cancelled == cancelled then before + [ids[0]] else before) +
                Keep(msgs, ids[1..], cancelled)
  {
    var rest := Keep(msgs, ids[1..], cancelled);
    assert before + ([ids[0]] + rest) == before + [ids[0]] + rest && [] + rest == rest;
  }

  /** The first messages of a list: n live ones, and the cancelled ones before the next live one. */
  function Taken(msgs: seq<P.Record>, ids: seq<nat>, n: nat): (taken: seq<nat>)
    requires P.Below(ids, |msgs|)
    ensures taken <= ids && P.Below(taken, |msgs|)
  {
    if ids == [] then []
    else if msgs[ids[0]].cancelled then [ids[0]] + Taken(msgs, ids[1..], n)
    else if n == 0 then []
    else [ids[0]] + Taken(msgs, ids[1..], n - 1)
  }

  /** The client once the first messages of the backlog have been handled. */
  function Handled(c: P.Client, taken: seq<nat>): P.Client
    requires taken <= c.backlog && P.Below(taken, |c.msgs|)
  {
    c.(backlog := c.backlog[|taken|..], queue := c.queue + Keep(c.msgs, taken, false),
       dropped := c.dropped + Keep(c.msgs, taken, true))
  }

  lemma HandledNone(c: P.Client)
    ensures Handled(c, []) == c
  {
    assert c.queue + [] == c.queue && c.dropped + [] == c.dropped;
  }

  lemma HandledStep(c: P.Client, rest: seq<nat>)
    requires P.ValidIds(c) && c.backlog != [] && rest <= c.backlog[1..]
    ensures P.Below([c.backlog[0]] + rest, |c.msgs|) && P.Below(rest, |c.msgs|)
    ensures P.ValidIds(P.ResendOne(c)) && Handled(P.ResendOne(c), rest) == Handled(c, [c.backlog[0]] + rest)
  {
    var taken := [c.backlog[0]] + rest;
    assert taken[1..] == rest && c.backlog[1..][|rest|..] == c.backlog[|taken|..];
    KeepStep(c.msgs, taken, false, c.queue);
    KeepStep(c.msgs, taken, true, c.dropped);
  }

  /** How far the loop gets depends on the number of successful sends only: in their old order, as many live messages
      are at the end of the write queue, the cancelled ones before the next live one are dropped, the others stay in
      the backlog, and nothing else has changed. */
  lemma {:induction false} RoundsMeaning(c: P.Client, sends: seq<bool>)
    requires P.ValidIds(c)
    ensures Rounds(c, sends) == Handled(c, Taken(c.msgs, c.backlog, Successes(sends)))
    decreases |c.backlog| + |sends|
  {
    hide Handled, Keep;
    if c.backlog == [] {
      HandledNone(c);
    } else if P.Sends(c) && (sends == [] || !sends[0]) {
      HandledNone(c);
      if sends != [] {
        RoundsMeaning(c, sends[1..]);
      }
    } else {
      var more := if P.Sends(c) then sends[1..] else sends;
      var rest := Taken(c.msgs, c.backlog[1..], Successes(more));
      HandledStep(c, rest);
      RoundsMeaning(P.ResendOne(c), more);
    }
  }

  lemma {:induction false} AllTakenIff(msgs: seq<P.Record>, ids: seq<nat>, n: nat)
    requires P.Below(ids, |msgs|)
    ensures |Taken(msgs, ids, n)| == |ids| <==> n >= |Keep(msgs, ids, false)|
  {
    if ids != [] {
      AllTakenIff(msgs, ids[1..], if msgs[ids[0]].cancelled || n == 0 then n else n - 1);
    }
  }

  /** The loop ends if and only if as many sends succeed as there are live messages in the backlog. */
  lemma {:induction false} RoundsEndIff(c: P.Client, sends: seq<bool>)
    requires P.ValidIds(c)
    ensures Rounds(c, sends).backlog == [] <==> Successes(sends) >= |Keep(c.msgs, c.backlog, false)|
  {
    RoundsMeaning(c, sends);
    AllTakenIff(c.msgs, c.backlog, Successes(sends));
  }

  /** A reconnect whose re-send loop gets through: the messages that were still to be answered are at the end of the
      write queue, in their old order and without the cancelled ones. */
  lemma ReconnectResends(c: P.Client, sends: seq<bool>)
    requires P.ValidIds(c) && c.backlog == [] && Successes(sends) >= |Keep(c.msgs, c.requests, false)|
    ensures Rounds(P.StartConnection(c), sends) ==
            c.(requests := [], queue := c.queue + Keep(c.msgs, c.requests, false),
               dropped := c.dropped + Keep(c.msgs, c.requests, true))
  {
    var d := P.StartConnection(c);
    RoundsMeaning(d, sends);
    AllTakenIff(d.msgs, d.backlog, Successes(sends));
    var taken := Taken(d.msgs, d.backlog, Successes(sends));
    assert taken == d.backlog[..|taken|] == c.requests;
  }

  /** A connection that is lost before its writer has taken anything leaves what there was. */
  lemma AbortRestores(c: P.Client)
    requires c.backlog == []
    ensures P.AbortStart(P.StartConnection(c)) == c
  {
  }

  /** Any number of sends that fail, one after the other, leave everything as it was. */
  lemma {:induction false} FailuresChangeNothing(c: P.Client, sends: seq<bool>)
    requires P.ValidIds(c) && P.Sends(c) && true !in sends
    ensures Rounds(c, sends) == c
    decreases |sends|
  {
    if sends != [] {
      assert sends[0] in sends;
      FailuresChangeNothing(c, sends[1..]);
    }
  }

  /** aclose cancels what is in the deque, and only that. */
  function CancelEach(c: P.Client, ids: seq<nat>): P.Client
    requires P.Below(ids, |c.msgs|)
    decreases |ids|
  {
    if ids == [] then c else CancelEach(P.CancelMessage(c, ids[0]), ids[1..])
  }

  lemma {:induction false} CancelEachMeaning(c: P.Client, ids: seq<nat>)
    requires P.Below(ids, |c.msgs|)
    ensures var d := CancelEach(c, ids);
            d == c.(msgs := d.msgs) && |d.msgs| == |c.msgs| &&
            forall id :: 0 <= id < |c.msgs| ==>
              d.msgs[id] == if id in ids then P.CancelMessage(c, id).msgs[id] else c.msgs[id]
    decreases |ids|
  {
    if ids != [] {
      CancelEachMeaning(P.CancelMessage(c, ids[0]), ids[1..]);
      assert ids == [ids[0]] + ids[1..];
    }
  }

  // ---------------------------------------------------------------- the reconnect delay

  const FIRST_DELAY := 2.0
  const SUCCESS_DELAY := 0.1
  const DELAY_LIMIT := 10.0

  function NextDelay(delay: real): real {
    if delay < DELAY_LIMIT then delay * 1.5 else delay
  }

  /** The delay field after k failures in a row, from a given delay. */
  function DelayAfter(start: real, k: nat): real {
    if k == 0 then start else NextDelay(DelayAfter(start, k - 1))
  }

  function Power(n: nat): real {
    if n == 0 then 1.0 else 1.5 * Power(n - 1)
  }

  /** Growth stops after twelve failures since a success, and after four from the initial delay. */
  function GrowthSteps(start: real): nat {
    if start == SUCCESS_DELAY then 12 else 4
  }

  lemma PowersOfDelay()
    ensures 0.1 * Power(11) < DELAY_LIMIT <= 0.1 * Power(12) < 15.0
    ensures 2.0 * Power(3) < DELAY_LIMIT <= 2.0 * Power(4) < 15.0
  {
  }

  lemma {:induction false} PowerGrows(m: nat, n: nat)
    requires m <= n
    ensures 1.0 <= Power(m) <= Power(n)
  {
    if n > 0 {
      if m < n {
        PowerGrows(m, n - 1);
      } else {
        PowerGrows(m - 1, n - 1);
      }
    }
  }

  /** Closed form: the delay grows by half at each failure until it reaches ten seconds, and then stays; it is
      never below a tenth of a second and always below fifteen. */
  lemma {:induction false} DelayClosedForm(start: real, k: nat)
    requires start in {SUCCESS_DELAY, FIRST_DELAY}
    ensures DelayAfter(start, k) == start * Power(if k <= GrowthSteps(start) then k else GrowthSteps(start))
    ensures 0.1 <= DelayAfter(start, k) < 15.0
    ensures k >= GrowthSteps(start) <==> DelayAfter(start, k) >= DELAY_LIMIT
  {
    var top := GrowthSteps(start);
    PowersOfDelay();
    if k > 0 {
      DelayClosedForm(start, k - 1);
    }
    if k <= top {
      PowerGrows(k, top);
      if k < top {
        PowerGrows(k, top - 1);
      }
    }
    PowerGrows(0, if k <= top then k else top);
  }

  /** The delay field after a history of connection attempts: true for one that succeeds, false for a failure. */
  function DelayAfterAttempts(attempts: seq<bool>): real {
    if attempts == [] then FIRST_DELAY
    else
      var before := DelayAfterAttempts(attempts[..|attempts| - 1]);
      if attempts[|attempts| - 1] then SUCCESS_DELAY else NextDelay(before)
  }

  /** The failures since the last success, or since the start. */
  function FailuresSince(attempts: seq<bool>): (k: nat)
    ensures k <= |attempts|
    ensures forall i :: |attempts| - k <= i < |attempts| ==> !attempts[i]
    ensures k < |attempts| ==> attempts[|attempts| - k - 1]
  {
    if attempts == [] || attempts[|attempts| - 1] then 0 else FailuresSince(attempts[..|attempts| - 1]) + 1
  }

  lemma {:induction false} AttemptsAsFailures(attempts: seq<bool>)
    ensures var start := if true in attempts then SUCCESS_DELAY else FIRST_DELAY;
            DelayAfterAttempts(attempts) == DelayAfter(start, FailuresSince(attempts))
  {
    if attempts != [] {
      var before := attempts[..|attempts| - 1];
      AttemptsAsFailures(before);
      assert attempts == before + [attempts[|attempts| - 1]];
    }
  }

  /** Over any history the delay is a tenth of a second after a success and two seconds before the first one, times
      one and a half for each failure since then until it has reached ten seconds; so it is never below a tenth of a
      second and always below fifteen. */
  lemma {:induction false} DelayOfHistory(attempts: seq<bool>)
    ensures var start := if true in attempts then SUCCESS_DELAY else FIRST_DELAY;
            var k, top := FailuresSince(attempts), GrowthSteps(start);
            DelayAfterAttempts(attempts) == start * Power(if k <= top then k else top) &&
            (k >= top <==> DelayAfterAttempts(attempts) >= DELAY_LIMIT)
    ensures 0.1 <= DelayAfterAttempts(attempts) < 15.0
  {
    var start := if true in attempts then SUCCESS_DELAY else FIRST_DELAY;
    AttemptsAsFailures(attempts);
    DelayClosedForm(start, FailuresSince(attempts));
  }

  // ---------------------------------------------------------------- the object

  ghost function Records(ms: seq<Message>): (rs: seq<P.Record>)
    reads ms, set m | m in ms :: m.event
    ensures |rs| == |ms|
  {
    seq(|ms|, i requires 0 <= i < |ms| reads if 0 <= i < |ms| then {ms[i] as object, ms[i].event} else {} =>
          P.Record(ms[i].request, ms[i].cancelled, ms[i].event.value))
  }

  class Server {
    ghost var all: seq<Message>
    ghost var Repr: set<object>
    ghost var answered: seq<nat>
    ghost var dropped: seq<nat>
    var made: nat
    var queue: seq<Message>
    var requests: seq<Message>
    var backlog: seq<Message>
    var backoff: real

    ghost predicate Known(ms: seq<Message>)
      reads this
    {
      forall i :: 0 <= i < |ms| ==> ms[i].id < |all| && all[ms[i].id] == ms[i]
    }

    ghost predicate Valid()
      reads this, Repr
    {
      made == |all| && this !in Repr &&
      (forall i :: 0 <= i < |all| ==>
         all[i] in Repr && all[i].event in Repr && all[i].id == i && all[i].event.Valid()) &&
      (forall i, j :: 0 <= i < j < |all| ==> all[i].event != all[j].event) &&
      Known(queue) && Known(requests) && Known(backlog) &&
      P.Below(answered, |all|) && P.Below(dropped, |all|)
    }

    ghost function View(): P.Client
      reads this, Repr
      requires Valid()
    {
      P.Client(Records(all), Ids(queue), Ids(requests), Ids(backlog), answered, dropped)
    }

    constructor ()
      ensures Valid() && View() == P.Client([], [], [], [], [], []) && backoff == FIRST_DELAY
    {
      all, answered, dropped, Repr := [], [], [], {};
      made := 0;
      queue, requests, backlog := [], [], [];
      backoff := FIRST_DELAY;
    }

    method NewMessage(r: Request) returns (m: Message)
      requires Valid()
      modifies this`all, this`Repr, this`made
      ensures Valid() && fresh(m) && fresh(Repr - old(Repr)) && m.id == |old(all)| && Known([m])
      ensures View() == old(View()).(msgs := old(View()).msgs + [P.Record(r, false, None)])
    {
      m := new Message(made, r);
      all, Repr := all + [m], Repr + {m, m.event};
      made := made + 1;
      assert all[m.id] == m;
      assert View().msgs == old(View().msgs) + [P.Record(r, false, None)];
    }

    /** chat, up to the point where the message is in the write queue. */
    method Enqueue(r: Request) returns (m: Message)
      requires Valid()
      modifies this
      ensures Valid() && fresh(m) && fresh(Repr - old(Repr))
      ensures View() == P.Enqueue(old(View()), r)
    {
      m := NewMessage(r);
      queue := queue + [m];
      assert Ids(queue) == old(Ids(queue)) + [m.id];
    }

    /** The writer's turn: the next message, or a NOP when the queue stays empty; appended before it is sent. */
    method WriterTake() returns (m: Message)
      requires Valid()
      modifies this
      ensures Valid() && fresh(Repr - old(Repr))
      ensures View() == if old(queue) != [] then P.TakeQueued(old(View())) else P.TakeIdle(old(View()))
      ensures requests == old(requests) + [m]
    {
      if queue != [] {
        m := queue[0];
        queue := queue[1..];
        assert Ids(queue) == old(Ids(queue))[1..];
      } else {
        m := NewMessage(Nop);
      }
      requests := requests + [m];
      assert Ids(requests) == old(Ids(requests)) + [m.id];
    }

    /** The reader's turn on a reply. False stands for an AssertionError: the message is popped all the same. */
    method ReaderPop(ret: int, data: bytes) returns (ok: bool)
      requires Valid() && requests != []
      modifies this, Repr
      ensures Valid() && Repr == old(Repr)
      ensures ok <==> Processed(old(requests[0]).request, ret, data).Some?
      ensures ok ==> P.ValidIds(old(View())) && View() == P.Pop(old(View()), ret, data)
      ensures !ok ==> requests == old(requests)[1..] && View().msgs == old(View().msgs)
    {
      hide Processed;
      var m := requests[0];
      requests := requests[1..];
      assert Ids(requests) == old(Ids(requests))[1..];
      ok := m.ProcessReply(ret, data);
      if ok {
        // "if not msg.done(): appendleft" never applies: a processed message is done
        assert m.event.IsSet();
        answered := answered + [m.id];
        assert View().msgs ==
               old(View().msgs)[m.id := old(View().msgs[m.id]).(outcome := Processed(m.request, ret, data))];
      }
    }

    method CancelMessage(m: Message)
      requires Valid() && Known([m])
      modifies this, Repr
      ensures Valid() && Repr == old(Repr)
      ensures m.id < |old(View()).msgs| && View() == P.CancelMessage(old(View()), m.id)
      ensures queue == old(queue) && requests == old(requests) && backlog == old(backlog)
      ensures all == old(all) && backoff == old(backoff)
    {
      assert [m][0] == m;
      m.Cancel();
    }

    /** A fresh connection: the deque becomes the backlog. */
    method StartConnection()
      requires Valid() && backlog == []
      modifies this
      ensures Valid() && Repr == old(Repr) && View() == P.StartConnection(old(View()))
    {
      backlog, requests := requests, [];
    }

    method AbortStart()
      requires Valid()
      modifies this
      ensures Valid() && Repr == old(Repr) && View() == P.AbortStart(old(View()))
    {
      requests, backlog := backlog, [];
    }

    /** The re-send loop, as long as the sends that it makes have an outcome. */
    method ResendBacklog(sends: seq<bool>) returns (done: bool)
      requires Valid()
      modifies this
      ensures Valid() && Repr == old(Repr) && (done <==> backlog == [])
      ensures P.ValidIds(old(View())) && View() == Rounds(old(View()), sends)
    {
      ValidView();
      var n := 0;
      assert sends[0..] == sends;
      while backlog != [] && (backlog[0].cancelled || n < |sends|)
        invariant Valid() && all == old(all) && Repr == old(Repr) && n <= |sends|
        invariant P.ValidIds(View()) && Rounds(View(), sends[n..]) == Rounds(old(View()), sends)
        decreases |backlog| + |sends| - n
      {
        ghost var rest := sends[n..];
        if backlog[0].cancelled {
          DropHead();
        } else {
          assert rest[0] == sends[n] && rest[1..] == sends[n + 1..];
          ResendHead(sends[n]);
          n := n + 1;
        }
        ValidView();
      }
      done := backlog == [];
    }

    /** A round on a cancelled message. */
    method DropHead()
      requires Valid() && backlog != [] && backlog[0].cancelled
      modifies this
      ensures Valid() && all == old(all) && Repr == old(Repr) && |backlog| == |old(backlog)| - 1
      ensures P.ValidIds(old(View())) && !P.Sends(old(View())) && View() == P.ResendOne(old(View()))
    {
      dropped := dropped + [backlog[0].id];
      backlog := backlog[1..];
      assert Ids(backlog) == old(Ids(backlog))[1..];
    }

    /** A round on another one: a message whose send raises goes back to the front. */
    method ResendHead(sent: bool)
      requires Valid() && backlog != [] && !backlog[0].cancelled
      modifies this
      ensures Valid() && all == old(all) && Repr == old(Repr) && |backlog| == |old(backlog)| - if sent then 1 else 0
      ensures P.ValidIds(old(View())) && P.Sends(old(View()))
      ensures View() == if sent then P.ResendOne(old(View())) else P.ResendFailed(old(View()))
    {
      var m := backlog[0];
      backlog := backlog[1..];
      assert Ids(backlog) == old(Ids(backlog))[1..];
      if sent {
        queue := queue + [m];
        assert Ids(queue) == old(Ids(queue)) + [m.id];
      } else {
        backlog := [m] + backlog;
        assert backlog == old(backlog);
      }
    }

    /** The end of aclose. */
    method CancelRequests()
      requires Valid()
      modifies this, Repr
      ensures Valid() && Repr == old(Repr)
      ensures P.ValidIds(old(View())) && View() == CancelEach(old(View()), old(Ids(requests)))
    {
      ValidView();
      var i := 0;
      assert requests[0..] == requests;
      while i < |requests|
        invariant 0 <= i <= |requests| && requests == old(requests)
        invariant Valid() && Repr == old(Repr) && |View().msgs| == |old(View()).msgs|
        invariant P.Below(Ids(requests[i..]), |View().msgs|)
        invariant CancelEach(View(), Ids(requests[i..])) == CancelEach(old(View()), old(Ids(requests)))
      {
        assert Ids(requests[i..])[1..] == Ids(requests[i + 1..]);
        CancelMessage(requests[i]);
        i := i + 1;
      }
    }

    lemma ValidView()
      requires Valid()
      ensures P.ValidIds(View())
    {
    }

    /** A lost connection: sleep this long, then try again. */
    method FailureDelay() returns (delay: real)
      modifies this`backoff
      ensures delay == old(backoff) && backoff == NextDelay(old(backoff))
    {
      delay := backoff;
      if backoff < DELAY_LIMIT {
        backoff := backoff * 1.5;
      }
    }

    method Connected()
      modifies this`backoff
      ensures backoff == SUCCESS_DELAY
    {
      backoff := SUCCESS_DELAY;
    }
  }
}
