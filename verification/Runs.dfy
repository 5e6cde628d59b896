/** Runs of the request engine: in every one of them chat returns its own answer and nothing raises. */
module Runs {
  import opened Text
  import opened Messages
  import opened MockServer
  import opened EndToEnd
  import opened Pipeline

  /** A run: a start state, steps, and the states they lead to. */
  ghost predicate IsRun(states: seq<System>, steps: seq<Step>) {
    |states| == |steps| + 1 && Initial(states[0]) &&
    forall i :: 0 <= i < |steps| ==>
      Enabled(states[i], steps[i]) && Next(states[i], steps[i]) == Some(states[i + 1])
  }

  lemma StepKeeps(s: System, step: Step)
    requires Inv(s) && Enabled(s, step)
    ensures Next(s, step).Some? && Inv(Next(s, step).value)
  {
    hide Next, Enabled, WellFormed, Matched, InFlightGenuine, OutcomesGenuine;
    NeverRaises(s, step);
    StepWellFormed(s, step);
    StepMatched(s, step);
    StepInFlight(s, step);
    StepOutcomes(s, step);
  }

  lemma {:induction false} RunKeeps(states: seq<System>, steps: seq<Step>, k: nat)
    requires IsRun(states, steps) && k <= |steps|
    ensures Inv(states[k])
  {
    hide Next, Enabled, Genuine, Admissible;
    if k > 0 {
      RunKeeps(states, steps, k - 1);
      StepKeeps(states[k - 1], steps[k - 1]);
    }
  }

  /** A message's request never changes. */
  lemma {:induction false} RequestsStay(states: seq<System>, steps: seq<Step>, j: nat, k: nat)
    requires IsRun(states, steps) && j <= k <= |steps|
    ensures Extends(states[j].client, states[k].client)
    decreases k - j
  {
    hide Next, Enabled;
    if j < k {
      RequestsStay(states, steps, j, k - 1);
      assert Next(states[k - 1], steps[k - 1]) == Some(states[k]);
      StepExtends(states[k - 1], steps[k - 1]);
    }
  }

  /** The step that made an entry of the service history. */
  ghost predicate MadeAt(states: seq<System>, steps: seq<Step>, j: nat, v: Service) {
    j < |steps| && j < |states| && steps[j] == ServerAnswer && states[j].c2s != [] &&
    states[j].c2s[0].id == v.id && states[j].tree == v.before
  }

  lemma {:induction false} ServedInRun(states: seq<System>, steps: seq<Step>, k: nat, v: Service) returns (j: nat)
    requires IsRun(states, steps) && k <= |steps| && v in states[k].served
    ensures j < k && MadeAt(states, steps, j, v)
  {
    hide Next, Enabled;
    var before := states[k - 1];
    if v in before.served {
      j := ServedInRun(states, steps, k - 1, v);
    } else {
      j := k - 1;
      OnlyAnswersServe(before, steps[k - 1], v);
    }
  }

  lemma OnlyAnswersServe(s: System, step: Step, v: Service)
    requires Next(s, step).Some? && v in Next(s, step).value.served && v !in s.served
    ensures step == ServerAnswer && s.c2s != [] && s.c2s[0].id == v.id && s.tree == v.before
  {
  }

  /** In every run, the outcome chat finds in its message is Cancelled or what the plain operation yields
      on the tree of the moment at which the server took that very message's command. */
  lemma ChatReturnsItsOwnAnswer(states: seq<System>, steps: seq<Step>, k: nat, id: nat) returns (j: nat)
    requires IsRun(states, steps) && k <= |steps| && id < |states[k].client.msgs|
    requires states[k].client.msgs[id].outcome !in {None, Some(Cancelled)}
    ensures j < k && steps[j] == ServerAnswer && states[j].c2s != [] && states[j].c2s[0].id == id
    ensures Plain(states[j].tree, states[k].client.msgs[id].request).0 == Done(states[k].client.msgs[id].outcome.value)
  {
    hide Plain, ServeFrame, Processed, Next, Enabled, RequestFits;
    RunKeeps(states, steps, k);
    var s := states[k];
    var m := s.client.msgs[id];
    var v :| v in s.served && AnsweredBy(m, id, v);
    ServedIsProcessed(v.before, m.request);
    j := ServedInRun(states, steps, k, v);
  }

  /** So what chat(r) finds is what the plain operation yields for r itself, on the tree of some moment after it was
      called. */
  lemma ChatAnswersItsRequest(states: seq<System>, steps: seq<Step>, a: nat, k: nat) returns (j: nat)
    requires IsRun(states, steps) && a < k <= |steps| && steps[a].Submit?
    requires |states[a].client.msgs| < |states[k].client.msgs|
    requires states[k].client.msgs[|states[a].client.msgs|].outcome !in {None, Some(Cancelled)}
    ensures a < j < k && steps[j] == ServerAnswer
    ensures Plain(states[j].tree, steps[a].request).0 ==
            Done(states[k].client.msgs[|states[a].client.msgs|].outcome.value)
  {
    hide Plain, Next, Enabled;
    var id := |states[a].client.msgs|;
    j := ChatReturnsItsOwnAnswer(states, steps, k, id);
    assert Next(states[a], steps[a]) == Some(states[a + 1]);
    SubmitStores(states[a], steps[a]);
    RequestsStay(states, steps, a + 1, k);
    RunKeeps(states, steps, j);
    SentIsKnown(states[j]);
    if j <= a {
      RequestsStay(states, steps, j, a);
    }
  }

  lemma SubmitStores(s: System, step: Step)
    requires step.Submit? && Next(s, step).Some?
    ensures var c, d := s.client, Next(s, step).value.client;
            |d.msgs| == |c.msgs| + 1 && d.msgs[|c.msgs|].request == step.request
  {
  }

  /** A step makes or changes at most one message: a submission and an idle writer make one, a reply completes the head
      of the deque, and a cancellation cancels the message it names. */
  lemma StepRecords(s: System, step: Step)
    requires Enabled(s, step) && Next(s, step).Some?
    ensures var c, d := s.client, Next(s, step).value.client;
            match step
            case Submit(r) => d.msgs == c.msgs + [Record(r, false, None)]
            case Idle => d.msgs == c.msgs + [Record(Nop, false, None)]
            case Cancel(id) =>
              |d.msgs| == |c.msgs| && d.msgs[id] == Record(c.msgs[id].request, true, Some(Cancelled)) &&
              forall j :: 0 <= j < |c.msgs| && j != id ==> d.msgs[j] == c.msgs[j]
            case ReadReply =>
              |d.msgs| == |c.msgs| && c.requests != [] &&
              forall j :: 0 <= j < |c.msgs| && j != c.requests[0] ==> d.msgs[j] == c.msgs[j]
            case _ => d.msgs == c.msgs
  {
    hide ServeFrame, Processed, Admissible;
  }

  lemma SentIsKnown(s: System)
    requires Inv(s)
    ensures forall x :: x in s.c2s ==> x.id < |s.client.msgs|
  {
    hide Matched, OutcomesGenuine, WellFormed, Genuine;
  }

  /** In every run, no enabled step raises an exception and the deque is matched. */
  lemma RunsAreSafe(states: seq<System>, steps: seq<Step>, k: nat, step: Step)
    requires IsRun(states, steps) && k <= |steps| && Enabled(states[k], step)
    ensures Next(states[k], step).Some?
    ensures states[k].phase != Down ==> states[k].client.requests == Owners(states[k])
  {
    hide Next, Enabled, InFlightGenuine, OutcomesGenuine, WellFormed;
    RunKeeps(states, steps, k);
    NeverRaises(states[k], step);
  }

  // ---------------------------------------------------------------- first in, first out

  /** The message that a step puts into the write queue: a new one, or one that is sent again. */
  function Entering(s: System, step: Step): seq<nat> {
    var c := s.client;
    if step.Submit? then [|c.msgs|] else if step.Resend? && Sends(c) then [c.backlog[0]] else []
  }

  /** All that have entered the queue, and all that the writer has taken from it, in order. */
  function Entered(states: seq<System>, steps: seq<Step>, k: nat): seq<nat>
    requires k <= |steps| < |states|
  {
    if k == 0 then [] else Entered(states, steps, k - 1) + Entering(states[k - 1], steps[k - 1])
  }

  function TakenFrom(states: seq<System>, steps: seq<Step>, k: nat): seq<nat>
    requires k <= |steps| < |states|
  {
    if k == 0 then []
    else
      var c := states[k - 1].client;
      TakenFrom(states, steps, k - 1) + if steps[k - 1].Take? && c.queue != [] then [c.queue[0]] else []
  }

  lemma QueueStep(s: System, step: Step)
    requires Enabled(s, step) && Next(s, step).Some?
    ensures var c, d := s.client, Next(s, step).value.client;
            d.queue == (if step.Take? then c.queue[1..] else c.queue) + Entering(s, step)
  {
    hide ServeFrame, Processed, Admissible;
  }

  /** What has been taken, and then what is in the queue, is what has entered it. */
  lemma {:induction false} QueueIsFifo(states: seq<System>, steps: seq<Step>, k: nat)
    requires IsRun(states, steps) && k <= |steps|
    ensures TakenFrom(states, steps, k) + states[k].client.queue == Entered(states, steps, k)
  {
    hide Next, Enabled, Entering;
    if k > 0 {
      QueueIsFifo(states, steps, k - 1);
      var s, t := states[k - 1], states[k];
      assert Next(s, steps[k - 1]) == Some(t);
      QueueStep(s, steps[k - 1]);
      if steps[k - 1].Take? {
        TakeHasHead(s);
        assert s.client.queue == [s.client.queue[0]] + s.client.queue[1..];
      }
    }
  }

  lemma TakeHasHead(s: System)
    requires Enabled(s, Take)
    ensures s.client.queue != []
  {
  }

  lemma {:induction false} EnteredPrefix(states: seq<System>, steps: seq<Step>, j: nat, k: nat)
    requires j <= k <= |steps| < |states|
    ensures Entered(states, steps, j) <= Entered(states, steps, k)
    decreases k
  {
    hide Entering;
    if j < k {
      EnteredPrefix(states, steps, j, k - 1);
    }
  }

  lemma {:induction false} EnteredBy(states: seq<System>, steps: seq<Step>, k: nat, y: nat) returns (n: nat)
    requires k <= |steps| < |states| && y < |Entered(states, steps, k)|
    ensures n < k && |Entered(states, steps, n)| == y
    ensures Entering(states[n], steps[n]) == [Entered(states, steps, k)[y]]
  {
    if y < |Entered(states, steps, k - 1)| {
      n := EnteredBy(states, steps, k - 1, y);
    } else {
      n := k - 1;
    }
  }

  lemma SubmitGrows(states: seq<System>, steps: seq<Step>, j: nat, k: nat)
    requires IsRun(states, steps) && j < k <= |steps| && steps[j].Submit?
    ensures |states[j].client.msgs| < |states[k].client.msgs|
  {
    RequestsStay(states, steps, j + 1, k);
    assert Next(states[j], steps[j]) == Some(states[j + 1]);
  }

  /** Of two messages the one that was submitted first is taken first, unless the other one has been sent again. */
  lemma TakenInOrder(states: seq<System>, steps: seq<Step>, k: nat, a: nat, b: nat, y: nat)
    requires IsRun(states, steps) && a < b < k <= |steps| && steps[a].Submit? && steps[b].Submit?
    requires y < |TakenFrom(states, steps, k)| && TakenFrom(states, steps, k)[y] == |states[b].client.msgs|
    requires forall n :: 0 <= n < k && steps[n] == Resend ==>
               states[n].client.backlog != [] ==> states[n].client.backlog[0] != |states[b].client.msgs|
    ensures exists x :: 0 <= x < y && TakenFrom(states, steps, k)[x] == |states[a].client.msgs|
  {
    hide Next, Enabled, TakenFrom;
    QueueIsFifo(states, steps, k);
    var n := EnteredBy(states, steps, k, y);
    if n < b {
      SubmitGrows(states, steps, n, b);
    } else if b < n {
      SubmitGrows(states, steps, b, n);
    }
    EnteredPrefix(states, steps, a + 1, b);
    EnteredPrefix(states, steps, a + 1, k);
    var x := |Entered(states, steps, a)|;
    assert Entered(states, steps, a + 1)[x] == |states[a].client.msgs|;
    assert TakenFrom(states, steps, k)[x] == Entered(states, steps, k)[x];
  }

  // ---------------------------------------------------------------- sends that fail

  /** A re-send that fails can be followed by any number of others: from any reachable state in which a message is still
      to be re-sent, the run goes on with n failing rounds, and nothing has changed. */
  lemma {:induction false} FailingRounds(states: seq<System>, steps: seq<Step>, n: nat)
    returns (states': seq<System>, steps': seq<Step>)
    requires IsRun(states, steps) && states[|steps|].phase != Starting && Sends(states[|steps|].client)
    ensures IsRun(states', steps') && |steps'| == |steps| + n && steps <= steps' && states <= states'
    ensures forall i :: |steps| <= i < |steps'| ==> steps'[i] == ResendFails
    ensures states'[|steps'|] == states[|steps|]
  {
    hide Initial;
    if n == 0 {
      states', steps' := states, steps;
    } else {
      states', steps' := FailingRounds(states, steps, n - 1);
      states', steps' := states' + [states'[|steps'|]], steps' + [ResendFails];
    }
  }

  /** A connection that is lost while a message is still to be re-sent is not followed by another one until some re-send
      gets through, or the message is cancelled: its loop goes on. */
  lemma {:induction false} NoReconnect(states: seq<System>, steps: seq<Step>, j: nat, k: nat)
    requires IsRun(states, steps) && j <= k <= |steps| && states[j].phase == Down && states[j].client.backlog != []
    requires forall i :: j <= i < k ==> steps[i] != Resend
    ensures states[k].phase == Down && states[k].client.backlog == states[j].client.backlog
    decreases k
  {
    hide Initial, Admissible, ServeFrame, Processed;
    if j < k {
      NoReconnect(states, steps, j, k - 1);
      assert Enabled(states[k - 1], steps[k - 1]) && Next(states[k - 1], steps[k - 1]) == Some(states[k]);
    }
  }
}
