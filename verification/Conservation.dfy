/** Where the messages are: every message ever made is in exactly one place, unless a connection is lost at the one
    moment at which the source forgets some. */
module Conservation {
  import opened Text
  import opened Messages
  import opened MockServer
  import opened EndToEnd
  import opened Pipeline
  import opened Runs

  function AllIds(n: nat): (ids: seq<nat>)
    ensures |ids| == n
  {
    seq(n, i requires 0 <= i < n => i)
  }

  function Places(c: Client): seq<nat> {
    c.queue + c.requests + c.backlog + c.answered + c.dropped
  }

  /** Every message ever made is in exactly one place, at one position. */
  ghost predicate Conserved(c: Client) {
    multiset(Places(c)) == multiset(AllIds(|c.msgs|))
  }

  lemma PlacesBag(c: Client)
    ensures multiset(Places(c)) ==
            multiset(c.queue) + multiset(c.requests) + multiset(c.backlog) + multiset(c.answered) + multiset(c.dropped)
  {
  }

  lemma HeadBag(s: seq<nat>)
    requires s != []
    ensures multiset(s) == multiset{s[0]} + multiset(s[1..])
  {
    assert s == [s[0]] + s[1..];
  }

  lemma AllIdsGrow(n: nat)
    ensures multiset(AllIds(n + 1)) == multiset(AllIds(n)) + multiset{n}
  {
    assert AllIds(n + 1) == AllIds(n) + [n];
  }

  lemma EnqueueConserves(c: Client, r: Request)
    requires Conserved(c)
    ensures Conserved(Enqueue(c, r)) && Conserved(TakeIdle(c))
  {
    PlacesBag(c);
    PlacesBag(Enqueue(c, r));
    PlacesBag(TakeIdle(c));
    AllIdsGrow(|c.msgs|);
  }

  lemma TakeConserves(c: Client)
    requires Conserved(c) && c.queue != []
    ensures Conserved(TakeQueued(c))
  {
    PlacesBag(c);
    PlacesBag(TakeQueued(c));
    HeadBag(c.queue);
  }

  lemma PopConserves(c: Client, ret: int, data: bytes)
    requires Conserved(c) && c.requests != [] && c.requests[0] < |c.msgs|
    requires Processed(c.msgs[c.requests[0]].request, ret, data).Some?
    ensures Conserved(Pop(c, ret, data))
  {
    hide Processed;
    PlacesBag(c);
    PlacesBag(Pop(c, ret, data));
    HeadBag(c.requests);
  }

  lemma ResendConserves(c: Client)
    requires Conserved(c) && c.backlog != [] && c.backlog[0] < |c.msgs|
    ensures Conserved(ResendOne(c))
  {
    PlacesBag(c);
    PlacesBag(ResendOne(c));
    HeadBag(c.backlog);
  }

  lemma StartConserves(c: Client)
    requires Conserved(c) && c.backlog == []
    ensures Conserved(StartConnection(c))
  {
  }

  /** The abort path keeps every message exactly when the new deque is still empty. */
  lemma AbortConservesIffEmpty(c: Client)
    requires Conserved(c)
    ensures Conserved(AbortStart(c)) <==> c.requests == []
  {
  }

  /** And it can lose one: connect, submit, take, and lose the connection before its tasks are up. The message
      is then in no place at all, neither answered nor cancelled. */
  lemma AbortLosesMessage(t: Tree) returns (states: seq<System>, steps: seq<Step>)
    requires WellNamed(t)
    ensures IsRun(states, steps)
    ensures var c := states[|steps|].client;
            Places(c) == [] && |c.msgs| == 1 && c.msgs[0] == Record(Nop, false, None)
  {
    hide Plain, ServeFrame, Processed;
    NopAdmissible();
    var s0 := System(Client([], [], [], [], [], []), Down, None, [], [], t, []);
    var s1 := Next(s0, Connect).value;
    var s2 := Next(s1, Submit(Nop)).value;
    var s3 := Next(s2, Take).value;
    var s4 := Next(s3, Abort).value;
    states, steps := [s0, s1, s2, s3, s4], [Connect, Submit(Nop), Take, Abort];
  }

  /** No step duplicates or loses a message, except an abort that finds messages in the new deque. */
  lemma StepConserves(s: System, step: Step)
    requires Conserved(s.client) && Enabled(s, step) && Next(s, step).Some?
    requires step.Abort? ==> s.client.requests == []
    ensures Conserved(Next(s, step).value.client)
  {
    hide ServeFrame, Processed, Places, ReadByClient, RequestFrame, Enqueue, TakeQueued, TakeIdle, Pop, ResendOne,
         StartConnection, AbortStart, Admissible;
    var c := s.client;
    match step {
      case Submit(r) => EnqueueConserves(c, r);
      case Idle => EnqueueConserves(c, Nop);
      case Take => TakeConserves(c);
      case ReadReply =>
        var got := ReadByClient(s.s2c[0].reply);
        PopConserves(c, got.ret, got.data);
      case Resend => ResendConserves(c);
      case Connect => StartConserves(c);
      case Abort => AbortConservesIffEmpty(c);
      case Cancel(id) => CancelConserves(c, id);
      case _ =>
    }
  }

  lemma CancelConserves(c: Client, id: nat)
    requires Conserved(c) && id < |c.msgs|
    ensures Conserved(CancelMessage(c, id))
  {
  }

  /** Every abort in the run found the new deque empty. */
  ghost predicate CleanAborts(states: seq<System>, steps: seq<Step>) {
    |states| > |steps| && forall i :: 0 <= i < |steps| && steps[i] == Abort ==> states[i].client.requests == []
  }

  lemma {:induction false} RunConserves(states: seq<System>, steps: seq<Step>, k: nat)
    requires IsRun(states, steps) && CleanAborts(states, steps) && k <= |steps|
    ensures Conserved(states[k].client)
  {
    hide Next, Enabled;
    if k > 0 {
      RunConserves(states, steps, k - 1);
      StepConserves(states[k - 1], steps[k - 1]);
    }
  }

  /** And no other runs do: every message is in exactly one place throughout, if and only if every abort found the new
      deque empty. */
  lemma RunConservesExactlyWhen(states: seq<System>, steps: seq<Step>)
    requires IsRun(states, steps)
    ensures (forall k :: 0 <= k <= |steps| ==> Conserved(states[k].client)) <==> CleanAborts(states, steps)
  {
    hide Next, Enabled, Conserved;
    if CleanAborts(states, steps) {
      forall k | 0 <= k <= |steps| ensures Conserved(states[k].client) {
        RunConserves(states, steps, k);
      }
    } else {
      var i :| 0 <= i < |steps| && steps[i] == Abort && states[i].client.requests != [];
      AbortIs(states[i], states[i + 1]);
      if Conserved(states[i].client) && Conserved(states[i + 1].client) {
        AbortConservesIffEmpty(states[i].client);
        assert false;
      }
    }
  }

  lemma AbortIs(s: System, t: System)
    requires Next(s, Abort) == Some(t)
    ensures t.client == AbortStart(s.client)
  {
  }

  /** A message in no place is in none after any step, and gets no answer but a cancellation by its caller. */
  lemma LostStays(s: System, step: Step, id: nat)
    requires Enabled(s, step) && Next(s, step).Some? && id < |s.client.msgs| && id !in Places(s.client)
    ensures var c, d := s.client, Next(s, step).value.client;
            id < |d.msgs| && id !in Places(d) && d.msgs[id].request == c.msgs[id].request &&
            d.msgs[id].outcome in {c.msgs[id].outcome, Some(Cancelled)}
  {
    hide ServeFrame, Processed, ReadByClient, RequestFrame, Admissible;
  }

  /** So a lost message is never answered, however the run goes on. */
  lemma {:induction false} LostForever(states: seq<System>, steps: seq<Step>, j: nat, k: nat, id: nat)
    requires IsRun(states, steps) && j <= k <= |steps| && id < |states[j].client.msgs| &&
             id !in Places(states[j].client)
    ensures var c, d := states[j].client, states[k].client;
            id < |d.msgs| && id !in Places(d) && d.msgs[id].request == c.msgs[id].request &&
            d.msgs[id].outcome in {c.msgs[id].outcome, Some(Cancelled)}
    decreases k
  {
    hide Next, Enabled, Places;
    if j < k {
      LostForever(states, steps, j, k - 1, id);
      LostStays(states[k - 1], steps[k - 1], id);
    }
  }

  lemma {:induction false} AllIdsOnce(n: nat, id: nat)
    requires id < n
    ensures multiset(AllIds(n))[id] == 1
  {
    assert AllIds(n) == AllIds(n - 1) + [n - 1];
    if id < n - 1 {
      AllIdsOnce(n - 1, id);
    } else {
      assert id !in AllIds(n - 1);
    }
  }

  /** In a run with clean aborts, every message submitted is in exactly one of the write queue, the deque,
      the backlog, the answered and the dropped messages, once; and only cancelled messages are dropped. */
  lemma ExactlyOnePlace(states: seq<System>, steps: seq<Step>, k: nat, id: nat)
    requires IsRun(states, steps) && CleanAborts(states, steps) && k <= |steps|
    requires id < |states[k].client.msgs|
    ensures var c := states[k].client;
            multiset(c.queue)[id] + multiset(c.requests)[id] + multiset(c.backlog)[id] +
            multiset(c.answered)[id] + multiset(c.dropped)[id] == 1 &&
            (id in c.dropped ==> c.msgs[id].cancelled)
  {
    hide Next, Enabled, InFlightGenuine, OutcomesGenuine, Admissible;
    var c := states[k].client;
    RunConserves(states, steps, k);
    RunKeeps(states, steps, k);
    AllIdsOnce(|c.msgs|, id);
    PlacesBag(c);
  }
}
