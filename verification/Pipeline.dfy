/** The pipelined request engine as a step system (asyncowfs/server.py): any interleaving of requests,
    idle NOPs, busy frames, replies, cancellations, lost connections, reconnects and re-sends.
    Replies carry no identification; the client matches them by position alone. The message numbers
    inside the connection are history: no client step looks at them. */
module Pipeline {
  import opened Text
  import opened Wire
  import opened Messages
  import opened MockServer
  import opened EndToEnd

  // ---------------------------------------------------------------- the client

  /** One message ever made; its number is its position. */
  datatype Record = Record(request: Request, cancelled: bool, outcome: Option<Outcome>)

  /** The write queue, the `requests` deque, and the messages still to be re-sent after a reconnect.
      `answered` and `dropped` record completed messages and those skipped on re-send. */
  datatype Client = Client(
    msgs: seq<Record>,
    queue: seq<nat>,
    requests: seq<nat>,
    backlog: seq<nat>,
    answered: seq<nat>,
    dropped: seq<nat>
  )

  predicate Below(ids: seq<nat>, n: nat) {
    forall i :: 0 <= i < |ids| ==> ids[i] < n
  }

  predicate ValidIds(c: Client) {
    Below(c.queue, |c.msgs|) && Below(c.requests, |c.msgs|) && Below(c.backlog, |c.msgs|) &&
    Below(c.answered, |c.msgs|) && Below(c.dropped, |c.msgs|)
  }

  /** chat: the message enters the write queue. */
  function Enqueue(c: Client, r: Request): Client {
    c.(msgs := c.msgs + [Record(r, false, None)], queue := c.queue + [|c.msgs|])
  }

  /** The writer takes the next message, and appends it before sending it. */
  function TakeQueued(c: Client): Client
    requires c.queue != []
  {
    c.(requests := c.requests + [c.queue[0]], queue := c.queue[1..])
  }

  /** The writer times out on an empty queue and makes a NOP. */
  function TakeIdle(c: Client): Client {
    c.(msgs := c.msgs + [Record(Nop, false, None)], requests := c.requests + [|c.msgs|])
  }

  /** The reader pops the head and hands it the reply. */
  function Pop(c: Client, ret: int, data: bytes): Client
    requires c.requests != [] && c.requests[0] < |c.msgs|
    requires Processed(c.msgs[c.requests[0]].request, ret, data).Some?
  {
    var id := c.requests[0];
    c.(requests := c.requests[1..],
       msgs := c.msgs[id := c.msgs[id].(outcome := Processed(c.msgs[id].request, ret, data))],
       answered := c.answered + [id])
  }

  function CancelMessage(c: Client, id: nat): Client
    requires id < |c.msgs|
  {
    c.(msgs := c.msgs[id := c.msgs[id].(cancelled := true, outcome := Some(Cancelled))])
  }

  /** A new connection starts with an empty deque; the old one becomes the backlog. */
  function StartConnection(c: Client): Client {
    c.(backlog := c.requests, requests := [])
  }

  /** One round of the re-send loop, in which a send succeeds if there is one. */
  function ResendOne(c: Client): Client
    requires c.backlog != [] && c.backlog[0] < |c.msgs|
  {
    var id := c.backlog[0];
    if c.msgs[id].cancelled then c.(backlog := c.backlog[1..], dropped := c.dropped + [id])
    else c.(backlog := c.backlog[1..], queue := c.queue + [id])
  }

  /** A round whose send raises: whatever the exception, a cancellation included, the message is put back. */
  function ResendFailed(c: Client): (after: Client)
    requires c.backlog != []
    ensures after == c
  {
    var rest := c.backlog[1..];
    c.(backlog := [c.backlog[0]] + rest)
  }

  /** The head of the backlog is still to be sent. */
  predicate Sends(c: Client) {
    c.backlog != [] && c.backlog[0] < |c.msgs| && !c.msgs[c.backlog[0]].cancelled
  }

  /** The exception path while the connection's tasks are being started: it overwrites the deque. */
  function AbortStart(c: Client): Client {
    c.(requests := c.backlog, backlog := [])
  }

  // ---------------------------------------------------------------- the whole system

  datatype Phase = Down | Starting | Running

  datatype Command = Command(id: nat, frame: Frame)
  datatype FromServer = BusyFrame(flags: int) | ReplyFrame(id: nat, reply: Frame)

  /** One command the server has answered: for which message, on which tree, with which reply. */
  datatype Service = Service(id: nat, before: Tree, reply: Frame)

  datatype System = System(
    client: Client,
    phase: Phase,
    unsent: Option<nat>,        // appended to the deque, not yet sent
    c2s: seq<Command>,          // sent, not yet taken by the server
    s2c: seq<FromServer>,       // sent back, not yet read
    tree: Tree,
    served: seq<Service>
  )

  datatype Step =
    | Submit(request: Request)
    | Take
    | Idle
    | Send
    | ServerBusy(flags: int)
    | ServerAnswer
    | ReadBusy
    | ReadReply
    | Cancel(id: nat)
    | Lose          // the connection is lost
    | Connect
    | Begin         // the connection's tasks are up: re-sending starts
    | Resend
    | ResendFails
    | Abort         // the connection is lost before that
    | Change(tree: Tree)  // somebody else changes the tree
    | Stay

  function ServeFrame(t: Tree, f: Frame): Served {
    Serve(t, f.typ, f.flags, Payload(f), if Payload(f) == [] then 0 else f.rlen)
  }

  /** What the client's reader makes of a frame. */
  function ReadByClient(f: Frame): Received {
    ViewOf(false, f)
  }

  ghost predicate Admissible(r: Request) {
    AreParts(PathOf(r)) && RequestFits(r)
  }

  ghost predicate Enabled(s: System, step: Step) {
    var c := s.client;
    match step
    case Submit(r) => Admissible(r)
    case Take => s.phase != Down && s.unsent.None? && c.queue != []
    case Idle => s.phase != Down && s.unsent.None? && c.queue == []
    case Send => s.unsent.Some?
    case ServerBusy(flags) => s.phase != Down && IsInt32(flags)
    case ServerAnswer =>
      s.c2s != [] &&
      ServeFrame(s.tree, s.c2s[0].frame).Answer? && Sendable(ServeFrame(s.tree, s.c2s[0].frame).reply)
    case ReadBusy => s.s2c != [] && s.s2c[0].BusyFrame?
    case ReadReply => s.s2c != [] && s.s2c[0].ReplyFrame?
    case Cancel(id) => id < |c.msgs|
    case Lose => s.phase == Running
    case Connect => s.phase == Down && c.backlog == []
    case Begin => s.phase == Starting
    case Resend => s.phase != Starting && c.backlog != []
    case ResendFails => s.phase != Starting && Sends(c)
    case Abort => s.phase == Starting
    case Change(t) => WellNamed(t)
    case Stay => true
  }

  function Disconnected(s: System, c: Client): System {
    s.(client := c, phase := Down, unsent := None, c2s := [], s2c := [])
  }

  function AfterSend(s: System): Option<System> {
    if s.unsent.None? || s.unsent.value >= |s.client.msgs| then None
    else
      var id := s.unsent.value;
      Some(s.(unsent := None, c2s := s.c2s + [Command(id, RequestFrame(s.client.msgs[id].request))]))
  }

  function AfterAnswer(s: System): Option<System> {
    if s.c2s == [] then None
    else
      var result := ServeFrame(s.tree, s.c2s[0].frame);
      if result.Died? then None
      else
        Some(s.(c2s := s.c2s[1..], s2c := s.s2c + [ReplyFrame(s.c2s[0].id, result.reply)], tree := result.tree,
                served := s.served + [Service(s.c2s[0].id, s.tree, result.reply)]))
  }

  function AfterRead(s: System): Option<System> {
    if s.s2c == [] || !s.s2c[0].ReplyFrame? then None
    else
      var c := s.client;
      var got := ReadByClient(s.s2c[0].reply);
      if !got.ToClient? || c.requests == [] || c.requests[0] >= |c.msgs| then None
      else if Processed(c.msgs[c.requests[0]].request, got.ret, got.data).None? then None
      else Some(s.(s2c := s.s2c[1..], client := Pop(c, got.ret, got.data)))
  }

  function AfterResend(s: System): Option<System> {
    var c := s.client;
    if c.backlog == [] || c.backlog[0] >= |c.msgs| then None else Some(s.(client := ResendOne(c)))
  }

  /** One step. Where the source would raise an exception instead, the result is None. */
  function Next(s: System, step: Step): Option<System> {
    var c := s.client;
    match step
    case Submit(r) => Some(s.(client := Enqueue(c, r)))
    case Take => if c.queue == [] then None else Some(s.(client := TakeQueued(c), unsent := Some(c.queue[0])))
    case Idle => Some(s.(client := TakeIdle(c), unsent := Some(|c.msgs|)))
    case Send => AfterSend(s)
    case ServerBusy(flags) => Some(s.(s2c := s.s2c + [BusyFrame(flags)]))
    case ServerAnswer => AfterAnswer(s)
    case ReadBusy => if s.s2c == [] then None else Some(s.(s2c := s.s2c[1..]))
    case ReadReply => AfterRead(s)
    case Cancel(id) => if id >= |c.msgs| then None else Some(s.(client := CancelMessage(c, id)))
    case Lose => Some(Disconnected(s, c))
    case Connect => Some(s.(client := StartConnection(c), phase := Starting))
    case Begin => Some(s.(phase := Running))
    case Resend => AfterResend(s)
    case ResendFails => if c.backlog == [] then None else Some(s.(client := ResendFailed(c)))
    case Abort => Some(Disconnected(s, AbortStart(c)))
    case Change(t) => Some(s.(tree := t))
    case Stay => Some(s)
  }

  ghost predicate Initial(s: System) {
    s.client == Client([], [], [], [], [], []) && s.phase == Down && s.unsent == None &&
    s.c2s == [] && s.s2c == [] && s.served == [] && WellNamed(s.tree)
  }

  // ---------------------------------------------------------------- the queue invariant

  function ReplyIds(s2c: seq<FromServer>): seq<nat> {
    if s2c == [] then []
    else (if s2c[0].ReplyFrame? then [s2c[0].id] else []) + ReplyIds(s2c[1..])
  }

  function CommandIds(c2s: seq<Command>): seq<nat> {
    if c2s == [] then [] else [c2s[0].id] + CommandIds(c2s[1..])
  }

  function UnsentIds(unsent: Option<nat>): seq<nat> {
    if unsent.None? then [] else [unsent.value]
  }

  /** The owners of the replies in flight, then of the commands in flight, then the unsent message. */
  function Owners(s: System): seq<nat> {
    ReplyIds(s.s2c) + CommandIds(s.c2s) + UnsentIds(s.unsent)
  }

  ghost predicate Matched(s: System) {
    if s.phase == Down then s.s2c == [] && s.c2s == [] && s.unsent == None
    else s.client.requests == Owners(s)
  }

  /** The reply belongs to the message: it is what the server answered to that very request. */
  ghost predicate Genuine(c: Client, v: Service) {
    v.id < |c.msgs| && WellNamed(v.before) && Sendable(v.reply) &&
    ServeFrame(v.before, RequestFrame(c.msgs[v.id].request)).Answer? &&
    ServeFrame(v.before, RequestFrame(c.msgs[v.id].request)).reply == v.reply
  }

  ghost predicate Justified(served: seq<Service>, id: nat, reply: Frame) {
    exists v :: v in served && v.id == id && v.reply == reply
  }

  ghost predicate InFlightGenuine(s: System) {
    (forall x :: x in s.c2s ==>
       x.id < |s.client.msgs| && x.frame == RequestFrame(s.client.msgs[x.id].request)) &&
    (forall v :: v in s.served ==> Genuine(s.client, v)) &&
    (forall x :: x in s.s2c && x.ReplyFrame? ==> Justified(s.served, x.id, x.reply))
  }

  /** The outcome is the client's reading of a reply the server made to this message. */
  ghost predicate AnsweredBy(m: Record, id: nat, v: Service) {
    v.id == id && ReadByClient(v.reply).ToClient? && m.outcome.Some? &&
    Processed(m.request, ReadByClient(v.reply).ret, ReadByClient(v.reply).data) == m.outcome
  }

  ghost predicate OutcomesGenuine(s: System) {
    forall id :: 0 <= id < |s.client.msgs| ==>
      var m := s.client.msgs[id];
      m.outcome in {None, Some(Cancelled)} || exists v :: v in s.served && AnsweredBy(m, id, v)
  }

  ghost predicate WellFormed(s: System) {
    WellNamed(s.tree) && ValidIds(s.client) &&
    (s.unsent.Some? ==> s.unsent.value < |s.client.msgs|) &&
    (forall id :: 0 <= id < |s.client.msgs| ==> Admissible(s.client.msgs[id].request)) &&
    (forall i :: 0 <= i < |s.client.dropped| ==> s.client.msgs[s.client.dropped[i]].cancelled)
  }

  ghost predicate Inv(s: System) {
    WellFormed(s) && Matched(s) && InFlightGenuine(s) && OutcomesGenuine(s)
  }

  // ---------------------------------------------------------------- every step keeps it

  lemma {:induction false} ReplyIdsAppend(s2c: seq<FromServer>, x: FromServer)
    ensures ReplyIds(s2c + [x]) == ReplyIds(s2c) + (if x.ReplyFrame? then [x.id] else [])
  {
    if s2c == [] {
      assert [x][1..] == [];
    } else {
      ReplyIdsAppend(s2c[1..], x);
      assert (s2c + [x])[1..] == s2c[1..] + [x];
    }
  }

  lemma {:induction false} CommandIdsAppend(c2s: seq<Command>, x: Command)
    ensures CommandIds(c2s + [x]) == CommandIds(c2s) + [x.id]
  {
    if c2s == [] {
      assert [x][1..] == [];
    } else {
      CommandIdsAppend(c2s[1..], x);
      assert (c2s + [x])[1..] == c2s[1..] + [x];
    }
  }

  /** The reader never pops an empty deque, and the head it pops is the owner of the reply it holds. */
  lemma HeadOwnsReply(s: System)
    requires s.phase != Down && Matched(s) && s.s2c != [] && s.s2c[0].ReplyFrame?
    ensures s.client.requests != [] && s.client.requests[0] == s.s2c[0].id
    ensures s.client.requests[1..] == Owners(s.(s2c := s.s2c[1..]))
  {
    hide CommandIds, UnsentIds;
    var head, rest := [s.s2c[0].id], ReplyIds(s.s2c[1..]);
    assert Owners(s) == head + (rest + CommandIds(s.c2s) + UnsentIds(s.unsent));
  }

  lemma SendMatched(s: System)
    requires Matched(s) && AfterSend(s).Some?
    ensures Matched(AfterSend(s).value)
  {
    var t := AfterSend(s).value;
    CommandIdsAppend(s.c2s, t.c2s[|s.c2s|]);
    assert Owners(t) == Owners(s);
  }

  lemma AnswerMatched(s: System)
    requires Matched(s) && AfterAnswer(s).Some?
    ensures Matched(AfterAnswer(s).value)
  {
    hide Serve;
    var t := AfterAnswer(s).value;
    ReplyIdsAppend(s.s2c, t.s2c[|s.s2c|]);
    assert CommandIds(s.c2s) == [s.c2s[0].id] + CommandIds(s.c2s[1..]);
    assert Owners(t) == Owners(s);
  }

  /** `requests` stays equal to the owners of what is in flight, whatever step is taken. */
  lemma StepMatched(s: System, step: Step)
    requires Matched(s) && Enabled(s, step) && Next(s, step).Some?
    ensures Matched(Next(s, step).value)
  {
    hide AfterSend, AfterAnswer;
    match step {
      case Send => SendMatched(s);
      case ServerBusy(flags) => ReplyIdsAppend(s.s2c, BusyFrame(flags));
      case ServerAnswer => AnswerMatched(s);
      case ReadReply => HeadOwnsReply(s);
      case _ =>
    }
  }

  /** A request the server answers, on a tree it can list, is answered as the plain operation says. */
  lemma ServedIsPlain(t: Tree, r: Request)
    requires Admissible(r) && WellNamed(t)
    requires ServeFrame(t, RequestFrame(r)).Answer?
    ensures var served := ServeFrame(t, RequestFrame(r));
            ReplyShape(served.reply) && (Understood(r, served.reply), served.tree) == Plain(t, r)
  {
    hide Serve, Exchange, Plain;
    ExchangeServed(t, r, ServeFrame(t, RequestFrame(r)));
    ExchangeIsPlain(t, r);
  }

  lemma ReplyIsRead(r: Request, f: Frame)
    requires ReplyShape(f) && Sendable(f)
    ensures var got := ReadByClient(f);
            got.ToClient? &&
            Understood(r, f) == match Processed(r, got.ret, got.data)
                                case None => Lost
                                case Some(o) => Done(o)
  {
  }

  lemma ReplyTypeNotPositive(t: Tree, command: int, flags: int, data: bytes, dataLen: int)
    ensures var s := Serve(t, command, flags, data, dataLen); s.Answer? ==> s.reply.typ <= 0
  {
    hide Components, Lookup, Update, Join, Sorted, Prefix, Prefixed, Occurs, UpTo, From;
  }

  lemma ServedDir(t: Tree, path: Path)
    requires AreParts(path) && WellNamed(t)
    ensures ServeFrame(t, RequestFrame(Dir(path))) == ServeDir(t, REQUEST_FLAGS, path)
    ensures var s := ServeDir(t, REQUEST_FLAGS, path);
            s.Answer? && Sendable(s.reply) ==> PlainDir(t, path).Done?
  {
    hide Components;
    ComponentsOfPath(path);
  }

  /** Whatever the mock server answers to an admissible request, the client can process. */
  lemma ServedIsProcessed(t: Tree, r: Request)
    requires Admissible(r) && WellNamed(t)
    requires var s := ServeFrame(t, RequestFrame(r)); s.Answer? && Sendable(s.reply)
    ensures var got := ReadByClient(ServeFrame(t, RequestFrame(r)).reply);
            got.ToClient? && Processed(r, got.ret, got.data).Some? &&
            Plain(t, r).0 == Done(Processed(r, got.ret, got.data).value)
  {
    hide Serve, ServeDir;
    var f := RequestFrame(r);
    var reply := ServeFrame(t, f).reply;
    ServedIsPlain(t, r);
    ReplyIsRead(r, reply);
    if r.Dir? {
      ServedDir(t, r.path);
    } else {
      ReplyTypeNotPositive(t, f.typ, f.flags, Payload(f), if Payload(f) == [] then 0 else f.rlen);
    }
  }

  /** A reply that cannot be sent is over-long. */
  lemma UnsendableReply(f: Frame)
    requires ReplyShape(f)
    ensures Sendable(f) <==> |f.data.value| <= MAX_LENGTH
  {
  }

  /** The server answers an admissible request with a reply that can be received exactly when the plain operation has
      a result. */
  lemma AnsweredExactlyWhen(t: Tree, r: Request)
    requires Admissible(r) && WellNamed(t)
    ensures var s := ServeFrame(t, RequestFrame(r));
            s.Answer? && Sendable(s.reply) <==> Plain(t, r).0.Done?
  {
    hide Serve, Exchange, Plain, Sendable, Processed;
    var s := ServeFrame(t, RequestFrame(r));
    ExchangeServed(t, r, s);
    ExchangeIsPlain(t, r);
    if s.Answer? {
      UnsendableReply(s.reply);
      if Sendable(s.reply) {
        ServedIsProcessed(t, r);
      }
    }
  }

  /** No step that is enabled raises an exception: no pop from an empty deque, no failed assertion. */
  lemma NeverRaises(s: System, step: Step)
    requires Inv(s) && Enabled(s, step)
    ensures Next(s, step).Some?
  {
    hide Serve, Processed, RequestFits;
    if step.ReadReply? {
      HeadOwnsReply(s);
      assert s.s2c[0] in s.s2c;
      var v :| v in s.served && v.id == s.s2c[0].id && v.reply == s.s2c[0].reply;
      ServedIsProcessed(v.before, s.client.msgs[v.id].request);
    }
  }

  lemma NopAdmissible()
    ensures Admissible(Nop)
  {
  }

  lemma AnswerWellFormed(s: System)
    requires Inv(s) && AfterAnswer(s).Some?
    ensures WellFormed(AfterAnswer(s).value)
  {
    hide Serve, Plain, RequestFits;
    assert s.c2s[0] in s.c2s;
    var r := s.client.msgs[s.c2s[0].id].request;
    ServedIsPlain(s.tree, r);
    PlainKeepsNames(s.tree, r);
  }

  lemma ReadWellFormed(s: System)
    requires Inv(s) && AfterRead(s).Some?
    ensures WellFormed(AfterRead(s).value)
  {
    hide ReadByClient, Processed, Admissible;
  }

  lemma StepWellFormed(s: System, step: Step)
    requires Inv(s) && Enabled(s, step) && Next(s, step).Some?
    ensures WellFormed(Next(s, step).value)
  {
    hide ServeFrame, Processed, AfterAnswer, AfterRead, Admissible, InFlightGenuine, OutcomesGenuine, Matched;
    match step {
      case Submit(r) => assert Admissible(r);
      case Idle => NopAdmissible();
      case ServerAnswer => AnswerWellFormed(s);
      case ReadReply => ReadWellFormed(s);
      case _ =>
    }
  }

  lemma PlainKeepsNames(t: Tree, r: Request)
    requires WellNamed(t)
    ensures WellNamed(Plain(t, r).1)
  {
    match r {
      case Set(path, value) =>
        if Plain(t, r).1 != t {
          LookupLast(t, path);
          UpdateWellNamed(t, path, ValueBytes(value));
        }
      case _ =>
    }
  }

  lemma AnswerInFlight(s: System)
    requires Inv(s) && Enabled(s, ServerAnswer) && AfterAnswer(s).Some?
    ensures InFlightGenuine(AfterAnswer(s).value)
  {
    hide Serve, RequestFrame;
    var t := AfterAnswer(s).value;
    var v := t.served[|s.served|];
    assert v in t.served;
    assert s.c2s[0] in s.c2s;
    forall x | x in t.s2c && x.ReplyFrame? ensures Justified(t.served, x.id, x.reply) {
      if x in s.s2c {
        var w :| w in s.served && w.id == x.id && w.reply == x.reply;
        assert w in t.served;
      }
    }
  }

  /** Messages are only added, and never change their request. */
  ghost predicate Extends(c: Client, d: Client) {
    |c.msgs| <= |d.msgs| && forall id :: 0 <= id < |c.msgs| ==> d.msgs[id].request == c.msgs[id].request
  }

  lemma InFlightKept(s: System, t: System)
    requires InFlightGenuine(s) && Extends(s.client, t.client) && t.served == s.served
    requires forall x :: x in t.c2s ==> x in s.c2s
    requires forall x :: x in t.s2c && x.ReplyFrame? ==> x in s.s2c
    ensures InFlightGenuine(t)
  {
  }

  lemma SendInFlight(s: System)
    requires Inv(s) && AfterSend(s).Some?
    ensures InFlightGenuine(AfterSend(s).value)
  {
  }

  lemma StepExtends(s: System, step: Step)
    requires Next(s, step).Some?
    ensures Extends(s.client, Next(s, step).value.client)
  {
  }

  lemma StepInFlight(s: System, step: Step)
    requires Inv(s) && Enabled(s, step) && Next(s, step).Some?
    ensures InFlightGenuine(Next(s, step).value)
  {
    hide ServeFrame, Processed, AfterSend, AfterAnswer, InFlightGenuine, Extends;
    StepExtends(s, step);
    match step {
      case Send => SendInFlight(s);
      case ServerAnswer => AnswerInFlight(s);
      case _ => InFlightKept(s, Next(s, step).value);
    }
  }

  lemma ReadOutcomes(s: System)
    requires Inv(s) && Enabled(s, ReadReply) && AfterRead(s).Some?
    ensures OutcomesGenuine(AfterRead(s).value)
  {
    hide Serve, Processed;
    var t := AfterRead(s).value;
    var head := s.s2c[0];
    HeadOwnsReply(s);
    assert head in s.s2c;
    var v :| v in s.served && v.id == head.id && v.reply == head.reply;
    forall id | 0 <= id < |t.client.msgs|
      ensures t.client.msgs[id].outcome in {None, Some(Cancelled)} ||
              exists w :: w in t.served && AnsweredBy(t.client.msgs[id], id, w)
    {
      if id == head.id {
        assert AnsweredBy(t.client.msgs[id], id, v);
      } else {
        assert t.client.msgs[id] == s.client.msgs[id];
      }
    }
  }

  lemma AnswerOutcomes(s: System)
    requires OutcomesGenuine(s) && AfterAnswer(s).Some?
    ensures OutcomesGenuine(AfterAnswer(s).value)
  {
  }

  lemma StepOutcomes(s: System, step: Step)
    requires Inv(s) && Enabled(s, step) && Next(s, step).Some?
    ensures OutcomesGenuine(Next(s, step).value)
  {
    match step
    case ReadReply => ReadOutcomes(s);
    case ServerAnswer => AnswerOutcomes(s);
    case _ =>
  }
}
