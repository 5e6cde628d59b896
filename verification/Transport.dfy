/** The request engine over byte streams: sends, deliveries and replies in arbitrary pieces, each end parsing
    its own buffer. Every run of it is a run of the step system over whole frames. */
module Transport {
  import opened Text
  import opened Wire
  import opened Messages
  import opened MockServer
  import opened EndToEnd
  import P = Pipeline
  import Runs

  datatype Link = Link(
    outgoing: bytes,    // the rest of the message being written
    toServer: bytes,    // in the network
    serverBuf: bytes,
    replying: bytes,    // written by the server, not yet in the network
    toClient: bytes,
    clientBuf: bytes
  )

  const NO_LINK := Link([], [], [], [], [], [])

  datatype Wired = Wired(client: P.Client, phase: P.Phase, writing: Option<nat>, link: Link, tree: Tree)

  datatype Move =
    | Plainly(step: P.Step)     // a step that touches no byte stream
    | Push(n: nat)              // n bytes of the message leave the writer
    | ToServerBuf(n: nat)       // the server's stream hands over n bytes
    | ServerReads
    | ServerIsBusy(flags: int)
    | ReplyPush(n: nat)
    | ToClientBuf(n: nat)
    | ClientReads

  function BusyBytes(flags: int): Frame {
    Frame(0, flags, 0, None, 0)
  }

  predicate TouchesNoBytes(step: P.Step) {
    !step.Send? && !step.ServerBusy? && !step.ServerAnswer? && !step.ReadBusy? && !step.ReadReply?
  }

  /** A message whose last byte has left is sent. */
  function AfterPush(w: Wired, n: nat): Option<Wired> {
    var l := w.link;
    if n > |l.outgoing| then None
    else
      Some(w.(writing := if n == |l.outgoing| then None else w.writing,
              link := l.(outgoing := l.outgoing[n..], toServer := l.toServer + l.outgoing[..n])))
  }

  function AfterServerRead(w: Wired): Option<Wired> {
    var (got, rest) := ParseOne(true, w.link.serverBuf);
    if !got.ToServer? then None
    else
      match Serve(w.tree, got.command, got.flags, got.data, got.dataLen)
      case Died => None
      case Answer(reply, after) =>
        if !Sendable(reply) then None
        else Some(w.(tree := after, link := w.link.(serverBuf := rest, replying := w.link.replying + Encode(reply))))
  }

  function AfterClientRead(w: Wired): Option<Wired> {
    var (got, rest) := ParseOne(false, w.link.clientBuf);
    var c := w.client;
    if got.Busy? then Some(w.(link := w.link.(clientBuf := rest)))
    else if !got.ToClient? || c.requests == [] || c.requests[0] >= |c.msgs| then None
    else if Processed(c.msgs[c.requests[0]].request, got.ret, got.data).None? then None
    else Some(w.(client := P.Pop(c, got.ret, got.data), link := w.link.(clientBuf := rest)))
  }

  function MessageBytes(c: P.Client, id: nat): Option<bytes> {
    if id < |c.msgs| && Sendable(RequestFrame(c.msgs[id].request)) then Some(Encode(RequestFrame(c.msgs[id].request)))
    else None
  }

  /** A plain step on the byte-level state: what the writer takes is put out as bytes, a lost connection
      takes its bytes with it. */
  function AfterPlain(w: Wired, step: P.Step): Option<Wired> {
    var c := w.client;
    match step
    case Submit(r) => Some(w.(client := P.Enqueue(c, r)))
    case Take => if c.queue == [] then None else Started(w, P.TakeQueued(c), c.queue[0])
    case Idle => Started(w, P.TakeIdle(c), |c.msgs|)
    case Cancel(id) => if id >= |c.msgs| then None else Some(w.(client := P.CancelMessage(c, id)))
    case Lose => Some(Cut(w, c))
    case Connect => Some(w.(client := P.StartConnection(c), phase := P.Starting))
    case Begin => Some(w.(phase := P.Running))
    case Resend => if c.backlog == [] || c.backlog[0] >= |c.msgs| then None else Some(w.(client := P.ResendOne(c)))
    case ResendFails => if c.backlog == [] then None else Some(w.(client := P.ResendFailed(c)))
    case Abort => Some(Cut(w, P.AbortStart(c)))
    case Change(t) => Some(w.(tree := t))
    case Stay => Some(w)
    case _ => None
  }

  function Started(w: Wired, c: P.Client, id: nat): Option<Wired> {
    var m := MessageBytes(c, id);
    if m.None? then None else Some(w.(client := c, writing := Some(id), link := w.link.(outgoing := m.value)))
  }

  function Cut(w: Wired, c: P.Client): Wired {
    w.(client := c, phase := P.Down, writing := None, link := NO_LINK)
  }

  function Moved(w: Wired, m: Move): Option<Wired> {
    var l := w.link;
    match m
    case Plainly(step) => AfterPlain(w, step)
    case Push(n) => AfterPush(w, n)
    case ToServerBuf(n) =>
      if n > |l.toServer| then None
      else Some(w.(link := l.(toServer := l.toServer[n..], serverBuf := l.serverBuf + l.toServer[..n])))
    case ServerReads => AfterServerRead(w)
    case ServerIsBusy(flags) =>
      if !IsInt32(flags) then None
      else Some(w.(link := l.(replying := l.replying + Encode(BusyBytes(flags)))))
    case ReplyPush(n) =>
      if n > |l.replying| then None
      else Some(w.(link := l.(replying := l.replying[n..], toClient := l.toClient + l.replying[..n])))
    case ToClientBuf(n) =>
      if n > |l.toClient| then None
      else Some(w.(link := l.(toClient := l.toClient[n..], clientBuf := l.clientBuf + l.toClient[..n])))
    case ClientReads => AfterClientRead(w)
  }

  // ---------------------------------------------------------------- the frames behind the bytes

  function UnsentFrames(c: P.Client, unsent: Option<nat>): seq<Frame> {
    if unsent.None? || unsent.value >= |c.msgs| then [] else [RequestFrame(c.msgs[unsent.value].request)]
  }

  function CommandFrames(c2s: seq<P.Command>): (fs: seq<Frame>)
    ensures |fs| == |c2s|
  {
    seq(|c2s|, i requires 0 <= i < |c2s| => c2s[i].frame)
  }

  function ReplyFrame(x: P.FromServer): Frame {
    match x
    case BusyFrame(flags) => BusyBytes(flags)
    case ReplyFrame(_, reply) => reply
  }

  function ReplyFrames(s2c: seq<P.FromServer>): (fs: seq<Frame>)
    ensures |fs| == |s2c|
  {
    seq(|s2c|, i requires 0 <= i < |s2c| => ReplyFrame(s2c[i]))
  }

  /** The bytes between the two ends are the frames in flight, in order, and nothing else. */
  ghost predicate Carries(stream: bytes, fs: seq<Frame>) {
    AllSendable(fs) && stream == EncodeAll(fs)
  }

  ghost predicate Represents(w: Wired, s: P.System) {
    w.client == s.client && w.phase == s.phase && w.tree == s.tree && w.writing == s.unsent &&
    (w.writing.Some? <==> w.link.outgoing != []) &&
    Carries(w.link.serverBuf + w.link.toServer + w.link.outgoing,
            CommandFrames(s.c2s) + UnsentFrames(s.client, s.unsent)) &&
    Carries(w.link.clientBuf + w.link.toClient + w.link.replying, ReplyFrames(s.s2c))
  }

  /** A step of the system over whole frames. */
  ghost predicate Takes(s: P.System, step: P.Step, t: P.System) {
    P.Enabled(s, step) && P.Next(s, step) == Some(t)
  }

  // ---------------------------------------------------------------- each move is a step

  lemma RepresentedState(w: Wired, s: P.System)
    requires Represents(w, s)
    ensures w.client == s.client && w.phase == s.phase && w.writing == s.unsent && w.tree == s.tree
    ensures w.writing.Some? <==> w.link.outgoing != []
  {
  }

  lemma StayTakes(s: P.System)
    ensures Takes(s, P.Stay, s)
  {
  }

  lemma SimPush(w: Wired, s: P.System, n: nat) returns (step: P.Step, t: P.System)
    requires P.Inv(s) && Represents(w, s) && w.link.outgoing != [] && n <= |w.link.outgoing|
    ensures AfterPush(w, n).Some?
    ensures Represents(AfterPush(w, n).value, t) && Takes(s, step, t)
    ensures !step.ServerAnswer?
  {
    hide P.InFlightGenuine, P.OutcomesGenuine, P.Admissible, Sendable, RequestFrame;
    var l := w.link;
    assert l.outgoing == l.outgoing[..n] + l.outgoing[n..];
    assert l.serverBuf + (l.toServer + l.outgoing[..n]) + l.outgoing[n..] == l.serverBuf + l.toServer + l.outgoing;
    if n < |l.outgoing| {
      step, t := P.Stay, s;
    } else {
      step := P.Send;
      t := P.Next(s, P.Send).value;
      assert CommandFrames(t.c2s) + UnsentFrames(t.client, t.unsent) ==
             CommandFrames(s.c2s) + UnsentFrames(s.client, s.unsent);
    }
  }

  /** What a buffer parses to is the first frame its stream carries; the rest of the stream carries the others. */
  lemma StreamHead(isServer: bool, fs: seq<Frame>, buf: bytes, net: bytes, more: bytes, got: Received, rest: bytes)
    requires Carries(buf + net + more, fs)
    requires (got, rest) == ParseOne(isServer, buf) && got !in {Stop, Truncated}
    ensures fs != [] && got == ViewOf(isServer, fs[0]) && Carries(rest + net + more, fs[1..])
  {
    hide ParseOne, Encode, ViewOf;
    assert buf + (net + more) == buf + net + more;
    PrefixParsesFirst(isServer, fs, buf, net + more, got, rest);
    assert rest + (net + more) == rest + net + more;
  }

  lemma EncodeOne(f: Frame)
    requires Sendable(f)
    ensures AllSendable([f]) && EncodeAll([f]) == Encode(f)
  {
  }

  lemma StreamTail(fs: seq<Frame>, buf: bytes, net: bytes, more: bytes, f: Frame)
    requires Carries(buf + net + more, fs) && Sendable(f)
    ensures Carries(buf + net + (more + Encode(f)), fs + [f])
  {
    hide Encode;
    EncodeOne(f);
    EncodeAllAppend(fs, [f]);
    assert buf + net + (more + Encode(f)) == buf + net + more + Encode(f);
  }

  /** The server's buffer can only hold a command that has been sent in full. */
  lemma ServerHead(w: Wired, s: P.System, got: Received, rest: bytes)
    requires Represents(w, s) && (got, rest) == ParseOne(true, w.link.serverBuf) && got.ToServer?
    ensures s.c2s != [] && got == ViewOf(true, s.c2s[0].frame)
    ensures Carries(rest + w.link.toServer + w.link.outgoing,
                    CommandFrames(s.c2s[1..]) + UnsentFrames(s.client, s.unsent))
  {
    hide ParseOne, ViewOf, RequestFrame, Encode;
    var l := w.link;
    var fs := CommandFrames(s.c2s) + UnsentFrames(s.client, s.unsent);
    StreamHead(true, fs, l.serverBuf, l.toServer, l.outgoing, got, rest);
    assert EncodeAll([]) == [];
    assert |fs| == 1 ==> fs[1..] == [];
    assert |rest + l.toServer + l.outgoing| >= |l.outgoing|;
    assert fs[1..] == CommandFrames(s.c2s[1..]) + UnsentFrames(s.client, s.unsent);
  }

  lemma SimServerRead(w: Wired, s: P.System) returns (step: P.Step, t: P.System)
    requires P.Inv(s) && Represents(w, s) && AfterServerRead(w).Some?
    ensures Represents(AfterServerRead(w).value, t) && Takes(s, step, t)
  {
    hide P.OutcomesGenuine, P.Admissible, Serve, ParseOne, P.Matched, RequestFrame, Encode, Sendable;
    var (got, rest) := ParseOne(true, w.link.serverBuf);
    ServerHead(w, s, got, rest);
    assert s.c2s[0] in s.c2s;
    RequestHasData(s.client.msgs[s.c2s[0].id].request);
    step := P.ServerAnswer;
    t := P.Next(s, P.ServerAnswer).value;
    var reply := t.s2c[|s.s2c|].reply;
    assert ReplyFrames(t.s2c) == ReplyFrames(s.s2c) + [reply];
    StreamTail(ReplyFrames(s.s2c), w.link.clientBuf, w.link.toClient, w.link.replying, reply);
  }

  lemma RequestHasData(r: Request)
    ensures RequestFrame(r).data.Some?
  {
  }

  lemma SimClientRead(w: Wired, s: P.System) returns (step: P.Step, t: P.System)
    requires P.Inv(s) && Represents(w, s)
    requires ParseOne(false, w.link.clientBuf).0 !in {Stop, Truncated}
    ensures AfterClientRead(w).Some?
    ensures Represents(AfterClientRead(w).value, t) && Takes(s, step, t)
    ensures !step.ServerAnswer?
  {
    hide P.OutcomesGenuine, P.Admissible, Serve, Processed, ParseOne, Encode, Sendable;
    var l := w.link;
    var (got, rest) := ParseOne(false, l.clientBuf);
    StreamHead(false, ReplyFrames(s.s2c), l.clientBuf, l.toClient, l.replying, got, rest);
    assert ReplyFrames(s.s2c)[0] == ReplyFrame(s.s2c[0]);
    assert ReplyFrames(s.s2c)[1..] == ReplyFrames(s.s2c[1..]);
    assert s.s2c[0] in s.s2c;
    step := if s.s2c[0].BusyFrame? then P.ReadBusy else P.ReadReply;
    P.NeverRaises(s, step);
    t := P.Next(s, step).value;
  }

  ghost predicate MoveEnabled(w: Wired, m: Move) {
    match m
    case Plainly(step) =>
      TouchesNoBytes(step) && P.Enabled(P.System(w.client, w.phase, w.writing, [], [], w.tree, []), step)
    case Push(n) => w.writing.Some? && n <= |w.link.outgoing|
    case ToServerBuf(n) => n <= |w.link.toServer|
    case ServerReads => AfterServerRead(w).Some?
    case ServerIsBusy(flags) => w.phase != P.Down && IsInt32(flags)
    case ReplyPush(n) => n <= |w.link.replying|
    case ToClientBuf(n) => n <= |w.link.toClient|
    case ClientReads => ParseOne(false, w.link.clientBuf).0 !in {Stop, Truncated}
  }

  /** The writer takes a message: its whole frame becomes outgoing bytes. */
  lemma SimStarted(w: Wired, s: P.System, t: P.System, c: P.Client, id: nat)
    requires Represents(w, s) && w.writing.None? && id < |c.msgs|
    requires P.Admissible(c.msgs[id].request)
    requires t == s.(client := c, unsent := Some(id))
    ensures Started(w, c, id).Some? && Represents(Started(w, c, id).value, t)
  {
    hide Encode, RequestFrame;
    var f := RequestFrame(c.msgs[id].request);
    SendableRequest(c.msgs[id].request);
    assert CommandFrames(s.c2s) + UnsentFrames(s.client, s.unsent) == CommandFrames(s.c2s);
    assert w.link.outgoing == [];
    StreamTail(CommandFrames(s.c2s), w.link.serverBuf, w.link.toServer, [], f);
    EncodedNotEmpty(f);
    assert [] + Encode(f) == Encode(f);
  }

  lemma EncodedNotEmpty(f: Frame)
    requires Sendable(f)
    ensures Encode(f) != []
  {
  }

  lemma SimTake(w: Wired, s: P.System, step: P.Step) returns (t: P.System)
    requires P.Inv(s) && Represents(w, s) && step in {P.Take, P.Idle} && MoveEnabled(w, Plainly(step))
    ensures AfterPlain(w, step).Some?
    ensures Represents(AfterPlain(w, step).value, t) && Takes(s, step, t)
  {
    hide Encode, RequestFrame, P.InFlightGenuine, P.OutcomesGenuine, P.Matched, Started, P.Admissible, Represents;
    RepresentedState(w, s);
    P.NopAdmissible();
    assert P.Enabled(s, step);
    t := P.Next(s, step).value;
    SimStarted(w, s, t, t.client, t.unsent.value);
  }

  /** A new, cancelled, completed or moved message leaves the bytes in flight as they are. */
  lemma SimClientOnly(w: Wired, s: P.System, c: P.Client, phase: P.Phase, tree: Tree)
    requires P.Inv(s) && Represents(w, s) && P.Extends(s.client, c)
    ensures Represents(w.(client := c, phase := phase, tree := tree), s.(client := c, phase := phase, tree := tree))
  {
  }

  lemma SimCut(w: Wired, s: P.System, c: P.Client)
    requires Represents(w, s)
    ensures Represents(Cut(w, c), P.Disconnected(s, c))
  {
  }

  lemma SimPlain(w: Wired, s: P.System, step: P.Step) returns (t: P.System)
    requires P.Inv(s) && Represents(w, s) && MoveEnabled(w, Plainly(step))
    ensures AfterPlain(w, step).Some?
    ensures Represents(AfterPlain(w, step).value, t) && Takes(s, step, t)
  {
    if step in {P.Take, P.Idle} {
      t := SimTake(w, s, step);
    } else {
      t := SimOther(w, s, step);
    }
  }

  lemma SimOther(w: Wired, s: P.System, step: P.Step) returns (t: P.System)
    requires P.Inv(s) && Represents(w, s) && MoveEnabled(w, Plainly(step)) && step !in {P.Take, P.Idle}
    ensures AfterPlain(w, step).Some?
    ensures Represents(AfterPlain(w, step).value, t) && Takes(s, step, t)
  {
    hide P.InFlightGenuine, P.OutcomesGenuine, P.Matched, P.Admissible, Represents, P.Extends, P.AfterSend,
         P.AfterAnswer, P.AfterRead, Cut, P.Disconnected;
    RepresentedState(w, s);
    assert P.Enabled(s, step);
    P.NeverRaises(s, step);
    t := P.Next(s, step).value;
    match step {
      case Lose => SimCut(w, s, s.client);
      case Abort => SimCut(w, s, P.AbortStart(s.client));
      case _ =>
        P.StepExtends(s, step);
        SimClientOnly(w, s, t.client, t.phase, t.tree);
    }
  }

  /** Bytes only move along: what is carried stays the same. */
  lemma SimShift(w: Wired, s: P.System, m: Move)
    requires Represents(w, s) && MoveEnabled(w, m) && (m.ToServerBuf? || m.ReplyPush? || m.ToClientBuf?)
    ensures Moved(w, m).Some? && Represents(Moved(w, m).value, s)
  {
    hide Encode, CommandFrames, UnsentFrames, ReplyFrames, AfterServerRead, AfterClientRead, AfterPush, AfterPlain;
    var l := w.link;
    match m {
      case ToServerBuf(n) =>
        assert l.toServer == l.toServer[..n] + l.toServer[n..];
        assert l.serverBuf + l.toServer[..n] + l.toServer[n..] == l.serverBuf + l.toServer;
      case ReplyPush(n) =>
        assert l.replying == l.replying[..n] + l.replying[n..];
        assert l.clientBuf + (l.toClient + l.replying[..n]) + l.replying[n..] == l.clientBuf + l.toClient + l.replying;
      case ToClientBuf(n) =>
        assert l.toClient == l.toClient[..n] + l.toClient[n..];
        assert l.clientBuf + l.toClient[..n] + l.toClient[n..] == l.clientBuf + l.toClient;
    }
  }

  lemma SimBusy(w: Wired, s: P.System, flags: int) returns (step: P.Step, t: P.System)
    requires P.Inv(s) && Represents(w, s) && MoveEnabled(w, ServerIsBusy(flags))
    ensures Moved(w, ServerIsBusy(flags)).Some?
    ensures Represents(Moved(w, ServerIsBusy(flags)).value, t) && Takes(s, step, t)
    ensures !step.ServerAnswer?
  {
    hide Encode, P.InFlightGenuine, P.OutcomesGenuine, P.Admissible, P.AfterSend, P.AfterAnswer, P.AfterRead;
    step := P.ServerBusy(flags);
    t := P.Next(s, P.ServerBusy(flags)).value;
    assert ReplyFrames(t.s2c) == ReplyFrames(s.s2c) + [BusyBytes(flags)];
    StreamTail(ReplyFrames(s.s2c), w.link.clientBuf, w.link.toClient, w.link.replying, BusyBytes(flags));
  }

  /** Every move over bytes succeeds and is at most one step over frames: in particular, whenever the client's
      buffer holds a whole frame, reading it pops the right message and raises nothing. */
  lemma MoveSimulates(w: Wired, s: P.System, m: Move) returns (step: P.Step, t: P.System)
    requires P.Inv(s) && Represents(w, s) && MoveEnabled(w, m)
    ensures Moved(w, m).Some?
    ensures Represents(Moved(w, m).value, t) && Takes(s, step, t)
    ensures step.ServerAnswer? ==> m.ServerReads?
  {
    hide P.Inv, Represents, AfterServerRead, AfterClientRead, AfterPush, AfterPlain, ParseOne, Takes;
    match m {
      case Plainly(plain) =>
        step := plain;
        t := SimPlain(w, s, step);
      case Push(n) =>
        RepresentedState(w, s);
        step, t := SimPush(w, s, n);
      case ServerReads => step, t := SimServerRead(w, s);
      case ServerIsBusy(flags) => step, t := SimBusy(w, s, flags);
      case ClientReads => step, t := SimClientRead(w, s);
      case _ =>
        SimShift(w, s, m);
        step, t := P.Stay, s;
        StayTakes(s);
    }
  }

  // ---------------------------------------------------------------- runs

  ghost predicate InitialWired(w: Wired) {
    w.client == P.Client([], [], [], [], [], []) && w.phase == P.Down && w.writing == None &&
    w.link == NO_LINK && WellNamed(w.tree)
  }

  ghost predicate IsWiredRun(states: seq<Wired>, moves: seq<Move>) {
    |states| == |moves| + 1 && InitialWired(states[0]) &&
    forall i :: 0 <= i < |moves| ==>
      MoveEnabled(states[i], moves[i]) && Moved(states[i], moves[i]) == Some(states[i + 1])
  }

  lemma InitialRepresented(w: Wired) returns (s: P.System)
    requires InitialWired(w)
    ensures P.Initial(s) && Represents(w, s)
  {
    s := P.System(w.client, w.phase, None, [], [], w.tree, []);
    SimCut(w, s, w.client);
  }

  /** The two runs go side by side: each state over bytes represents the state over frames at the same place. */
  ghost predicate SideBySide(ws: seq<Wired>, moves: seq<Move>, states: seq<P.System>, steps: seq<P.Step>) {
    |ws| == |states| == |moves| + 1 == |steps| + 1 &&
    (forall i :: 0 <= i < |ws| ==> Represents(ws[i], states[i])) &&
    (forall i :: 0 <= i < |steps| ==> steps[i].ServerAnswer? ==> moves[i].ServerReads?)
  }

  /** The refinement: every run over bytes goes side by side with a run over frames. */
  lemma {:induction false} WiredRunRefines(ws: seq<Wired>, moves: seq<Move>)
    returns (states: seq<P.System>, steps: seq<P.Step>)
    requires IsWiredRun(ws, moves)
    ensures Runs.IsRun(states, steps) && SideBySide(ws, moves, states, steps)
  {
    hide Represents, Moved, MoveEnabled, P.Enabled, P.Next, P.Initial, P.Inv, InitialWired;
    if moves == [] {
      var s := InitialRepresented(ws[0]);
      states, steps := [s], [];
    } else {
      var n := |moves| - 1;
      states, steps := WiredRunRefines(ws[..n + 1], moves[..n]);
      Runs.RunKeeps(states, steps, n);
      var step, t := MoveSimulates(ws[n], states[n], moves[n]);
      states, steps := states + [t], steps + [step];
    }
  }

  /** Over byte streams, in arbitrary pieces, with reconnects: the outcome chat finds in its message is Cancelled,
      or there is a moment at which the server parsed that message's request out of its buffer, and the outcome
      is the plain operation's on the tree of that moment. */
  lemma ChatOverBytes(ws: seq<Wired>, moves: seq<Move>, k: nat, id: nat) returns (j: nat)
    requires IsWiredRun(ws, moves) && k <= |moves| && id < |ws[k].client.msgs|
    requires ws[k].client.msgs[id].outcome !in {None, Some(Cancelled)}
    ensures j < k && moves[j] == ServerReads
    ensures var m := ws[k].client.msgs[id];
            ParseOne(true, ws[j].link.serverBuf).0 == ViewOf(true, RequestFrame(m.request)) &&
            Plain(ws[j].tree, m.request).0 == Done(m.outcome.value)
  {
    hide Represents, Moved, P.Enabled, P.Next, P.Initial, Plain, ParseOne, ViewOf, RequestFrame, AfterServerRead;
    var states, steps := WiredRunRefines(ws, moves);
    RepresentedState(ws[k], states[k]);
    j := Runs.ChatReturnsItsOwnAnswer(states, steps, k, id);
    RepresentedState(ws[j], states[j]);
    Runs.RunKeeps(states, steps, j);
    var (got, rest) := ParseOne(true, ws[j].link.serverBuf);
    ReadsCommand(ws[j]);
    ServerHead(ws[j], states[j], got, rest);
    assert states[j].c2s[0] in states[j].c2s;
    Runs.RequestsStay(states, steps, j, k);
  }

  lemma ReadsCommand(w: Wired)
    requires AfterServerRead(w).Some?
    ensures ParseOne(true, w.link.serverBuf).0.ToServer?
  {
  }

  /** What the server finds in its buffer is never badly framed: it is nothing, a frame that has not arrived in full,
      or a command that has been sent. */
  lemma ServerBufferSound(w: Wired, s: P.System, got: Received, rest: bytes) returns (id: nat)
    requires P.Inv(s) && Represents(w, s)
    requires (got, rest) == ParseOne(true, w.link.serverBuf) && got !in {Stop, Truncated}
    ensures id < |w.client.msgs| && got == ViewOf(true, RequestFrame(w.client.msgs[id].request)) && got.ToServer?
  {
    hide ParseOne, RequestFrame, Encode, P.OutcomesGenuine, P.Admissible;
    var l := w.link;
    var fs := CommandFrames(s.c2s) + UnsentFrames(s.client, s.unsent);
    StreamHead(true, fs, l.serverBuf, l.toServer, l.outgoing, got, rest);
    if s.c2s != [] {
      assert s.c2s[0] in s.c2s;
      id := s.c2s[0].id;
    } else {
      id := s.unsent.value;
    }
    RequestHasData(w.client.msgs[id].request);
  }

  /** The server's turn on a request that it has parsed fails exactly when the plain operation has no result there:
      its interpreter dies, or the reply is over-long. */
  lemma ServerReadFails(w: Wired, r: Request)
    requires P.Admissible(r) && WellNamed(w.tree)
    requires ParseOne(true, w.link.serverBuf).0 == ViewOf(true, RequestFrame(r))
    ensures AfterServerRead(w).None? <==> Plain(w.tree, r).0 == Lost
  {
    hide ParseOne, RequestFrame, Serve, Plain, Sendable, P.Admissible;
    RequestHasData(r);
    P.AnsweredExactlyWhen(w.tree, r);
  }

  /** In every run over bytes: if the server's buffer holds anything complete, it is the request of a message of this
      client, and the server's read of it raises exactly when the plain operation on its tree has no result. */
  lemma ServerReadsInRun(ws: seq<Wired>, moves: seq<Move>) returns (id: nat)
    requires IsWiredRun(ws, moves) && ParseOne(true, ws[|moves|].link.serverBuf).0 !in {Stop, Truncated}
    ensures var w := ws[|moves|];
            id < |w.client.msgs| &&
            ParseOne(true, w.link.serverBuf).0 == ViewOf(true, RequestFrame(w.client.msgs[id].request)) &&
            (MoveEnabled(w, ServerReads) <==> Plain(w.tree, w.client.msgs[id].request).0 != Lost)
  {
    hide Represents, Moved, P.Enabled, P.Next, P.Initial, ParseOne, ViewOf, RequestFrame, AfterServerRead, Plain,
         IsWiredRun;
    hide P.Admissible, P.InFlightGenuine, P.OutcomesGenuine, P.Matched;
    var states, steps := WiredRunRefines(ws, moves);
    var w, s := ws[|moves|], states[|steps|];
    Runs.RunKeeps(states, steps, |steps|);
    var (got, rest) := ParseOne(true, w.link.serverBuf);
    id := ServerBufferSound(w, s, got, rest);
    RepresentedState(w, s);
    ServerReadFails(w, w.client.msgs[id].request);
  }

  /** Over byte streams no enabled move raises an exception. ServerReadsInRun says when the server's is enabled. */
  lemma WiredRunsAreSafe(ws: seq<Wired>, moves: seq<Move>, m: Move)
    requires IsWiredRun(ws, moves) && MoveEnabled(ws[|moves|], m)
    ensures Moved(ws[|moves|], m).Some?
  {
    hide Represents, Moved, MoveEnabled, P.Enabled, P.Next, P.Initial, P.Inv;
    var states, steps := WiredRunRefines(ws, moves);
    Runs.RunKeeps(states, steps, |steps|);
    var step, t := MoveSimulates(ws[|moves|], states[|steps|], m);
  }
}
