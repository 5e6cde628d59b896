/** One request through every layer: message, frame, bytes, the server's interpreter, reply bytes,
    decoded result. What comes out is the plain operation on the tree. */
module EndToEnd {
  import opened Text
  import opened Wire
  import opened Messages
  import opened MockServer

  /** Lost: an exception on either side ended the connection before the request was completed. */
  datatype Result = Done(outcome: Outcome) | Lost

  // ---------------------------------------------------------------- through the layers

  function Reply(r: Request, reply: Frame): Result {
    var sent := Written(reply);
    if sent.None? then Lost
    else
      var back := ParseOne(false, sent.value).0;
      if !back.ToClient? then Lost
      else
        var outcome := Processed(r, back.ret, back.data);
        if outcome.None? then Lost else Done(outcome.value)
  }

  function Exchange(tree: Tree, r: Request): (Result, Tree) {
    ExchangeWith(tree, r, false)
  }

  /** The same with a server that may answer as owserver does: with the data's length for the reply's type. */
  function ExchangeWith(tree: Tree, r: Request, counting: bool): (Result, Tree) {
    var sent := Written(RequestFrame(r));
    if sent.None? then (Lost, tree)
    else
      var got := ParseOne(true, sent.value).0;
      if !got.ToServer? then (Lost, tree)
      else
        match Serve(tree, got.command, got.flags, got.data, got.dataLen)
        case Died => (Lost, tree)
        case Answer(reply, after) => (Reply(r, if counting then Counting(reply) else reply), after)
  }

  function Counting(reply: Frame): Frame {
    if reply.typ == 0 then reply.(typ := reply.rlen) else reply
  }

  // ---------------------------------------------------------------- the plain operations

  /** A request or reply payload longer than the receiver allows loses the connection. */
  predicate RequestFits(r: Request) {
    |Payload(RequestFrame(r))| <= MAX_LENGTH
  }

  function Guarded(payload: nat, outcome: Outcome): Result {
    if payload <= MAX_LENGTH then Done(outcome) else Lost
  }

  function PlainGet(tree: Tree, path: Path): Result {
    match Lookup(tree, path)
    case Missing => Done(Error(NO_ENTRY))
    case Broken => Lost
    case Found(Node(_)) => Done(Error(IS_DIR))
    case Found(Leaf(text)) => Guarded(|text| + 1, Value(text))
  }

  function ListingLength(path: Path, keys: set<bytes>): nat {
    |Join(Prefixed(Prefix(path), Sorted(keys)), COMMA)| + 1
  }

  function PlainDir(tree: Tree, path: Path): Result {
    match Lookup(tree, path)
    case Missing => Done(Error(NO_ENTRY))
    case Broken => Lost
    case Found(Leaf(_)) => Lost
    case Found(Node(kids)) => Guarded(ListingLength(path, kids.Keys), Names(Sorted(kids.Keys)))
  }

  /** Overwrites an existing entry, directories included; never creates one. */
  function PlainSet(tree: Tree, path: Path, text: bytes): (Result, Tree) {
    if path == [] || text == [] then (Lost, tree)
    else
      match Lookup(tree, Init(path))
      case Missing => (Done(Error(NO_ENTRY)), tree)
      case Broken => (Lost, tree)
      case Found(Leaf(inside)) =>
        (if Occurs(path[|path| - 1], inside) then Lost else Done(Error(NO_ENTRY)), tree)
      case Found(Node(kids)) =>
        if path[|path| - 1] !in kids then (Done(Error(NO_ENTRY)), tree)
        else (Done(Value([])), Update(tree, path, Leaf(text)))
  }

  function Plain(tree: Tree, r: Request): (Result, Tree) {
    if !RequestFits(r) then (Lost, tree)
    else
      match r
      case Nop => (Done(Value([])), tree)
      case Get(path) => (PlainGet(tree, path), tree)
      case Dir(path) => (PlainDir(tree, path), tree)
      case Set(path, value) => PlainSet(tree, path, ValueBytes(value))
  }

  function PathOf(r: Request): Path {
    if r.Nop? then [] else r.path
  }

  /** Every name in the tree can be carried in a listing. */
  ghost predicate WellNamed(t: Tree) {
    t.Node? ==> forall k :: k in t.kids ==> IsName(k) && WellNamed(t.kids[k])
  }

  // ---------------------------------------------------------------- the layers agree with the plain operations

  lemma {:induction false} WellNamedBelow(t: Tree, path: Path)
    requires WellNamed(t)
    ensures Lookup(t, path).Found? ==> WellNamed(Lookup(t, path).tree)
  {
    if path != [] && t.Node? && path[0] in t.kids {
      WellNamedBelow(t.kids[path[0]], path[1..]);
    }
  }

  lemma SendableRequest(r: Request)
    requires RequestFits(r)
    ensures Sendable(RequestFrame(r)) && Written(RequestFrame(r)) == Some(Encode(RequestFrame(r)))
  {
  }

  /** What the server reads is the command, with the data and length the client put in. */
  lemma RequestArrives(r: Request)
    requires RequestFits(r)
    ensures var f := RequestFrame(r);
            Written(f).Some? &&
            ParseOne(true, Written(f).value).0 ==
              ToServer(f.typ, REQUEST_FLAGS, f.data.value, if f.data.value == [] then 0 else f.rlen)
  {
    SendableRequest(r);
    var f := RequestFrame(r);
    ParseEncoded(true, f, []);
    assert Encode(f) + [] == Encode(f);
  }

  lemma OversizeRefused(isServer: bool, f: Frame)
    requires Written(f).Some? && |Payload(f)| > MAX_LENGTH
    ensures ParseOne(isServer, Written(f).value).0.TooMuch?
  {
    UnpackPackHeader(FrameHeader(f));
    assert Written(f).value[..HEADER] == PackHeader(FrameHeader(f));
  }

  /** The replies the interpreter makes: a length that covers the data, and no offset. */
  predicate ReplyShape(f: Frame) {
    f.data.Some? && IsInt32(f.typ) && f.flags == REQUEST_FLAGS && f.offset == 0 && 0 <= f.rlen <= |f.data.value|
  }

  /** What the client makes of a reply, with the bytes taken out. */
  function Understood(r: Request, f: Frame): Result
    requires ReplyShape(f)
  {
    if |f.data.value| > MAX_LENGTH then Lost
    else
      match Processed(r, f.typ, f.data.value[..f.rlen])
      case None => Lost
      case Some(o) => Done(o)
  }

  lemma ReplyArrives(r: Request, f: Frame)
    requires ReplyShape(f)
    ensures Reply(r, f) == Understood(r, f)
  {
    if Written(f).Some? {
      if |f.data.value| > MAX_LENGTH {
        OversizeRefused(false, f);
      } else {
        ParseEncoded(false, f, []);
        assert Encode(f) + [] == Encode(f) == Written(f).value;
      }
    }
  }

  predicate ServedShape(s: Served) {
    s.Answer? ==> ReplyShape(s.reply)
  }

  lemma ServedReplies(tree: Tree, command: int, data: bytes, dataLen: int)
    ensures ServedShape(Serve(tree, command, REQUEST_FLAGS, data, dataLen))
  {
    hide Components, Lookup, Update, Join, Sorted, Prefix, Occurs;
  }

  function Completed(tree: Tree, r: Request, s: Served): (Result, Tree)
    requires ServedShape(s)
  {
    match s
    case Died => (Lost, tree)
    case Answer(reply, after) => (Understood(r, reply), after)
  }

  /** An exchange is the server's interpretation of the very command the client put in. */
  lemma ExchangeServed(tree: Tree, r: Request, served: Served)
    requires RequestFits(r)
    requires var f := RequestFrame(r);
             served == Serve(tree, f.typ, REQUEST_FLAGS, f.data.value, if f.data.value == [] then 0 else f.rlen)
    ensures ServedShape(served)
    ensures Exchange(tree, r) == Completed(tree, r, served)
  {
    var f := RequestFrame(r);
    RequestArrives(r);
    ServedReplies(tree, f.typ, f.data.value, if f.data.value == [] then 0 else f.rlen);
    if served.Answer? {
      ReplyArrives(r, served.reply);
    }
  }

  /** DirMsg._process undoes the server's prefixed, comma-joined listing, the empty one included. */
  lemma ListingRoundTrip(path: Path, names: seq<bytes>)
    requires AreNames(path) && AreNames(names)
    ensures Listing(Join(Prefixed(Prefix(path), names), COMMA)) == Some(names)
  {
    var prefix := Prefix(path);
    var parts := Prefixed(prefix, names);
    if names == [] {
      assert parts == [];
    } else {
      PrefixPlain(path);
      forall p | p in parts ensures COMMA !in p && |p| > 0 {
        var i :| 0 <= i < |parts| && p == parts[i];
        assert IsName(names[i]);
      }
      SplitJoin(parts, COMMA);
      JoinNonEmpty(parts, COMMA);
      EntriesOfPrefixed(prefix, names);
    }
  }

  lemma JoinNonEmpty(parts: seq<bytes>, sep: byte)
    requires parts != [] && |parts[0]| > 0
    ensures Join(parts, sep) != []
  {
  }

  lemma {:induction false} JoinPlain(path: Path)
    requires AreNames(path)
    ensures COMMA !in Join(path, SLASH)
  {
    if |path| > 0 {
      assert IsName(path[0]);
      JoinPlain(path[1..]);
    }
  }

  lemma PrefixPlain(path: Path)
    requires AreNames(path)
    ensures COMMA !in Prefix(path) && NUL !in Prefix(path)
    ensures Prefix(path) == Prefix(path)[..|Prefix(path)| - 1] + [SLASH]
  {
    JoinPlain(path);
    assert AreParts(path) by {
      forall i | 0 <= i < |path| ensures IsPart(path[i]) {
        assert IsName(path[i]);
      }
    }
    JoinedParts(path);
  }

  lemma {:induction false} EntriesOfPrefixed(prefix: bytes, names: seq<bytes>)
    requires |prefix| > 0 && prefix == prefix[..|prefix| - 1] + [SLASH] && NUL !in prefix && AreNames(names)
    ensures Entries(Prefixed(prefix, names)) == Some(names)
  {
    if names != [] {
      var parts := Prefixed(prefix, names);
      assert IsName(names[0]);
      assert parts[1..] == Prefixed(prefix, names[1..]);
      assert parts[0] == prefix[..|prefix| - 1] + [SLASH] + names[0];
      AfterPrefix(prefix[..|prefix| - 1], names[0]);
      EntriesOfPrefixed(prefix, names[1..]);
      assert names == [names[0]] + names[1..];
    }
  }

  lemma CompletedGet(tree: Tree, path: Path)
    requires RequestFits(Get(path)) && ServedShape(ServeRead(tree, REQUEST_FLAGS, path))
    ensures Completed(tree, Get(path), ServeRead(tree, REQUEST_FLAGS, path)) == Plain(tree, Get(path))
  {
  }

  /** A path that leads to an entry of such a tree has no comma. */
  lemma {:induction false} FoundAreNames(t: Tree, path: Path)
    requires WellNamed(t) && Lookup(t, path).Found?
    ensures AreNames(path)
  {
    if path != [] {
      FoundAreNames(t.kids[path[0]], path[1..]);
      forall i | 0 <= i < |path| ensures IsName(path[i]) {
        assert i > 0 ==> path[i] == path[1..][i - 1];
      }
    }
  }

  lemma CompletedDir(tree: Tree, path: Path)
    requires WellNamed(tree)
    requires RequestFits(Dir(path)) && ServedShape(ServeDir(tree, REQUEST_FLAGS, path))
    ensures Completed(tree, Dir(path), ServeDir(tree, REQUEST_FLAGS, path)) == Plain(tree, Dir(path))
  {
    match Lookup(tree, path) {
      case Found(Node(kids)) =>
        WellNamedBelow(tree, path);
        FoundAreNames(tree, path);
        var names := Sorted(kids.Keys);
        forall i | 0 <= i < |names| ensures IsName(names[i]) {
          assert names[i] in names;
        }
        ListingRoundTrip(path, names);
        var data := Join(Prefixed(Prefix(path), names), COMMA);
        assert (data + [NUL])[..|data|] == data;
      case _ =>
    }
  }

  /** The server splits a write command where the client joined it; with an empty value it splits nothing off. */
  lemma WriteSplits(path: Path, text: bytes)
    requires AreParts(path)
    ensures var data := PathBytes(path) + text;
            Components(UpTo(data, -|text|)) == (if text == [] then [] else path) &&
            (text != [] ==> From(data, -|text|) == text)
  {
    var data := PathBytes(path) + text;
    if text == [] {
      assert UpTo(data, -|text|) == [];
      var parts: Path := [[]];
      assert Split(StripNuls([]), SLASH) == parts && parts[1..] == [];
    } else {
      assert UpTo(data, -|text|) == PathBytes(path) && From(data, -|text|) == text;
      ComponentsOfPath(path);
    }
  }

  lemma CompletedSet(tree: Tree, path: Path, value: AttrValue, served: Served)
    requires RequestFits(Set(path, value)) && ServedShape(served)
    requires served == if ValueBytes(value) == [] then Died
                       else ServeWrite(tree, REQUEST_FLAGS, path, ValueBytes(value))
    ensures Completed(tree, Set(path, value), served) == Plain(tree, Set(path, value))
  {
  }

  lemma ExchangeOversize(tree: Tree, r: Request)
    requires !RequestFits(r)
    ensures Exchange(tree, r) == (Lost, tree)
  {
    if Written(RequestFrame(r)).Some? {
      OversizeRefused(true, RequestFrame(r));
    }
  }

  lemma ServedSet(tree: Tree, path: Path, value: AttrValue)
    requires AreParts(path)
    ensures var f := RequestFrame(Set(path, value));
            Serve(tree, WRITE, REQUEST_FLAGS, f.data.value, f.rlen) ==
            if ValueBytes(value) == [] then Died else ServeWrite(tree, REQUEST_FLAGS, path, ValueBytes(value))
  {
    hide Components;
    WriteSplits(path, ValueBytes(value));
  }

  /** The refinement: for every tree and every request, whatever its size and wherever its path leads,
      the exchange through bytes is the plain operation, and it leaves the plain operation's tree. */
  lemma ExchangeIsPlain(tree: Tree, r: Request)
    requires AreParts(PathOf(r))
    requires r.Dir? ==> WellNamed(tree)
    ensures Exchange(tree, r) == Plain(tree, r)
  {
    hide Exchange, Components;
    if !RequestFits(r) {
      ExchangeOversize(tree, r);
    } else {
      match r {
        case Nop => ExchangeServed(tree, r, Serve(tree, NOP, REQUEST_FLAGS, [], 0));
        case Get(path) =>
          ComponentsOfPath(path);
          ExchangeServed(tree, r, ServeRead(tree, REQUEST_FLAGS, path));
          CompletedGet(tree, path);
        case Dir(path) =>
          ComponentsOfPath(path);
          ExchangeServed(tree, r, ServeDir(tree, REQUEST_FLAGS, path));
          CompletedDir(tree, path);
        case Set(path, value) =>
          var f := RequestFrame(r);
          var served := Serve(tree, WRITE, REQUEST_FLAGS, f.data.value, f.rlen);
          ServedSet(tree, path, value);
          ExchangeServed(tree, r, served);
          CompletedSet(tree, path, value, served);
      }
    }
  }

  /** To the client it makes no difference whether the type of a reply is 0 or the length of its data. */
  lemma CountingReply(r: Request, f: Frame)
    requires ReplyShape(f)
    ensures Reply(r, Counting(f)) == Reply(r, f)
  {
    hide Processed;
    if |f.data.value| <= MAX_LENGTH {
      ReplyArrives(r, f);
      ReplyArrives(r, Counting(f));
      ProcessedMeaning(r, 0, f.data.value[..f.rlen]);
    } else if HeaderFits(FrameHeader(f)) && HeaderFits(FrameHeader(Counting(f))) {
      ReplyArrives(r, f);
      ReplyArrives(r, Counting(f));
    }
  }

  /** A server that answers reads and listings with their length for a type serves as well: the exchange is the plain
      operation. */
  lemma CountingIsPlain(tree: Tree, r: Request)
    requires AreParts(PathOf(r))
    requires r.Dir? ==> WellNamed(tree)
    ensures ExchangeWith(tree, r, true) == Plain(tree, r)
  {
    hide Components, Reply, Serve, Counting, ReplyShape;
    ExchangeIsPlain(tree, r);
    var sent := Written(RequestFrame(r));
    if sent.Some? {
      var got := ParseOne(true, sent.value).0;
      if got.ToServer? {
        SameFlags(r);
        ServedReplies(tree, got.command, got.data, got.dataLen);
        var served := Serve(tree, got.command, got.flags, got.data, got.dataLen);
        if served.Answer? {
          CountingReply(r, served.reply);
        }
      }
    }
  }

  lemma SameFlags(r: Request)
    requires Written(RequestFrame(r)).Some? && ParseOne(true, Written(RequestFrame(r)).value).0.ToServer?
    ensures ParseOne(true, Written(RequestFrame(r)).value).0.flags == REQUEST_FLAGS
  {
    var f := RequestFrame(r);
    UnpackPackHeader(FrameHeader(f));
    assert Written(f).value[..HEADER] == PackHeader(FrameHeader(f));
  }

  // ---------------------------------------------------------------- laws of the exchanges

  predicate Stored(tree: Tree, path: Path, value: AttrValue) {
    Exchange(tree, Set(path, value)).0 == Done(Value([]))
  }

  /** When a write succeeds: exactly when the request fits, the value is not empty, and the path names an
      existing entry of a directory. */
  lemma StoredExactlyWhen(tree: Tree, path: Path, value: AttrValue)
    requires AreParts(path)
    ensures Stored(tree, path, value) <==>
            RequestFits(Set(path, value)) && ValueBytes(value) != [] && path != [] && Lookup(tree, path).Found?
  {
    hide Exchange;
    ExchangeIsPlain(tree, Set(path, value));
    if path != [] {
      LookupLast(tree, path);
    }
  }

  lemma {:induction false} LookupLast(t: Tree, path: Path)
    requires path != []
    ensures Lookup(t, path) ==
            match Lookup(t, Init(path))
            case Found(Node(kids)) => (var k := path[|path| - 1]; if k in kids then Found(kids[k]) else Missing)
            case Found(Leaf(_)) => Broken
            case other => other
  {
    if |path| == 1 {
      assert path[1..] == [];
    } else {
      assert Init(path)[0] == path[0] && Init(path)[1..] == Init(path[1..]);
      if t.Node? && path[0] in t.kids {
        LookupLast(t.kids[path[0]], path[1..]);
      }
    }
  }

  /** A stored value is read back, unless the reply that carries it is too long. */
  lemma ReadBack(tree: Tree, path: Path, value: AttrValue)
    requires AreParts(path) && Stored(tree, path, value)
    ensures Exchange(Exchange(tree, Set(path, value)).1, Get(path)).0 ==
            Guarded(|ValueBytes(value)| + 1, Value(ValueBytes(value)))
  {
    hide Exchange;
    StoredExactlyWhen(tree, path, value);
    ExchangeIsPlain(tree, Set(path, value));
    LookupLast(tree, path);
    LookupUpdated(tree, path, Leaf(ValueBytes(value)));
    ExchangeIsPlain(Exchange(tree, Set(path, value)).1, Get(path));
  }

  /** A number written with attr_set comes back as text that parses to that number. */
  lemma NumberReadBack(tree: Tree, path: Path, n: int)
    requires AreParts(path) && Stored(tree, path, Number(n))
    requires |Decimal(n)| < MAX_LENGTH
    ensures var back := Exchange(Exchange(tree, Set(path, Number(n))).1, Get(path)).0;
            back.Done? && back.outcome.Value? && ParseInt(back.outcome.value) == Some(n)
  {
    hide Exchange;
    ReadBack(tree, path, Number(n));
    ParseDecimal(n);
  }

  /** A flag written with attr_set comes back as one digit, "1" or "0". */
  lemma FlagReadBack(tree: Tree, path: Path, b: bool)
    requires AreParts(path) && Stored(tree, path, Flag(b))
    ensures var back := Exchange(Exchange(tree, Set(path, Flag(b))).1, Get(path)).0;
            back == Done(Value([if b then 49 else 48])) && ParseInt(back.outcome.value) == Some(if b then 1 else 0)
  {
    hide Exchange;
    ReadBack(tree, path, Flag(b));
  }

  /** Bytes written with attr_set come back as they were. */
  lemma RawReadBack(tree: Tree, path: Path, raw: bytes)
    requires AreParts(path) && Stored(tree, path, Raw(raw)) && |raw| < 9999
    ensures Exchange(Exchange(tree, Set(path, Raw(raw))).1, Get(path)).0 == Done(Value(raw))
  {
    hide Exchange;
    ReadBack(tree, path, Raw(raw));
  }

  /** A write, stored or not, changes no read and no listing at any path that is not at or below its own. */
  lemma OthersUnchanged(tree: Tree, path: Path, value: AttrValue, q: Path)
    requires AreParts(path) && AreParts(q) && !(path <= q) && WellNamed(tree)
    ensures var after := Exchange(tree, Set(path, value)).1;
            Exchange(after, Get(q)).0 == Exchange(tree, Get(q)).0 &&
            Exchange(after, Dir(q)).0 == Exchange(tree, Dir(q)).0
  {
    hide Exchange;
    ExchangeIsPlain(tree, Set(path, value));
    var after := Exchange(tree, Set(path, value)).1;
    PlainElsewhere(tree, path, ValueBytes(value), after, q);
    ExchangeIsPlain(tree, Get(q));
    ExchangeIsPlain(after, Get(q));
    ExchangeIsPlain(tree, Dir(q));
    ExchangeIsPlain(after, Dir(q));
  }

  lemma PlainElsewhere(tree: Tree, path: Path, text: bytes, after: Tree, q: Path)
    requires !(path <= q) && WellNamed(tree)
    requires after == tree || after == PlainSet(tree, path, text).1
    ensures WellNamed(after)
    ensures PlainGet(after, q) == PlainGet(tree, q) && PlainDir(after, q) == PlainDir(tree, q)
  {
    if after != tree {
      LookupLast(tree, path);
      LookupElsewhere(tree, path, Leaf(text), q);
      UpdateWellNamed(tree, path, text);
    }
  }

  lemma {:induction false} UpdateWellNamed(t: Tree, path: Path, text: bytes)
    requires path != [] && WellNamed(t) && Lookup(t, path).Found?
    requires Lookup(t, Init(path)).Found? && Lookup(t, Init(path)).tree.Node?
    ensures WellNamed(Update(t, path, Leaf(text)))
  {
    assert IsName(path[0]);
    if |path| > 1 {
      assert Init(path)[0] == path[0] && Init(path)[1..] == Init(path[1..]);
      assert path[..|path| - 1] == Init(path);
      UpdateWellNamed(t.kids[path[0]], path[1..], text);
    } else {
      assert Init(path) == [];
    }
  }

  lemma PlainMissing(tree: Tree, path: Path, value: AttrValue)
    requires path != [] && ValueBytes(value) != [] && RequestFits(Set(path, value)) && Lookup(tree, path).Missing?
    ensures Plain(tree, Get(path)) == (Done(Error(NO_ENTRY)), tree)
    ensures Plain(tree, Dir(path)) == (Done(Error(NO_ENTRY)), tree)
    ensures Plain(tree, Set(path, value)) == (Done(Error(NO_ENTRY)), tree)
  {
    hide Update, Occurs, Sorted;
    LookupLast(tree, path);
  }

  /** Reads and listings never change the tree, and a missing entry on the way is exactly the no-entry error. */
  lemma MissingIsNoEntry(tree: Tree, path: Path, value: AttrValue)
    requires AreParts(path) && WellNamed(tree) && path != [] && ValueBytes(value) != []
    requires RequestFits(Set(path, value)) && Lookup(tree, path).Missing?
    ensures Exchange(tree, Get(path)) == (Done(Error(2)), tree)
    ensures Exchange(tree, Dir(path)) == (Done(Error(2)), tree)
    ensures Exchange(tree, Set(path, value)) == (Done(Error(2)), tree)
  {
    hide Exchange, Plain;
    PlainMissing(tree, path, value);
    ExchangeIsPlain(tree, Get(path));
    ExchangeIsPlain(tree, Dir(path));
    ExchangeIsPlain(tree, Set(path, value));
  }

  /** Reading a directory is the is-a-directory error, which is how the structure of a device class is explored. */
  lemma DirectoryIsNoValue(tree: Tree, path: Path)
    requires AreParts(path) && RequestFits(Get(path)) && Lookup(tree, path).Found? && Lookup(tree, path).tree.Node?
    ensures Exchange(tree, Get(path)) == (Done(Error(21)), tree)
  {
    hide Exchange;
    ExchangeIsPlain(tree, Get(path));
  }
}
