/** The request messages and how a reply completes them
    (asyncowfs/protocol.py, class Message and its subclasses; asyncowfs/util.py). */
module Messages {
  import opened Text
  import opened Wire

  const NOP := 1
  const READ := 2
  const WRITE := 3
  const DIRALL := 7

  /** persist, busret, uncached and ownet; fdidc device names; Celsius and mbar. */
  const REQUEST_FLAGS := 0x4 + 0x2 + 0x20 + 0x100 + 0x200_0000

  type Path = seq<bytes>

  /** What attr_set accepts: bytes go out as they are, a bool as one digit, a number in decimal. */
  datatype AttrValue = Raw(raw: bytes) | Flag(flag: bool) | Number(number: int)

  function ValueBytes(v: AttrValue): bytes {
    match v
    case Raw(raw) => raw
    case Flag(flag) => if flag then [ZERO + 1] else [ZERO]
    case Number(number) => Decimal(number)
  }

  datatype Request = Nop | Get(path: Path) | Set(path: Path, value: AttrValue) | Dir(path: Path)

  /** _path */
  function PathBytes(path: Path): bytes {
    [SLASH] + Join(path, SLASH) + [NUL]
  }

  function RequestFrame(r: Request): Frame {
    match r
    case Nop => Frame(NOP, REQUEST_FLAGS, 0, Some([]), 0)
    case Get(path) => Frame(READ, REQUEST_FLAGS, 8192, Some(PathBytes(path)), 0)
    case Set(path, value) =>
      Frame(WRITE, REQUEST_FLAGS, |ValueBytes(value)|, Some(PathBytes(path) + ValueBytes(value)), 0)
    case Dir(path) => Frame(DIRALL, REQUEST_FLAGS, |PathBytes(path)| - 1, Some(PathBytes(path)), 0)
  }

  // ---------------------------------------------------------------- replies

  datatype Outcome = Value(value: bytes) | Names(names: seq<bytes>) | Error(code: int) | Cancelled

  /** entry[entry.rfind("/") + 1:] */
  function AfterLastSlash(s: bytes): bytes {
    if SLASH !in s then s else AfterLastSlash(s[FirstSlash(s) + 1..])
  }

  function FirstSlash(s: bytes): (k: nat)
    requires SLASH in s
    ensures k < |s| && s[k] == SLASH && forall j :: 0 <= j < k ==> s[j] != SLASH
  {
    if s[0] == SLASH then 0 else 1 + FirstSlash(s[1..])
  }

  /** DirMsg._process: None stands for the assertion that no entry contains NUL. */
  function Listing(data: bytes): Option<seq<bytes>> {
    if data == [] then Some([]) else Entries(Split(data, COMMA))
  }

  function Entries(parts: seq<bytes>): Option<seq<bytes>> {
    if parts == [] then Some([])
    else if NUL in parts[0] then None
    else
      var rest := Entries(parts[1..]);
      if rest.None? then None else Some([AfterLastSlash(parts[0])] + rest.value)
  }

  /** process_reply: the outcome stored in the message's event; None stands for an AssertionError. */
  function Processed(r: Request, ret: int, data: bytes): Option<Outcome> {
    if ret < 0 then Some(Error(-ret))
    else if ret > 0 && |data| != ret then None
    else if r.Dir? then
      var names := Listing(data);
      if names.None? then None else Some(Names(names.value))
    else Some(Value(data))
  }

  // ---------------------------------------------------------------- codecs

  /** Components as a request can carry them. */
  predicate IsPart(n: bytes) {
    n != [] && SLASH !in n && NUL !in n
  }

  ghost predicate AreParts(path: Path) {
    forall i :: 0 <= i < |path| ==> IsPart(path[i])
  }

  /** Components as a listing can carry them. */
  predicate IsName(n: bytes) {
    IsPart(n) && COMMA !in n
  }

  ghost predicate AreNames(path: Path) {
    forall i :: 0 <= i < |path| ==> IsName(path[i])
  }

  /** data.rstrip(b"\0") */
  function StripNuls(s: bytes): bytes {
    if s != [] && s[|s| - 1] == NUL then StripNuls(s[..|s| - 1]) else s
  }

  /** The server's way of taking a path apart: strip, split, skip empty parts. */
  function Components(data: bytes): Path {
    NonEmpty(Split(StripNuls(data), SLASH))
  }

  lemma {:induction false} JoinedParts(path: Path)
    requires AreParts(path)
    ensures NUL !in Join(path, SLASH)
  {
    if |path| > 0 {
      assert IsPart(path[0]);
      JoinedParts(path[1..]);
    }
  }

  /** Taking apart what _path put together, for every path of components, the empty one included. */
  lemma ComponentsOfPath(path: Path)
    requires AreParts(path)
    ensures Components(PathBytes(path)) == path
    ensures Components([SLASH] + Join(path, SLASH)) == path
  {
    var s := [SLASH] + Join(path, SLASH);
    JoinedParts(path);
    assert s[|s| - 1] in s;
    assert StripNuls(s) == s;
    assert PathBytes(path)[..|s|] == s;
    assert StripNuls(PathBytes(path)) == s;
    if path == [] {
      var parts: Path := [[], []];
      assert [SLASH][1..] == [];
      assert Split([SLASH], SLASH) == parts;
      assert parts[1..] == [[]] && parts[1..][1..] == [];
    } else {
      assert forall p :: p in path ==> SLASH !in p by {
        forall p | p in path ensures SLASH !in p {
          assert IsPart(p);
        }
      }
      SplitJoin(path, SLASH);
      assert s == [] + [SLASH] + Join(path, SLASH);
      SplitFirst([], SLASH, Join(path, SLASH));
      NonEmptyAll(path);
      assert ([[]] + path)[1..] == path;
    }
  }

  lemma AfterStep(s: bytes)
    ensures AfterLastSlash(s) == if SLASH in s then AfterLastSlash(s[FirstSlash(s) + 1..]) else s
  {
  }

  lemma {:induction false} AfterPrefix(prefix: bytes, name: bytes)
    requires SLASH !in name
    ensures AfterLastSlash(prefix + [SLASH] + name) == name
    decreases |prefix|
  {
    hide AfterLastSlash, FirstSlash;
    var s := prefix + [SLASH] + name;
    assert s[|prefix|] == SLASH;
    var k := FirstSlash(s);
    AfterStep(s);
    if k == |prefix| {
      assert s[k + 1..] == name;
      AfterStep(name);
    } else {
      assert s[k + 1..] == prefix[k + 1..] + [SLASH] + name;
      AfterPrefix(prefix[k + 1..], name);
    }
  }

  /** A request as bytes: the command's number, the flags persist, busret, uncached, ownet and fdidc, the expected or
      carried length, and the payload. */
  lemma RequestWords(r: Request)
    requires Written(RequestFrame(r)).Some?
    ensures var s := Written(RequestFrame(r)).value;
            var size := |s| - 24;
            Word(s, 0) == 0 && Word(s, 1) == size && Word(s, 3) == 0x200_0126 && Word(s, 5) == 0 &&
            match r
            case Nop => Word(s, 2) == 1 && Word(s, 4) == 0 && size == 0
            case Get(path) => Word(s, 2) == 2 && Word(s, 4) == 8192 && s[24..] == PathBytes(path)
            case Set(path, value) =>
              Word(s, 2) == 3 && Word(s, 4) == |ValueBytes(value)| && s[24..] == PathBytes(path) + ValueBytes(value)
            case Dir(path) => Word(s, 2) == 7 && Word(s, 4) == size - 1 && s[24..] == PathBytes(path)
  {
    hide Word;
    WrittenWords(RequestFrame(r));
  }

  /** A path as bytes: a slash in front, a NUL behind, and the components between slashes. */
  lemma PathText(path: Path)
    requires forall c :: c in path ==> 47 !in c
    ensures var s := PathBytes(path);
            |s| >= 2 && s[0] == 47 && s[|s| - 1] == 0 && (path == [] ==> |s| == 2) &&
            (path != [] ==> Split(s[1..|s| - 1], 47) == path)
  {
    var s := PathBytes(path);
    assert s[1..|s| - 1] == Join(path, SLASH);
    if path != [] {
      SplitJoin(path, SLASH);
    }
  }

  /** What attr_set sends: bytes as they are, "1" or "0", or decimal digits. */
  lemma ValueText(v: AttrValue)
    ensures match v
            case Raw(raw) => ValueBytes(v) == raw
            case Flag(flag) => ValueBytes(v) == [if flag then 49 else 48]
            case Number(number) => ParseInt(ValueBytes(v)) == Some(number)
  {
    if v.Number? {
      ParseDecimal(v.number);
    }
  }

  /** All NULs at the end are taken off, and nothing else. */
  lemma {:induction false} StripNulsMeaning(s: bytes)
    ensures var t := StripNuls(s);
            t <= s && (t != [] ==> t[|t| - 1] != 0) && forall i :: |t| <= i < |s| ==> s[i] == 0
  {
    if s != [] && s[|s| - 1] == NUL {
      StripNulsMeaning(s[..|s| - 1]);
    }
  }

  /** Which data a reply to a request is accepted with: a negative return value is an error and the data does not
      matter; a positive one must be the data's length; beyond that it makes no difference. Only a listing can still
      fail, for a NUL. */
  lemma ProcessedMeaning(r: Request, ret: int, data: bytes)
    ensures ret < 0 ==> Processed(r, ret, data) == Some(Error(-ret))
    ensures ret >= 0 && !r.Dir? ==>
              (Processed(r, ret, data).Some? <==> ret == 0 || |data| == ret) &&
              (Processed(r, ret, data).Some? ==> Processed(r, ret, data) == Some(Value(data)))
    ensures ret >= 0 && r.Dir? ==>
              (Processed(r, ret, data).Some? <==> (ret == 0 || |data| == ret) && Listing(data).Some?) &&
              (Processed(r, ret, data).Some? ==> Processed(r, ret, data) == Some(Names(Listing(data).value)))
    ensures Processed(r, |data|, data) == Processed(r, 0, data)
  {
  }

  /** The name of a listed entry: what follows its last slash. */
  ghost predicate NameOf(entry: bytes, name: bytes) {
    47 !in name && |name| <= |entry| && entry[|entry| - |name|..] == name &&
    if |name| == |entry| then true else entry[|entry| - |name| - 1] == 47
  }

  lemma {:induction false} AfterLastSlashMeaning(s: bytes)
    ensures NameOf(s, AfterLastSlash(s))
    decreases |s|
  {
    hide FirstSlash;
    AfterStep(s);
    if SLASH in s {
      AfterLastSlashMeaning(s[FirstSlash(s) + 1..]);
    }
  }

  lemma {:induction false} EntriesMeaning(parts: seq<bytes>)
    ensures Entries(parts).Some? <==> forall p :: p in parts ==> 0 !in p
    ensures Entries(parts).Some? ==>
              |Entries(parts).value| == |parts| &&
              forall i :: 0 <= i < |parts| ==> NameOf(parts[i], Entries(parts).value[i])
  {
    hide NameOf;
    if parts != [] {
      EntriesMeaning(parts[1..]);
      AfterLastSlashMeaning(parts[0]);
      assert parts == [parts[0]] + parts[1..];
    }
  }

  lemma WithoutCons(p: bytes, rest: seq<bytes>, x: byte)
    ensures (forall q :: q in [p] + rest ==> x !in q) <==> x !in p && forall q :: q in rest ==> x !in q
  {
    assert p in [p] + rest && forall q :: q in rest ==> q in [p] + rest;
  }

  lemma {:induction false} SplitWithout(s: bytes, x: byte)
    requires x != COMMA
    ensures (forall p :: p in Split(s, COMMA) ==> x !in p) <==> x !in s
  {
    if s != [] {
      SplitWithout(s[1..], x);
      var rest := Split(s[1..], COMMA);
      assert rest == [rest[0]] + rest[1..] && s == [s[0]] + s[1..];
      if s[0] == COMMA {
        WithoutCons([], rest, x);
      } else {
        WithoutCons(rest[0], rest[1..], x);
        WithoutCons([s[0]] + rest[0], rest[1..], x);
      }
    }
  }

  /** A listing is read exactly if it has no NUL: empty data is no entry at all, other data one name for each entry
      between commas. */
  lemma ListingMeaning(data: bytes)
    ensures Listing(data).Some? <==> 0 !in data
    ensures data == [] ==> Listing(data) == Some([])
    ensures data != [] && Listing(data).Some? ==>
              var entries, names := Split(data, 44), Listing(data).value;
              |names| == |entries| && forall i :: 0 <= i < |entries| ==> NameOf(entries[i], names[i])
  {
    hide NameOf, Entries;
    EntriesMeaning(Split(data, COMMA));
    SplitWithout(data, NUL);
  }

  // ---------------------------------------------------------------- the objects

  /** A result cell: the value is written first, then the waiters are woken. */
  class ValueEvent {
    var value: Option<Outcome>
    var fired: bool

    ghost predicate Valid()
      reads this
    {
      fired <==> value.Some?
    }

    constructor ()
      ensures Valid() && value == None
    {
      value := None;
      fired := false;
    }

    /** set and set_error: the last write wins, and a woken waiter always finds a value. */
    method Put(outcome: Outcome)
      modifies this
      ensures Valid() && value == Some(outcome)
    {
      value := Some(outcome);
      fired := true;
    }

    predicate IsSet()
      reads this
    {
      value.Some?
    }
  }

  class Message {
    const id: nat
    const request: Request
    const event: ValueEvent
    var cancelled: bool

    constructor (id: nat, request: Request)
      ensures this.id == id && this.request == request && !cancelled
      ensures fresh(event) && event.Valid() && event.value == None
    {
      this.id := id;
      this.request := request;
      event := new ValueEvent();
      cancelled := false;
    }

    method Cancel()
      modifies this, event
      ensures cancelled && event.Valid() && event.value == Some(Cancelled)
    {
      cancelled := true;
      event.Put(Cancelled);
    }

    /** False stands for the AssertionErrors of process_reply; nothing is stored then. */
    method ProcessReply(ret: int, data: bytes) returns (ok: bool)
      modifies event
      ensures ok <==> Processed(request, ret, data).Some?
      ensures ok ==> event.Valid() && event.value == Processed(request, ret, data)
      ensures !ok ==> event.value == old(event.value) && event.fired == old(event.fired)
    {
      if ret < 0 {
        event.Put(Error(-ret));
        return true;
      }
      if ret > 0 && |data| != ret {
        return false;
      }
      if request.Dir? {
        var names := ProcessListing(data);
        if names.None? {
          return false;
        }
        event.Put(Names(names.value));
      } else {
        event.Put(Value(data));
      }
      ok := true;
    }
  }

  /** DirMsg._process, entry by entry. */
  method ProcessListing(data: bytes) returns (names: Option<seq<bytes>>)
    ensures names == Listing(data)
  {
    if data == [] {
      return Some([]);
    }
    var parts := Split(data, COMMA);
    var res: seq<bytes> := [];
    var i := 0;
    assert parts[0..] == parts;
    assert forall rest: seq<bytes> :: res + rest == rest;
    while i < |parts|
      invariant 0 <= i <= |parts|
      invariant Entries(parts) == Prepend(res, Entries(parts[i..]))
    {
      assert parts[i..][0] == parts[i] && parts[i..][1..] == parts[i + 1..];
      if NUL in parts[i] {
        return None;
      }
      ghost var rest := Entries(parts[i + 1..]);
      if rest.Some? {
        assert res + ([AfterLastSlash(parts[i])] + rest.value) == res + [AfterLastSlash(parts[i])] + rest.value;
      }
      res := res + [AfterLastSlash(parts[i])];
      i := i + 1;
    }
    assert res + [] == res;
    names := Some(res);
  }

  function Prepend(head: seq<bytes>, rest: Option<seq<bytes>>): Option<seq<bytes>> {
    if rest.None? then None else Some(head + rest.value)
  }
}
