/** The owserver framing: a 24-byte header of six big-endian 32-bit integers,
    then the payload (asyncowfs/protocol.py, class MessageProtocol). */
module Wire {
  import opened Text

  const MAX_LENGTH := 9999
  const HEADER := 24

  // ---------------------------------------------------------------- struct "!i"

  predicate IsInt32(x: int) {
    -0x8000_0000 <= x < 0x8000_0000
  }

  /** The low n base-256 digits of u, most significant first. */
  function BigEndian(u: nat, n: nat): (b: bytes)
    ensures |b| == n
    decreases n, u
  {
    if n == 0 then [] else BigEndian(u / 256, n - 1) + [u % 256]
  }

  function Magnitude(b: bytes): nat {
    if b == [] then 0 else 256 * Magnitude(b[..|b| - 1]) + b[|b| - 1]
  }

  function Size(n: nat): (m: nat)
    ensures m > 0
  {
    if n == 0 then 1 else 256 * Size(n - 1)
  }

  lemma {:induction false} MagnitudeOfDigits(u: nat, n: nat)
    requires u < Size(n)
    ensures Magnitude(BigEndian(u, n)) == u
    decreases n
  {
    if n > 0 {
      MagnitudeOfDigits(u / 256, n - 1);
      assert BigEndian(u, n)[..n - 1] == BigEndian(u / 256, n - 1);
    }
  }

  lemma {:induction false} DigitsOfMagnitude(b: bytes)
    ensures BigEndian(Magnitude(b), |b|) == b
    ensures Magnitude(b) < Size(|b|)
  {
    if b != [] {
      DigitsOfMagnitude(b[..|b| - 1]);
    }
  }

  function PackInt(x: int): (b: bytes)
    requires IsInt32(x)
    ensures |b| == 4
  {
    BigEndian(if x < 0 then x + 0x1_0000_0000 else x, 4)
  }

  function UnpackInt(b: bytes): (x: int)
    requires |b| == 4
  {
    var u := Magnitude(b);
    if u >= 0x8000_0000 then u - 0x1_0000_0000 else u
  }

  /** Two's complement, big endian: unpacking undoes packing on every int32. */
  lemma UnpackPack(x: int)
    requires IsInt32(x)
    ensures UnpackInt(PackInt(x)) == x
  {
    assert Size(4) == 0x1_0000_0000;
    MagnitudeOfDigits(if x < 0 then x + 0x1_0000_0000 else x, 4);
  }

  /** And packing undoes unpacking on every four bytes. */
  lemma PackUnpack(b: bytes)
    requires |b| == 4
    ensures IsInt32(UnpackInt(b)) && PackInt(UnpackInt(b)) == b
  {
    DigitsOfMagnitude(b);
    assert Size(4) == 0x1_0000_0000;
  }

  /** The four bytes, as a number below two to the 32nd: the most significant one comes first. */
  lemma PackedBytes(x: int)
    requires IsInt32(x)
    ensures var b := PackInt(x);
            var b0, b1, b2, b3 := b[0] as int, b[1] as int, b[2] as int, b[3] as int;
            b0 * 0x100_0000 + b1 * 0x1_0000 + b2 * 0x100 + b3 == if x < 0 then x + 0x1_0000_0000 else x
  {
    UnpackPack(x);
    BytesMagnitude(PackInt(x));
  }

  lemma BytesMagnitude(b: bytes)
    requires |b| == 4
    ensures var b0, b1, b2, b3 := b[0] as int, b[1] as int, b[2] as int, b[3] as int;
            Magnitude(b) == b0 * 0x100_0000 + b1 * 0x1_0000 + b2 * 0x100 + b3
    ensures Magnitude(b) < 0x1_0000_0000
  {
    assert b[..3][..2] == b[..2] && b[..2][..1] == b[..1] && b[..1][..0] == [];
    assert Magnitude(b[..1]) == b[0];
    assert Magnitude(b[..2]) == 256 * Magnitude(b[..1]) + b[1];
    assert Magnitude(b[..3]) == 256 * Magnitude(b[..2]) + b[2];
  }

  // ---------------------------------------------------------------- headers and frames

  datatype Header = Header(version: int, payload: int, ret: int, flags: int, dataLen: int, offset: int)

  predicate HeaderFits(h: Header) {
    IsInt32(h.version) && IsInt32(h.payload) && IsInt32(h.ret) &&
    IsInt32(h.flags) && IsInt32(h.dataLen) && IsInt32(h.offset)
  }

  function Fields(h: Header): seq<int> {
    [h.version, h.payload, h.ret, h.flags, h.dataLen, h.offset]
  }

  /** struct.pack and struct.unpack for "!i" repeated. */
  function PackInts(xs: seq<int>): (b: bytes)
    requires forall i :: 0 <= i < |xs| ==> IsInt32(xs[i])
    ensures |b| == 4 * |xs|
  {
    if xs == [] then [] else PackInt(xs[0]) + PackInts(xs[1..])
  }

  function UnpackInts(b: bytes): (xs: seq<int>)
    ensures |xs| == |b| / 4
  {
    if |b| < 4 then [] else [UnpackInt(b[..4])] + UnpackInts(b[4..])
  }

  lemma {:induction false} UnpackPackInts(xs: seq<int>)
    requires forall i :: 0 <= i < |xs| ==> IsInt32(xs[i])
    ensures UnpackInts(PackInts(xs)) == xs
  {
    if xs != [] {
      UnpackPack(xs[0]);
      UnpackPackInts(xs[1..]);
      assert PackInts(xs)[..4] == PackInt(xs[0]) && PackInts(xs)[4..] == PackInts(xs[1..]);
    }
  }

  function PackHeader(h: Header): (b: bytes)
    requires HeaderFits(h)
    ensures |b| == HEADER
  {
    PackInts(Fields(h))
  }

  function UnpackHeader(b: bytes): (h: Header)
    requires |b| == HEADER
  {
    var xs := UnpackInts(b);
    Header(xs[0], xs[1], xs[2], xs[3], xs[4], xs[5])
  }

  /** struct.unpack("!6i") undoes struct.pack("!6i") on all six int32 fields. */
  lemma UnpackPackHeader(h: Header)
    requires HeaderFits(h)
    ensures UnpackHeader(PackHeader(h)) == h
  {
    UnpackPackInts(Fields(h));
  }

  /** The arguments of MessageProtocol.write. No data at all is the busy frame's shape. */
  datatype Frame = Frame(typ: int, flags: int, rlen: int, data: Option<bytes>, offset: int)

  function FrameHeader(f: Frame): Header {
    Header(0, if f.data.None? then -1 else |f.data.value|, f.typ, f.flags, f.rlen, f.offset)
  }

  function Payload(f: Frame): bytes {
    if f.data.None? then [] else f.data.value
  }

  /** The bytes one write sends; None stands for struct.error. */
  function Written(f: Frame): Option<bytes> {
    if HeaderFits(FrameHeader(f)) then Some(PackHeader(FrameHeader(f)) + Payload(f)) else None
  }

  /** offset & 0x8000 clears the offset. */
  function MaskedOffset(offset: int): int {
    if offset / 0x8000 % 2 == 1 then 0 else offset
  }

  predicate IsBusy(h: Header) {
    h.payload == -1 && h.dataLen == 0 && MaskedOffset(h.offset) == 0
  }

  /** Frames both ends can exchange: fields fit, the payload is not over-long,
      and a frame without payload is a busy frame. */
  predicate Sendable(f: Frame) {
    HeaderFits(FrameHeader(f)) && |Payload(f)| <= MAX_LENGTH && (f.data.None? ==> IsBusy(FrameHeader(f)))
  }

  function Encode(f: Frame): bytes
    requires Sendable(f)
  {
    PackHeader(FrameHeader(f)) + Payload(f)
  }

  ghost predicate AllSendable(fs: seq<Frame>) {
    forall f :: f in fs ==> Sendable(f)
  }

  function EncodeAll(fs: seq<Frame>): bytes
    requires forall f :: f in fs ==> Sendable(f)
  {
    if fs == [] then [] else Encode(fs[0]) + EncodeAll(fs[1..])
  }

  lemma {:induction false} EncodeAllAppend(a: seq<Frame>, b: seq<Frame>)
    requires AllSendable(a) && AllSendable(b)
    ensures AllSendable(a + b)
    ensures EncodeAll(a + b) == EncodeAll(a) + EncodeAll(b)
  {
    if a == [] {
      assert a + b == b;
    } else {
      EncodeAllAppend(a[1..], b);
      assert (a + b)[1..] == a[1..] + b;
    }
  }

  // ---------------------------------------------------------------- reading one frame

  /** What __anext__ yields or raises. */
  datatype Received =
    | Stop                                                           // end of stream before a header
    | Truncated                                                      // end of stream inside a payload
    | Busy                                                           // ServerBusy
    | WrongVersion(version: int)
    | TooMuch(payload: int)
    | ToServer(command: int, flags: int, data: bytes, dataLen: int)  // the server's view of a frame
    | ToClient(ret: int, data: bytes)                                // the client's view

  function Deliver(isServer: bool, h: Header, data: bytes): Received {
    var dataLen := if h.payload == 0 then 0 else h.dataLen;
    if isServer then ToServer(h.ret, h.flags, data, dataLen) else ToClient(h.ret, UpTo(data, dataLen))
  }

  /** The receiver's view of a frame the other end wrote. */
  function ViewOf(isServer: bool, f: Frame): Received {
    if f.data.None? then Busy else Deliver(isServer, FrameHeader(f), f.data.value)
  }

  /** The receiver's state: its buffer, and the chunks the network will still hand over. */
  datatype Input = Input(buf: bytes, chunks: seq<bytes>) {
    function Pending(): bytes {
      buf + Flatten(chunks)
    }
  }

  /** _read_buf's loop: pull chunks until n bytes are buffered or the stream ends. */
  function Fill(i: Input, n: int): (j: Input)
    ensures j.Pending() == i.Pending()
    ensures |j.buf| < n ==> j.chunks == []
    ensures |i.buf| >= n ==> j == i
    decreases |i.chunks|
  {
    if |i.buf| >= n || i.chunks == [] then i
    else
      assert i.buf + i.chunks[0] + Flatten(i.chunks[1..]) == i.buf + (i.chunks[0] + Flatten(i.chunks[1..]));
      Fill(Input(i.buf + i.chunks[0], i.chunks[1..]), n)
  }

  /** _read_buf(n): n bytes, or None at the end of the stream. */
  function Take(i: Input, n: int): (Option<bytes>, Input) {
    var j := Fill(i, n);
    if |j.buf| < n then (None, j) else (Some(UpTo(j.buf, n)), Input(From(j.buf, n), j.chunks))
  }

  /** __anext__ on a receiver state. */
  function NextFrame(isServer: bool, i: Input): (Received, Input) {
    var (hdr, j) := Take(i, HEADER);
    if hdr.None? then (Stop, j)
    else
      var h := UnpackHeader(hdr.value);
      if h.version != 0 then (WrongVersion(h.version), j)
      else if IsBusy(h) then (Busy, j)
      else if h.payload > MAX_LENGTH then (TooMuch(h.payload), j)
      else
        var (data, k) := Take(j, h.payload);
        if data.None? then (Truncated, k) else (Deliver(isServer, h, data.value), k)
  }

  /** The same on the plain byte string, without buffer or chunks: what is read, and what is left.
      A negative payload length, other than the busy frame's, reads nothing here. */
  function ParseOne(isServer: bool, s: bytes): (Received, bytes) {
    if |s| < HEADER then (Stop, s)
    else
      var h := UnpackHeader(s[..HEADER]);
      var rest := s[HEADER..];
      if h.version != 0 then (WrongVersion(h.version), rest)
      else if IsBusy(h) then (Busy, rest)
      else if h.payload > MAX_LENGTH then (TooMuch(h.payload), rest)
      else if h.payload < 0 then (Deliver(isServer, h, []), rest)
      else if |rest| < h.payload then (Truncated, rest)
      else (Deliver(isServer, h, rest[..h.payload]), rest[h.payload..])
  }

  predicate NegativeLength(s: bytes) {
    |s| >= HEADER &&
    var h := UnpackHeader(s[..HEADER]);
    h.version == 0 && h.payload < 0 && !IsBusy(h)
  }

  lemma TakePending(i: Input, n: int)
    ensures var (r, j) := Take(i, n);
            if r.None? then |i.Pending()| < n && j.Pending() == i.Pending()
            else r.value + j.Pending() == i.Pending() &&
                 (n >= 0 ==> |r.value| == n && r.value == i.Pending()[..n] && j.Pending() == i.Pending()[n..])
  {
  }

  /** Whatever way the bytes are cut into chunks, reading a frame gives the same result and leaves the
      same bytes pending, unless the header announces a negative length. */
  lemma ChunkingIrrelevant(isServer: bool, i: Input)
    requires !NegativeLength(i.Pending())
    ensures var (r, j) := NextFrame(isServer, i);
            (r, j.Pending()) == ParseOne(isServer, i.Pending())
  {
    TakePending(i, HEADER);
    var (hdr, j) := Take(i, HEADER);
    if hdr.Some? {
      TakePending(j, UnpackHeader(hdr.value).payload);
    }
  }

  /** No byte is lost, duplicated or reordered by reading a frame, at either end, negative lengths included: what was
      pending is the header, the payload that the frame is delivered from, and what is pending now. */
  lemma ReadConserves(isServer: bool, i: Input) returns (data: bytes)
    requires NextFrame(isServer, i).0.ToServer? || NextFrame(isServer, i).0.ToClient?
    ensures var (r, j) := NextFrame(isServer, i);
            |i.Pending()| >= HEADER && i.Pending() == i.Pending()[..HEADER] + data + j.Pending() &&
            r == Deliver(isServer, UnpackHeader(i.Pending()[..HEADER]), data)
  {
    TakePending(i, HEADER);
    var (hdr, j) := Take(i, HEADER);
    TakePending(j, UnpackHeader(hdr.value).payload);
    var (payload, k) := Take(j, UnpackHeader(hdr.value).payload);
    data := payload.value;
    assert hdr.value + (data + k.Pending()) == hdr.value + data + k.Pending();
  }

  /** With any negative length the outcome does depend on the chunking, at either end: of the same bytes, cut after
      the header or not cut at all, different ones are left for the next read; the server also gets different data. */
  lemma NegativeLengthDependsOnChunking(isServer: bool, s: bytes, tail: bytes)
    requires |s| == HEADER && NegativeLength(s)
    requires |tail| > -UnpackHeader(s).payload
    ensures Input(s, [tail]).Pending() == Input(s + tail, []).Pending()
    ensures NextFrame(isServer, Input(s, [tail])).1.Pending() != NextFrame(isServer, Input(s + tail, [])).1.Pending()
    ensures NextFrame(true, Input(s, [tail])).0 != NextFrame(true, Input(s + tail, [])).0
  {
    assert s[..HEADER] == s;
    var h := UnpackHeader(s);
    assert Flatten([tail]) == tail + Flatten([]) == tail;
    assert (s + tail)[..HEADER] == s && (s + tail)[HEADER..] == tail;
    assert s[HEADER..] == [];
    assert Take(Input(s, [tail]), HEADER) == (Some(s), Input([], [tail]));
    assert Take(Input(s + tail, []), HEADER) == (Some(s), Input(tail, []));
    assert Take(Input([], [tail]), h.payload) == (Some([]), Input([], [tail]));
    assert Take(Input(tail, []), h.payload) ==
           (Some(tail[..|tail| + h.payload]), Input(tail[|tail| + h.payload..], []));
    assert |Input(tail[|tail| + h.payload..], []).Pending()| < |tail| == |Input([], [tail]).Pending()|;
  }

  // ---------------------------------------------------------------- the bytes themselves

  /** The i-th of the header's six integers. */
  function Word(s: bytes, i: nat): int
    requires 4 * i + 4 <= |s|
  {
    UnpackInt(s[4 * i..4 * i + 4])
  }

  lemma HeaderWords(b: bytes)
    requires |b| == HEADER
    ensures UnpackHeader(b) == Header(Word(b, 0), Word(b, 1), Word(b, 2), Word(b, 3), Word(b, 4), Word(b, 5))
  {
    hide UnpackInt;
    var c := b[4..];
    var d := c[4..];
    var e := d[4..];
    var f := e[4..];
    var g := f[4..];
    assert b[..4] == b[0..4] && c[..4] == b[4..8] && d[..4] == b[8..12];
    assert e[..4] == b[12..16] && f[..4] == b[16..20] && g[..4] == b[20..24];
    assert UnpackInts(g) == [UnpackInt(g[..4])] + UnpackInts(g[4..]);
    assert UnpackInts(f) == [UnpackInt(f[..4])] + UnpackInts(g);
    assert UnpackInts(e) == [UnpackInt(e[..4])] + UnpackInts(f);
    assert UnpackInts(d) == [UnpackInt(d[..4])] + UnpackInts(e);
    assert UnpackInts(c) == [UnpackInt(c[..4])] + UnpackInts(d);
  }

  lemma BitFifteen(u: nat, b0: nat, b1: nat, b2: nat, b3: nat)
    requires b0 < 256 && b1 < 256 && b2 < 256 && b3 < 256
    requires u == b0 * 0x100_0000 + b1 * 0x1_0000 + b2 * 0x100 + b3
    ensures u / 0x8000 == b0 * 0x200 + b1 * 2 + b2 / 128
  {
  }

  lemma Parity(u: int)
    ensures (u - 0x1_0000_0000) / 0x8000 == u / 0x8000 - 0x2_0000
  {
  }

  /** offset & 0x8000, told by the bytes: the highest bit of the third one. */
  lemma MaskedByte(b: bytes)
    requires |b| == 4
    ensures MaskedOffset(UnpackInt(b)) == 0 <==> b == [0, 0, 0, 0] || b[2] >= 128
    ensures MaskedOffset(UnpackInt(b)) != 0 ==> MaskedOffset(UnpackInt(b)) == UnpackInt(b)
  {
    hide Magnitude;
    BytesMagnitude(b);
    BitFifteen(Magnitude(b), b[0], b[1], b[2], b[3]);
    Parity(Magnitude(b));
    assert UnpackInt(b) / 0x8000 % 2 == b[2] / 128;
  }

  /** What a write sends: the six integers in this order, the payload's length second and -1 without a payload, each of
      them as four bytes, and the payload. */
  lemma WrittenWords(f: Frame)
    requires Written(f).Some?
    ensures var s := Written(f).value;
            |s| == 24 + |Payload(f)| && s[24..] == Payload(f) &&
            Word(s, 0) == 0 && Word(s, 1) == (if f.data.None? then -1 else |Payload(f)|) && Word(s, 2) == f.typ &&
            Word(s, 3) == f.flags && Word(s, 4) == f.rlen && Word(s, 5) == f.offset
  {
    hide UnpackInt;
    var s := Written(f).value;
    var b := s[..HEADER];
    assert b == PackHeader(FrameHeader(f));
    UnpackPackHeader(FrameHeader(f));
    HeaderWords(b);
    assert forall i :: 0 <= i < 6 ==> s[4 * i..4 * i + 4] == b[4 * i..4 * i + 4];
    assert Word(s, 0) == Word(b, 0) && Word(s, 1) == Word(b, 1) && Word(s, 2) == Word(b, 2);
    assert Word(s, 3) == Word(b, 3) && Word(s, 4) == Word(b, 4) && Word(s, 5) == Word(b, 5);
  }

  /** Which six integers mean what to a reader. */
  lemma ReadWords(isServer: bool, s: bytes)
    requires |s| >= 24
    ensures var (r, rest) := ParseOne(isServer, s);
            var size, length := Word(s, 1), Word(s, 4);
            var masked := s[20..24] == [0, 0, 0, 0] || s[22] >= 128;
            (r.WrongVersion? <==> Word(s, 0) != 0) &&
            (r.Busy? <==> Word(s, 0) == 0 && size == -1 && length == 0 && masked) &&
            (r.TooMuch? <==> Word(s, 0) == 0 && size > 9999) &&
            (r.Truncated? <==> Word(s, 0) == 0 && |s| - 24 < size <= 9999) &&
            (Word(s, 0) == 0 && 0 <= size <= 9999 && size <= |s| - 24 ==>
               rest == s[24 + size..] &&
               var data, cut := s[24..24 + size], if size == 0 then 0 else length;
               r == if isServer then ToServer(Word(s, 2), Word(s, 3), data, cut)
                    else ToClient(Word(s, 2), UpTo(data, cut)))
  {
    hide UnpackInt, MaskedOffset;
    var b := s[..HEADER];
    HeaderWords(b);
    assert forall i :: 0 <= i < 6 ==> s[4 * i..4 * i + 4] == b[4 * i..4 * i + 4];
    assert Word(s, 0) == Word(b, 0) && Word(s, 1) == Word(b, 1) && Word(s, 2) == Word(b, 2);
    assert Word(s, 3) == Word(b, 3) && Word(s, 4) == Word(b, 4) && Word(s, 5) == Word(b, 5);
    MaskedByte(s[20..24]);
  }

  // ---------------------------------------------------------------- round trip

  /** Reading what was written: the frame's view, and exactly the bytes after it. */
  lemma ParseEncoded(isServer: bool, f: Frame, rest: bytes)
    requires Sendable(f)
    ensures ParseOne(isServer, Encode(f) + rest) == (ViewOf(isServer, f), rest)
  {
    var s := Encode(f) + rest;
    var h := FrameHeader(f);
    UnpackPackHeader(h);
    assert s[..HEADER] == PackHeader(h);
    assert s[HEADER..] == Payload(f) + rest;
  }

  /** A cut-off frame is never mistaken for a whole one. */
  lemma ParseCutOff(isServer: bool, f: Frame, n: nat)
    requires Sendable(f) && n < |Encode(f)|
    ensures ParseOne(isServer, Encode(f)[..n]).0 in {Stop, Truncated}
  {
    var s := Encode(f)[..n];
    if n >= HEADER {
      UnpackPackHeader(FrameHeader(f));
      assert s[..HEADER] == PackHeader(FrameHeader(f));
    }
  }

  lemma CutPoint<T>(e: seq<T>, tail: seq<T>, buf: seq<T>, future: seq<T>)
    requires buf + future == e + tail
    ensures |buf| < |e| ==> buf == e[..|buf|]
    ensures |buf| >= |e| ==> buf == e + buf[|e|..] && buf[|e|..] + future == tail
  {
    var s := e + tail;
    assert buf == s[..|buf|];
    if |buf| >= |e| {
      assert buf[..|e|] == s[..|e|] == e;
      assert (buf + future)[|e|..] == s[|e|..] == tail;
    }
  }

  /** If a received prefix of a stream of frames parses, then the parsed frame is the stream's first. */
  lemma PrefixParsesFirst(isServer: bool, fs: seq<Frame>, buf: bytes, future: bytes, r: Received, rest: bytes)
    requires AllSendable(fs) && buf + future == EncodeAll(fs)
    requires (r, rest) == ParseOne(isServer, buf)
    requires r !in {Stop, Truncated}
    ensures fs != []
    ensures r == ViewOf(isServer, fs[0]) && rest + future == EncodeAll(fs[1..])
  {
    if fs != [] {
      var e := Encode(fs[0]);
      CutPoint(e, EncodeAll(fs[1..]), buf, future);
      if |buf| < |e| {
        ParseCutOff(isServer, fs[0], |buf|);
      } else {
        ParseEncoded(isServer, fs[0], buf[|e|..]);
      }
    }
  }

  lemma Progress(isServer: bool, i: Input)
    ensures var (r, j) := NextFrame(isServer, i);
            r.Busy? || r.ToServer? || r.ToClient? ==> |j.Pending()| < |i.Pending()|
  {
  }

  /** Repeated __anext__ until the stream ends or an error stops it. */
  function ReadAll(isServer: bool, i: Input): seq<Received>
    decreases |i.Pending()|
  {
    Progress(isServer, i);
    var (r, j) := NextFrame(isServer, i);
    if r.Busy? || r.ToServer? || r.ToClient? then [r] + ReadAll(isServer, j) else [r]
  }

  function Views(isServer: bool, fs: seq<Frame>): seq<Received> {
    seq(|fs|, i requires 0 <= i < |fs| => ViewOf(isServer, fs[i]))
  }

  lemma ViewsStep(isServer: bool, fs: seq<Frame>)
    requires fs != []
    ensures Views(isServer, fs) == [ViewOf(isServer, fs[0])] + Views(isServer, fs[1..])
  {
  }

  lemma EncodedLengthOk(f: Frame, rest: bytes)
    requires Sendable(f)
    ensures !NegativeLength(Encode(f) + rest)
  {
    UnpackPackHeader(FrameHeader(f));
    assert (Encode(f) + rest)[..HEADER] == PackHeader(FrameHeader(f));
  }

  lemma NextEncoded(isServer: bool, f: Frame, rest: bytes, i: Input)
    requires Sendable(f)
    requires i.Pending() == Encode(f) + rest
    ensures var (r, j) := NextFrame(isServer, i);
            r == ViewOf(isServer, f) && j.Pending() == rest
  {
    EncodedLengthOk(f, rest);
    ChunkingIrrelevant(isServer, i);
    ParseEncoded(isServer, f, rest);
  }

  lemma ReadAllEncoded(isServer: bool, f: Frame, rest: bytes, i: Input) returns (j: Input)
    requires Sendable(f)
    requires i.Pending() == Encode(f) + rest
    ensures j.Pending() == rest
    ensures ReadAll(isServer, i) == [ViewOf(isServer, f)] + ReadAll(isServer, j)
  {
    NextEncoded(isServer, f, rest, i);
    j := NextFrame(isServer, i).1;
  }

  lemma ReadAllEmpty(isServer: bool, i: Input)
    requires i.Pending() == []
    ensures ReadAll(isServer, i) == [Stop]
  {
  }

  /** Every sequence of frames, busy frames included, and every way of cutting its bytes into a buffer
      and chunks: repeated reading yields exactly those frames, and then the end of the stream. */
  lemma {:induction false} StreamRoundTrip(isServer: bool, fs: seq<Frame>, i: Input)
    requires AllSendable(fs)
    requires i.Pending() == EncodeAll(fs)
    ensures ReadAll(isServer, i) == Views(isServer, fs) + [Stop]
    decreases |fs|
  {
    if fs == [] {
      ReadAllEmpty(isServer, i);
    } else {
      var j := ReadAllEncoded(isServer, fs[0], EncodeAll(fs[1..]), i);
      StreamRoundTrip(isServer, fs[1..], j);
      ViewsStep(isServer, fs);
    }
  }

  // ---------------------------------------------------------------- the protocol object

  /** One connection: what the network will still deliver, and what has been sent. */
  class Stream {
    var chunks: seq<bytes>
    var sent: bytes

    constructor (chunks: seq<bytes>)
      ensures this.chunks == chunks && sent == []
    {
      this.chunks := chunks;
      sent := [];
    }

    method Receive() returns (more: Option<bytes>)
      modifies this`chunks
      ensures old(chunks) == [] ==> more == None && chunks == []
      ensures old(chunks) != [] ==> more == Some(old(chunks)[0]) && chunks == old(chunks)[1..]
    {
      if chunks == [] {
        return None;
      }
      more := Some(chunks[0]);
      chunks := chunks[1..];
    }

    method Send(data: bytes)
      modifies this`sent
      ensures sent == old(sent) + data
    {
      sent := sent + data;
    }
  }

  class MessageProtocol {
    const stream: Stream
    const isServer: bool
    var buf: bytes

    constructor (stream: Stream, isServer: bool)
      ensures this.stream == stream && this.isServer == isServer && buf == []
    {
      this.stream := stream;
      this.isServer := isServer;
      buf := [];
    }

    ghost function View(): Input
      reads this, stream
    {
      Input(buf, stream.chunks)
    }

    method ReadBuf(nbytes: int) returns (res: Option<bytes>)
      modifies this`buf, stream`chunks
      ensures (res, View()) == Take(old(View()), nbytes)
    {
      while |buf| < nbytes
        invariant Fill(View(), nbytes) == Fill(old(View()), nbytes)
        decreases |stream.chunks|
      {
        var more := stream.Receive();
        if more.None? {
          return None;
        }
        buf := buf + more.value;
      }
      res := Some(UpTo(buf, nbytes));
      buf := From(buf, nbytes);
    }

    method Next() returns (r: Received)
      modifies this`buf, stream`chunks
      ensures (r, View()) == NextFrame(isServer, old(View()))
    {
      var hdr := ReadBuf(HEADER);
      if hdr.None? {
        return Stop;
      }
      var h := UnpackHeader(hdr.value);
      var offset := MaskedOffset(h.offset);
      if h.version != 0 {
        return WrongVersion(h.version);
      }
      if h.payload == -1 && h.dataLen == 0 && offset == 0 {
        return Busy;
      }
      if h.payload > MAX_LENGTH {
        return TooMuch(h.payload);
      }
      var data := ReadBuf(h.payload);
      if data.None? {
        return Truncated;
      }
      r := Deliver(isServer, h, data.value);
    }

    /** Sends the frame's bytes and nothing else; on struct.error nothing is sent. */
    method Write(f: Frame) returns (ok: bool)
      modifies stream`sent
      ensures ok <==> Written(f).Some?
      ensures stream.sent == if ok then old(stream.sent) + Written(f).value else old(stream.sent)
    {
      ok := HeaderFits(FrameHeader(f));
      if ok {
        if f.data.None? {
          stream.Send(PackHeader(FrameHeader(f)));
          assert PackHeader(FrameHeader(f)) + [] == PackHeader(FrameHeader(f));
        } else {
          stream.Send(PackHeader(FrameHeader(f)) + f.data.value);
        }
      }
    }
  }
}
