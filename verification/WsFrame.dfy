/** The WebSocket frame codec of section 5.2 and 5.3 of RFC 6455. */
module WsFrame {
  import opened Bytes

  const MAX_MESSAGE_SIZE := 0x400_0000

  type Key = k: seq<byte> | |k| == 4 witness [0, 0, 0, 0]

  // A byte slice: its length fits a signed 64-bit int.
  type Slice = s: seq<byte> | |s| < 0x8000_0000_0000_0000 witness []

  const ZERO_KEY: Key := [0, 0, 0, 0]

  datatype WsError =
    | Eof
    | UnexpectedEof
    | ControlFrameTooLong
    | ControlFrameNotFinal
    | MessageTooLarge
    | MaskedFromServer
    | UnmaskedFromClient
    | UnexpectedContinuation
    | UnexpectedDataFrame
    | UnexpectedRsv1
    | FlateCorrupt
    | ConnClosed
    | RandomFailed

  datatype Header = Header(
    fin: bool, rsv1: bool, rsv2: bool, rsv3: bool,
    opcode: byte, masked: bool, maskKey: Key, length: u64)

  predicate IsControl(opcode: byte) { opcode / 8 % 2 == 1 }

  /** What a read leaves behind: a value or an error, and the unread bytes. */
  datatype Read<+T> = Got(value: T, rest: seq<byte>) | Lost(error: WsError, rest: seq<byte>) {
    predicate IsFailure() { Lost? }
    function PropagateFailure<U>(): Read<U> requires Lost? { Lost(error, rest) }
    function Extract(): (T, seq<byte>) requires Got? { (value, rest) }
  }

  datatype Frame = Frame(hdr: Header, payload: seq<byte>)

  /** `io.ReadFull` of n bytes. */
  function TakeFull(b: seq<byte>, n: nat): Read<seq<byte>> {
    if n <= |b| then Got(b[..n], b[n..])
    else Lost(if b == [] then Eof else UnexpectedEof, [])
  }

  function First(b: seq<byte>, n: nat): seq<byte> {
    if n < |b| then b[..n] else b
  }

  // ----- masking -----

  function Masked(p: seq<byte>, key: Key): (m: seq<byte>)
    ensures |m| == |p|
  {
    seq(|p|, i requires 0 <= i < |p| => Xor(p[i], key[i % 4]))
  }

  lemma MaskedTwice(p: seq<byte>, key: Key)
    ensures Masked(Masked(p, key), key) == p
  {
    var m := Masked(p, key);
    forall i | 0 <= i < |p| ensures Masked(m, key)[i] == p[i] {
      XorTwice(p[i], key[i % 4]);
    }
  }

  method ApplyMask(p: array<byte>, key: Key)
    modifies p
    ensures p[..] == Masked(old(p[..]), key)
  {
    ghost var was := p[..];
    for i := 0 to p.Length
      invariant forall k :: 0 <= k < i ==> p[k] == Masked(was, key)[k]
      invariant forall k :: i <= k < p.Length ==> p[k] == was[k]
    {
      p[i] := Xor(p[i], key[i % 4]);
    }
  }

  // ----- reading -----

  /** The payload length: seven bits, or the 16 or 64 bits that follow them. */
  function ParseLength(l: nat, b: seq<byte>): Read<u64>
    requires l < 128
  {
    if l == 126 then
      var (ext, rest) :- TakeFull(b, 2);
      Got(U16(ext), rest)
    else if l == 127 then
      var (ext, rest) :- TakeFull(b, 8);
      Got(U64(ext), rest)
    else Got(l, b)
  }

  function HeaderError(fin: bool, opcode: byte, length: nat): Option<WsError> {
    if IsControl(opcode) && !fin then Some(ControlFrameNotFinal)
    else if IsControl(opcode) && length > 125 then Some(ControlFrameTooLong)
    else if length > MAX_MESSAGE_SIZE then Some(MessageTooLarge)
    else None
  }

  /** What follows the length field: the checks, the mask key, the payload. */
  function ParseBody(flags: byte, masked: bool, len: u64, b: seq<byte>): (r: Read<Frame>)
    ensures r.Got? ==> |r.rest| <= |b|
    ensures r.Got? ==> |r.value.payload| == r.value.hdr.length <= MAX_MESSAGE_SIZE
  {
    var fin, op := flags >= 128, flags % 16;
    var bad := HeaderError(fin, op, len);
    if bad.Some? then Lost(bad.value, b) else
    var (key, b3) :- if masked then TakeFull(b, 4) else Got(ZERO_KEY, b);
    var (raw, b4) :- TakeFull(b3, len);
    var hdr := Header(fin, flags / 64 % 2 == 1, flags / 32 % 2 == 1, flags / 16 % 2 == 1, op, masked, key, len);
    Got(Frame(hdr, if masked then Masked(raw, key) else raw), b4)
  }

  function ParseFrame(b: seq<byte>): (r: Read<Frame>)
    ensures r.Got? ==> |r.rest| + 2 <= |b|
    ensures r.Got? ==> |r.value.payload| == r.value.hdr.length <= MAX_MESSAGE_SIZE
  {
    var (h, b1) :- TakeFull(b, 2);
    var (len, b2) :- ParseLength(h[1] % 128, b1);
    ParseBody(h[0], h[1] >= 128, len, b2)
  }

  /** The unread part of an incoming stream. */
  class ByteReader {
    var buf: seq<byte>

    constructor (bytes: seq<byte>)
      ensures buf == bytes
    {
      buf := bytes;
    }

    method ReadFull(n: nat) returns (r: Result<seq<byte>, WsError>)
      modifies this
      ensures var want := TakeFull(old(buf), n); buf == want.rest && r == ToResult(want)
    {
      if n <= |buf| {
        r := Ok(buf[..n]);
        buf := buf[n..];
      } else {
        r := Err(if buf == [] then Eof else UnexpectedEof);
        buf := [];
      }
    }

    /** The stream behind is closed: what was fetched of it before is all there will ever be. */
    method Cut(fetched: nat)
      modifies this
      ensures buf == First(old(buf), fetched)
    {
      if fetched < |buf| {
        buf := buf[..fetched];
      }
    }
  }

  lemma TakeExtends(b: seq<byte>, more: seq<byte>, n: nat)
    requires TakeFull(b, n).Got?
    ensures TakeFull(b + more, n) == Got(TakeFull(b, n).value, TakeFull(b, n).rest + more)
  {
    assert (b + more)[..n] == b[..n] && (b + more)[n..] == b[n..] + more;
  }

  lemma LengthExtends(l: nat, b: seq<byte>, more: seq<byte>)
    requires l < 128 && ParseLength(l, b).Got?
    ensures ParseLength(l, b + more) == Got(ParseLength(l, b).value, ParseLength(l, b).rest + more)
  {
    hide TakeFull;
    if l == 126 {
      TakeExtends(b, more, 2);
    } else if l == 127 {
      TakeExtends(b, more, 8);
    }
  }

  lemma BodyExtends(flags: byte, masked: bool, len: u64, b: seq<byte>, more: seq<byte>)
    requires ParseBody(flags, masked, len, b).Got?
    ensures var r := ParseBody(flags, masked, len, b); ParseBody(flags, masked, len, b + more) == Got(r.value, r.rest + more)
  {
    hide TakeFull, HeaderError;
    var key := if masked then TakeFull(b, 4) else Got(ZERO_KEY, b);
    if masked {
      TakeExtends(b, more, 4);
    }
    TakeExtends(key.rest, more, len);
  }

  /** A frame that was read whole is read the same whatever follows. */
  lemma FrameExtends(b: seq<byte>, more: seq<byte>)
    requires ParseFrame(b).Got?
    ensures ParseFrame(b + more) == Got(ParseFrame(b).value, ParseFrame(b).rest + more)
  {
    hide TakeFull, ParseBody, ParseLength;
    TakeExtends(b, more, 2);
    var (h, b1) := (TakeFull(b, 2).value, TakeFull(b, 2).rest);
    HeadSize(b);
    LengthExtends(h[1] % 128, b1, more);
    var len := ParseLength(h[1] % 128, b1);
    BodyExtends(h[0], h[1] >= 128, len.value, len.rest, more);
  }

  lemma HeadSize(b: seq<byte>)
    requires TakeFull(b, 2).Got?
    ensures |TakeFull(b, 2).value| == 2
  {
  }

  function ToResult<T>(r: Read<T>): Result<T, WsError> {
    match r
    case Got(v, _) => Ok(v)
    case Lost(e, _) => Err(e)
  }

  method ReadLength(r: ByteReader, l: nat) returns (len: Result<u64, WsError>)
    requires l < 128
    modifies r
    ensures var want := ParseLength(l, old(r.buf)); r.buf == want.rest && len == ToResult(want)
  {
    if l == 126 {
      var ext :- r.ReadFull(2);
      return Ok(U16(ext));
    } else if l == 127 {
      var ext :- r.ReadFull(8);
      return Ok(U64(ext));
    }
    return Ok(l);
  }

  method ReadBody(r: ByteReader, flags: byte, masked: bool, len: u64) returns (f: Result<Frame, WsError>)
    modifies r
    ensures var want := ParseBody(flags, masked, len, old(r.buf)); r.buf == want.rest && f == ToResult(want)
  {
    var fin, opcode := flags >= 128, flags % 16;
    if IsControl(opcode) {
      if !fin { return Err(ControlFrameNotFinal); }
      if len > 125 { return Err(ControlFrameTooLong); }
    }
    if len > MAX_MESSAGE_SIZE { return Err(MessageTooLarge); }
    var key := ZERO_KEY;
    if masked {
      key :- r.ReadFull(4);
    }
    var raw :- r.ReadFull(len);
    var payload := new byte[len](i requires 0 <= i < |raw| => raw[i]);
    assert payload[..] == raw;
    if masked {
      ApplyMask(payload, key);
    }
    var hdr := Header(fin, flags / 64 % 2 == 1, flags / 32 % 2 == 1, flags / 16 % 2 == 1, opcode, masked, key, len);
    return Ok(Frame(hdr, payload[..]));
  }

  method ReadFrame(r: ByteReader) returns (f: Result<Frame, WsError>)
    modifies r
    ensures var want := ParseFrame(old(r.buf)); r.buf == want.rest && f == ToResult(want)
  {
    var b :- r.ReadFull(2);
    var len :- ReadLength(r, b[1] % 128);
    f := ReadBody(r, b[0], b[1] >= 128, len);
  }

  // ----- writing -----

  function Bit(b: bool): nat { if b then 1 else 0 }

  function FlagBits(h: Header): byte {
    h.opcode % 16 + 16 * Bit(h.rsv3) + 32 * Bit(h.rsv2) + 64 * Bit(h.rsv1) + 128 * Bit(h.fin)
  }

  function LengthBytes(masked: bool, l: nat): seq<byte>
    requires l < TWO64
  {
    var bit := if masked then 128 else 0;
    if l < 126 then [bit + l]
    else if l <= 0xFFFF then [bit + 126] + Be16(l)
    else [bit + 127] + Be64(l)
  }

  /** The bytes `WriteFrame` puts on the wire; it never looks at `h.length`. */
  function FrameBytes(h: Header, p: Slice): seq<byte> {
    [FlagBits(h)] + LengthBytes(h.masked, |p|)
    + (if h.masked then h.maskKey + Masked(p, h.maskKey) else p)
  }

  class Wire {
    var bytes: seq<byte>

    constructor ()
      ensures bytes == []
    {
      bytes := [];
    }

    method Write(p: seq<byte>)
      modifies this
      ensures bytes == old(bytes) + p
    {
      bytes := bytes + p;
    }
  }

  function FirstLengthByte(l: nat): byte {
    if l < 126 then l else if l <= 0xFFFF then 126 else 127
  }

  /** The extended length goes into the head buffer behind the two fixed bytes. */
  method PutLength(head: array<byte>, l: nat) returns (n: nat)
    requires head.Length == 14 && l < TWO64
    modifies head
    ensures head[0] == old(head[0])
    ensures 2 <= n <= 10 && head[1..n] == LengthBytes(false, l)
  {
    n := 2;
    head[1] := FirstLengthByte(l);
    if 126 <= l <= 0xFFFF {
      var ext := Be16(l);
      forall i | 0 <= i < 2 { head[2 + i] := ext[i]; }
      n := n + 2;
    } else if l > 0xFFFF {
      var ext := Be64(l);
      forall i | 0 <= i < 8 { head[2 + i] := ext[i]; }
      n := n + 8;
    }
  }

  /** The mask bit, and the key behind the length. */
  method PutMask(head: array<byte>, n: nat, l: nat, key: Key)
    requires head.Length == 14 && l < TWO64
    requires 2 <= n <= 10 && head[1..n] == LengthBytes(false, l)
    modifies head
    ensures head[0] == old(head[0])
    ensures head[1..n] == LengthBytes(true, l) && head[n..n + 4] == key
  {
    ghost var lb := head[1..n];
    head[1] := head[1] + 128;
    assert head[1..n] == [lb[0] + 128] + lb[1..] == LengthBytes(true, l);
    ghost var start := head[1..n];
    forall i | 0 <= i < 4 { head[n + i] := key[i]; }
    assert head[1..n] == start;
  }

  method PutFlags(head: array<byte>, hdr: Header)
    requires head.Length == 14
    modifies head
    ensures head[0] == FlagBits(hdr)
  {
    head[0] := hdr.opcode % 16;
    if hdr.fin { head[0] := head[0] + 128; }
    if hdr.rsv1 { head[0] := head[0] + 64; }
    if hdr.rsv2 { head[0] := head[0] + 32; }
    if hdr.rsv3 { head[0] := head[0] + 16; }
  }

  lemma ThreeParts(head: array<byte>, n: nat, m: nat)
    requires 0 < n <= m <= head.Length
    ensures head[..m] == [head[0]] + head[1..n] + head[n..m]
    ensures n == m ==> head[n..m] == []
  {
  }

  method WriteHead(w: Wire, hdr: Header, l: nat)
    requires l < TWO64
    modifies w
    ensures w.bytes == old(w.bytes)
      + ([FlagBits(hdr)] + LengthBytes(hdr.masked, l) + if hdr.masked then hdr.maskKey else [])
  {
    hide LengthBytes, FlagBits;
    var head := new byte[14](_ => 0);
    PutFlags(head, hdr);
    var n := PutLength(head, l);
    if hdr.masked {
      PutMask(head, n, l, hdr.maskKey);
      ThreeParts(head, n, n + 4);
      n := n + 4;
    } else {
      ThreeParts(head, n, n);
    }
    w.Write(head[..n]);
  }

  method WriteFrame(w: Wire, hdr: Header, payload: Slice)
    modifies w
    ensures w.bytes == old(w.bytes) + FrameBytes(hdr, payload)
  {
    WriteHead(w, hdr, |payload|);
    if !hdr.masked || |payload| == 0 {
      if |payload| > 0 {
        w.Write(payload);
      }
      assert hdr.masked ==> Masked(payload, hdr.maskKey) == [];
    } else {
      var masked := new byte[|payload|](i requires 0 <= i < |payload| => payload[i]);
      assert masked[..] == payload;
      ApplyMask(masked, hdr.maskKey);
      w.Write(masked[..]);
    }
  }

  // ----- the round trip -----

  /** The header a reader reports: the mask key only if there is one, the real length. */
  function SeenHeader(h: Header, p: Slice): Header {
    h.(opcode := h.opcode % 16, maskKey := if h.masked then h.maskKey else ZERO_KEY, length := |p|)
  }

  lemma TakeFullOf(a: seq<byte>, b: seq<byte>)
    ensures TakeFull(a + b, |a|) == Got(a, b)
  {
    assert (a + b)[..|a|] == a && (a + b)[|a|..] == b;
  }

  lemma ShortLength(ext: seq<byte>, l: u16, rest: seq<byte>)
    requires ext == Be16(l)
    ensures ParseLength(126, ext + rest) == Got(l, rest)
  {
    TakeFullOf(ext, rest);
    U16OfBe16(l);
  }

  lemma LongLength(ext: seq<byte>, l: u64, rest: seq<byte>)
    requires ext == Be64(l)
    ensures ParseLength(127, ext + rest) == Got(l, rest)
  {
    TakeFullOf(ext, rest);
    U64OfBe64(l);
  }

  lemma ParseLengthOf(masked: bool, l: nat, rest: seq<byte>)
    requires l < TWO64
    ensures var b := LengthBytes(masked, l);
            (b[0] >= 128 <==> masked) && ParseLength(b[0] % 128, b[1..] + rest) == Got(l, rest)
  {
    hide Be16, Be64, U16, U64;
    var b := LengthBytes(masked, l);
    if l < 126 {
      assert b[1..] + rest == rest;
    } else if l <= 0xFFFF {
      assert b[1..] == Be16(l);
      ShortLength(b[1..], l, rest);
    } else {
      assert b[1..] == Be64(l);
      LongLength(b[1..], l, rest);
    }
  }

  lemma BitsRead(x: nat, op: nat, a: nat, b: nat, c: nat, d: nat)
    requires op < 16 && a <= 1 && b <= 1 && c <= 1 && d <= 1 && x == op + 16 * a + 32 * b + 64 * c + 128 * d
    ensures x % 16 == op && x / 16 % 2 == a && x / 32 % 2 == b && x / 64 % 2 == c && (x >= 128 <==> d == 1)
  {
    assert x / 16 == a + 2 * b + 4 * c + 8 * d;
    assert x / 32 == b + 2 * c + 4 * d;
    assert x / 64 == c + 2 * d;
  }

  lemma FlagBitsRead(h: Header)
    ensures var x := FlagBits(h);
            (x >= 128 <==> h.fin) && (x / 64 % 2 == 1 <==> h.rsv1) && (x / 32 % 2 == 1 <==> h.rsv2)
            && (x / 16 % 2 == 1 <==> h.rsv3) && x % 16 == h.opcode % 16
  {
    BitsRead(FlagBits(h), h.opcode % 16, Bit(h.rsv3), Bit(h.rsv2), Bit(h.rsv1), Bit(h.fin));
  }

  lemma BodyRoundTrip(h: Header, p: Slice, rest: seq<byte>)
    requires HeaderError(h.fin, h.opcode % 16, |p|) == None
    ensures var body := if h.masked then h.maskKey + Masked(p, h.maskKey) else p;
            ParseBody(FlagBits(h), h.masked, |p|, body + rest) == Got(Frame(SeenHeader(h, p), p), rest)
  {
    FlagBitsRead(h);
    if h.masked {
      var m := Masked(p, h.maskKey);
      assert h.maskKey + m + rest == h.maskKey + (m + rest);
      TakeFullOf(h.maskKey, m + rest);
      TakeFullOf(m, rest);
      MaskedTwice(p, h.maskKey);
    } else {
      TakeFullOf(p, rest);
    }
  }

  lemma HeadRoundTrip(flags: byte, masked: bool, l: nat, body: seq<byte>)
    requires l < TWO64
    ensures ParseFrame([flags] + LengthBytes(masked, l) + body) == ParseBody(flags, masked, l, body)
  {
    var lb := LengthBytes(masked, l);
    var tail := lb[1..] + body;
    assert [flags] + lb + body == [flags, lb[0]] + tail;
    TakeFullOf([flags, lb[0]], tail);
    ParseLengthOf(masked, l, body);
  }

  /**
   Every frame written, legal or not, followed by anything: the reader returns exactly that
   frame and stops exactly behind it, unless its header breaks one of the three size and
   control rules, and then it reports that rule.
   */
  lemma FrameRoundTrip(h: Header, p: Slice, rest: seq<byte>)
    ensures var r := ParseFrame(FrameBytes(h, p) + rest);
            match HeaderError(h.fin, h.opcode % 16, |p|)
            case None => r == Got(Frame(SeenHeader(h, p), p), rest)
            case Some(e) => r.Lost? && r.error == e
  {
    var body := if h.masked then h.maskKey + Masked(p, h.maskKey) else p;
    assert FrameBytes(h, p) + rest == [FlagBits(h)] + LengthBytes(h.masked, |p|) + (body + rest);
    HeadRoundTrip(FlagBits(h), h.masked, |p|, body + rest);
    if HeaderError(h.fin, h.opcode % 16, |p|) == None {
      BodyRoundTrip(h, p, rest);
    } else {
      FlagBitsRead(h);
    }
  }

  /** No frame that a reader accepts carries the same header bits and payload in fewer bytes. */
  lemma LengthFieldIsShortest(b: seq<byte>)
    requires ParseFrame(b).Got?
    ensures var r := ParseFrame(b); |FrameBytes(r.value.hdr, r.value.payload)| <= |b| - |r.rest|
  {
  }

  /** A frame as a reader reports it: legal, and with its real length and key. */
  predicate Legal(f: Frame) {
    && |f.payload| <= MAX_MESSAGE_SIZE
    && f.hdr == SeenHeader(f.hdr, f.payload)
    && HeaderError(f.hdr.fin, f.hdr.opcode, |f.payload|) == None
  }

  function WireOf(frames: seq<Frame>): seq<byte>
    requires forall f <- frames :: Legal(f)
  {
    if frames == [] then [] else
    assert Legal(frames[0]);
    FrameBytes(frames[0].hdr, frames[0].payload) + WireOf(frames[1..])
  }

  function ParseFrames(b: seq<byte>, n: nat): Read<seq<Frame>> {
    if n == 0 then Got([], b)
    else
      var (f, rest) :- ParseFrame(b);
      var (fs, end) :- ParseFrames(rest, n - 1);
      Got([f] + fs, end)
  }

  lemma LegalRoundTrip(f: Frame, rest: seq<byte>)
    requires Legal(f)
    ensures ParseFrame(FrameBytes(f.hdr, f.payload) + rest) == Got(f, rest)
  {
    FrameRoundTrip(f.hdr, f.payload, rest);
  }

  lemma WireOfCons(frames: seq<Frame>, rest: seq<byte>)
    requires frames != [] && forall f <- frames :: Legal(f)
    ensures Legal(frames[0]) && WireOf(frames) + rest
         == FrameBytes(frames[0].hdr, frames[0].payload) + (WireOf(frames[1..]) + rest)
  {
    assert Legal(frames[0]);
    var a, b := FrameBytes(frames[0].hdr, frames[0].payload), WireOf(frames[1..]);
    assert WireOf(frames) == a + b;
  }

  /** Any concatenation of frames reads back as the same frames. */
  lemma {:induction false} FramesRoundTrip(frames: seq<Frame>, rest: seq<byte>)
    requires forall f <- frames :: Legal(f)
    ensures ParseFrames(WireOf(frames) + rest, |frames|) == Got(frames, rest)
  {
    if frames == [] {
      assert WireOf(frames) + rest == rest;
    } else {
      WireOfCons(frames, rest);
      LegalRoundTrip(frames[0], WireOf(frames[1..]) + rest);
      FramesRoundTrip(frames[1..], rest);
      assert [frames[0]] + frames[1..] == frames;
    }
  }
}
