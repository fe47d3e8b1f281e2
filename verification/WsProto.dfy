/**
 The framed protocol: a ten-byte header around a MessagePack body that may be LZ4 compressed.
 The MessagePack and LZ4 libraries are parameters of which only their laws are known.
 */
module WsProto {
  import opened Bytes
  import Msgpack

  const VERSION: byte := 10
  const HEADER_LEN := 10
  const COMPRESS_THRESHOLD := 32
  const MAX_BODY_LEN := 0xFF_FFFF
  const MAX_RAW_LEN := 128 * 0x10_0000

  type i16 = x: int | -0x8000 <= x < 0x8000

  datatype Error = MarshalFailed | CompressFailed | ShortHeader | TruncatedBody | BodyTooLarge | RawTooLarge
    | BadVersion | BadMsgpack | BadLz4 | UnmarshalFailed

  datatype Frame<V> = Frame(cmd: byte, seqNo: i16, opcode: i16, payload: V)

  datatype Meta = Meta(version: byte, cmd: byte, seqNo: i16, opcode: i16, cof: byte, bodyLen: nat, rawLen: nat)

  /**
   The libraries. `compress` gives the compressed block, empty when the data does not compress;
   `uncompress` works into a buffer of the given size.
   */
  datatype Libs<!V> = Libs(
    marshal: V -> Option<seq<byte>>,
    unmarshal: seq<byte> -> Option<V>,
    compress: seq<byte> -> Option<seq<byte>>,
    uncompress: (seq<byte>, nat) -> Option<seq<byte>>)

  /** Marshalled values are well formed and come back. */
  ghost predicate MsgpackLaw<V(!new)>(l: Libs<V>) {
    forall v: V {:trigger l.marshal(v)} :: l.marshal(v).Some? ==>
      Msgpack.WellFormed(l.marshal(v).value) && l.unmarshal(l.marshal(v).value) == Some(v)
  }

  /** A compressed block uncompresses into any buffer that holds the data, and LZ4 expands at most 255 times. */
  ghost predicate Lz4Law<V>(l: Libs<V>) {
    forall b: seq<byte>, size: nat {:trigger l.compress(b), l.uncompress(l.compress(b).value, size)} ::
      l.compress(b).Some? && l.compress(b).value != [] && size >= |b| ==>
        |b| <= 255 * |l.compress(b).value| && l.uncompress(l.compress(b).value, size) == Some(b)
  }

  // ----- the compression factor -----

  /** The rounded-up quotient of the two sizes, capped to a byte. */
  function Cof(raw: nat, n: nat): (c: nat)
    requires 0 < n < raw
  {
    Min((raw + n - 1) / n, 255)
  }

  /**
   The factor bounds the buffer on both sides: big enough for the data, and less than the data
   and its compressed form together.
   */
  lemma CofBoundsBuffer(raw: nat, n: nat)
    requires 0 < n < raw <= 255 * n
    ensures 2 <= Cof(raw, n) <= 255
    ensures raw <= Cof(raw, n) * n < raw + n
  {
    var q := (raw + n - 1) / n;
    DivBounds(raw + n - 1, n);
    if q > 255 {
      MulMono(256, q, n);
    }
    if q < 2 {
      MulMono(q, 1, n);
    }
  }

  lemma DivBounds(a: nat, n: nat)
    requires n > 0
    ensures a / n * n <= a < a / n * n + n
  {
  }

  lemma MulMono(a: nat, b: nat, n: nat)
    requires a <= b
    ensures a * n <= b * n
  {
  }

  // ----- encoding -----

  function ToU16(x: i16): u16 { if x < 0 then x + 0x1_0000 else x }

  function ToI16(x: u16): i16 { if x >= 0x8000 then x - 0x1_0000 else x }

  function Be24(n: nat): (b: seq<byte>)
    requires n <= MAX_BODY_LEN
    ensures |b| == 3
  {
    [n / 0x1_0000, n / 0x100 % 0x100, n % 0x100]
  }

  function U24(b: seq<byte>): (n: nat)
    requires |b| == 3
    ensures n <= MAX_BODY_LEN
  {
    var hi: int := b[0];
    var mid: int := b[1];
    hi * 0x1_0000 + mid * 0x100 + b[2]
  }

  /** What goes behind the header: the factor and the body. */
  function Packed<V>(l: Libs<V>, raw: seq<byte>): Option<(byte, seq<byte>)> {
    if |raw| <= COMPRESS_THRESHOLD then Some((0, raw))
    else match l.compress(raw)
      case None => None
      case Some(z) => if 0 < |z| < |raw| then Some((Cof(|raw|, |z|), z)) else Some((0, raw))
  }

  /**
   Behind the header stands the shorter of the payload and its compressed form, which is tried exactly beyond
   32 bytes; the factor is zero exactly if it is the payload.
   */
  lemma PackedIsShorter<V>(l: Libs<V>, raw: seq<byte>)
    ensures Packed(l, raw).None? <==> |raw| > 32 && l.compress(raw).None?
    ensures Packed(l, raw).Some? ==>
              var (cof, body) := Packed(l, raw).value;
              var tried := |raw| > 32 && 0 < |l.compress(raw).value| < |raw|;
              && body == (if tried then l.compress(raw).value else raw)
              && (cof == 0 <==> !tried)
  {
  }

  function HeaderBytes<V>(f: Frame<V>, cof: byte, len: nat): (b: seq<byte>)
    requires len <= MAX_BODY_LEN
    ensures |b| == HEADER_LEN
  {
    [VERSION, f.cmd] + Be16(ToU16(f.seqNo)) + Be16(ToU16(f.opcode)) + [cof] + Be24(len)
  }

  function EncodeSpec<V>(l: Libs<V>, f: Frame<V>): Result<(seq<byte>, Meta), Error> {
    match l.marshal(f.payload)
    case None => Err(MarshalFailed)
    case Some(raw) =>
      match Packed(l, raw)
      case None => Err(CompressFailed)
      case Some((cof, body)) =>
        if |body| > MAX_BODY_LEN then Err(BodyTooLarge)
        else Ok((HeaderBytes(f, cof, |body|) + body,
                 Meta(VERSION, f.cmd, f.seqNo, f.opcode, cof, |body|, |raw|)))
  }

  method PutHeader<V>(out: array<byte>, f: Frame<V>, cof: byte, len: nat)
    requires out.Length == HEADER_LEN + len && len <= MAX_BODY_LEN
    modifies out
    ensures out[..HEADER_LEN] == HeaderBytes(f, cof, len)
  {
    out[0] := VERSION;
    out[1] := f.cmd;
    var s, o := Be16(ToU16(f.seqNo)), Be16(ToU16(f.opcode));
    out[2], out[3] := s[0], s[1];
    out[4], out[5] := o[0], o[1];
    out[6] := cof;
    out[7] := len / 0x1_0000;
    out[8] := len / 0x100 % 0x100;
    out[9] := len % 0x100;
  }

  /** Compression, where it is tried and pays. */
  method Pack<V>(l: Libs<V>, raw: seq<byte>) returns (r: Option<(byte, seq<byte>)>)
    ensures r == Packed(l, raw)
  {
    var body, cof: byte := raw, 0;
    if |body| > COMPRESS_THRESHOLD {
      var z := l.compress(body);
      if z.None? { return None; }
      var n := |z.value|;
      if n > 0 && n < |body| {
        var ratio := Cof(|raw|, n);
        if ratio > 0 {
          cof := ratio;
          body := z.value;
        }
      }
    }
    return Some((cof, body));
  }

  method Framed<V>(f: Frame<V>, cof: byte, body: seq<byte>) returns (b: seq<byte>)
    requires |body| <= MAX_BODY_LEN
    ensures b == HeaderBytes(f, cof, |body|) + body
  {
    hide HeaderBytes;
    var out := new byte[HEADER_LEN + |body|];
    PutHeader(out, f, cof, |body|);
    forall i | 0 <= i < |body| { out[HEADER_LEN + i] := body[i]; }
    assert out[..HEADER_LEN] == HeaderBytes(f, cof, |body|);
    return out[..];
  }

  method Encode<V>(l: Libs<V>, f: Frame<V>) returns (r: Result<(seq<byte>, Meta), Error>)
    ensures r == EncodeSpec(l, f)
  {
    hide Packed, HeaderBytes;
    var marshalled := l.marshal(f.payload);
    if marshalled.None? { return Err(MarshalFailed); }
    var packed := Pack(l, marshalled.value);
    if packed.None? { return Err(CompressFailed); }
    var (cof, body) := packed.value;
    if |body| > MAX_BODY_LEN { return Err(BodyTooLarge); }
    var out := Framed(f, cof, body);
    return Ok((out, Meta(VERSION, f.cmd, f.seqNo, f.opcode, cof, |body|, |marshalled.value|)));
  }

  // ----- decoding -----

  /** Decoding gives the payload, None for an empty body, and the meta data. */
  datatype Decoded<V> = Decoded(payload: Option<V>, meta: Meta)

  method Decode<V>(l: Libs<V>, raw: seq<byte>) returns (r: Result<Decoded<V>, Error>)
    ensures r == DecodeSpec(l, raw)
  {
    hide U24, U16, ToI16, DecodeBody;
    if |raw| < HEADER_LEN { return Err(ShortHeader); }
    var m := Meta(raw[0], raw[1], ToI16(U16(raw[2..4])), ToI16(U16(raw[4..6])), raw[6], 0, 0);
    var length := U24(raw[7..10]);
    if HEADER_LEN + length > |raw| { return Err(TruncatedBody); }
    m := m.(bodyLen := length);
    var body := raw[HEADER_LEN..HEADER_LEN + length];
    if m.version != VERSION { return Err(BadVersion); }
    if m.cof > 0 {
      var size := length * m.cof;
      if size > MAX_RAW_LEN { return Err(RawTooLarge); }
      var dst := l.uncompress(body, size);
      if dst.None? { return Err(BadLz4); }
      body := dst.value;
    }
    m := m.(rawLen := |body|);
    r := Unmarshalled(l, body, m);
  }

  /** The unpacked body as a payload. */
  method Unmarshalled<V>(l: Libs<V>, body: seq<byte>, m: Meta) returns (r: Result<Decoded<V>, Error>)
    ensures r == DecodeBody(l, body, m)
  {
    hide Msgpack.WellFormed;
    var payload: Option<V> := None;
    if |body| > 0 {
      var valid := Msgpack.Validate(body);
      if !valid { return Err(BadMsgpack); }
      payload := l.unmarshal(body);
      if payload.None? { return Err(UnmarshalFailed); }
    }
    return Ok(Decoded(payload, m));
  }

  ghost function DecodeBody<V>(l: Libs<V>, body: seq<byte>, m: Meta): Result<Decoded<V>, Error> {
    if body == [] then Ok(Decoded(None, m))
    else if !Msgpack.WellFormed(body) then Err(BadMsgpack)
    else if l.unmarshal(body).None? then Err(UnmarshalFailed)
    else Ok(Decoded(l.unmarshal(body), m))
  }

  ghost function DecodeSpec<V>(l: Libs<V>, raw: seq<byte>): Result<Decoded<V>, Error> {
    if |raw| < HEADER_LEN then Err(ShortHeader)
    else
      var length := U24(raw[7..10]);
      if HEADER_LEN + length > |raw| then Err(TruncatedBody)
      else if raw[0] != VERSION then Err(BadVersion)
      else
        var body := raw[HEADER_LEN..HEADER_LEN + length];
        var m := Meta(raw[0], raw[1], ToI16(U16(raw[2..4])), ToI16(U16(raw[4..6])), raw[6], length, |body|);
        if m.cof == 0 then DecodeBody(l, body, m)
        else if length * m.cof > MAX_RAW_LEN then Err(RawTooLarge)
        else
          var dst := l.uncompress(body, length * m.cof);
          if dst.None? then Err(BadLz4)
          else DecodeBody(l, dst.value, m.(rawLen := |dst.value|))
  }

  lemma SignedRoundTrip(x: i16)
    ensures ToI16(U16(Be16(ToU16(x)))) == x
  {
    U16OfBe16(ToU16(x));
  }

  lemma HeaderRoundTrip<V>(f: Frame<V>, cof: byte, len: nat, more: seq<byte>)
    requires len <= MAX_BODY_LEN
    ensures var raw := HeaderBytes(f, cof, len) + more;
            && raw[0] == VERSION && raw[1] == f.cmd && raw[6] == cof
            && ToI16(U16(raw[2..4])) == f.seqNo && ToI16(U16(raw[4..6])) == f.opcode
            && U24(raw[7..10]) == len
  {
    var raw := HeaderBytes(f, cof, len) + more;
    assert raw[2..4] == Be16(ToU16(f.seqNo)) && raw[4..6] == Be16(ToU16(f.opcode)) && raw[7..10] == Be24(len);
    SignedRoundTrip(f.seqNo);
    SignedRoundTrip(f.opcode);
  }

  /** Behind the header, decoding depends on the factor and the body alone. */
  lemma DecodeFrame<V>(l: Libs<V>, f: Frame<V>, cof: byte, body: seq<byte>, more: seq<byte>)
    requires |body| <= MAX_BODY_LEN
    ensures var m := Meta(VERSION, f.cmd, f.seqNo, f.opcode, cof, |body|, |body|);
            DecodeSpec(l, HeaderBytes(f, cof, |body|) + body + more)
              == if cof == 0 then DecodeBody(l, body, m)
                 else if |body| * cof > MAX_RAW_LEN then Err(RawTooLarge)
                 else if l.uncompress(body, |body| * cof).None? then Err(BadLz4)
                 else var dst := l.uncompress(body, |body| * cof).value;
                      DecodeBody(l, dst, m.(rawLen := |dst|))
  {
    var raw := HeaderBytes(f, cof, |body|) + body + more;
    assert raw == HeaderBytes(f, cof, |body|) + (body + more);
    HeaderRoundTrip(f, cof, |body|, body + more);
    hide HeaderBytes, DecodeBody, U24, U16, ToI16;
    assert raw[HEADER_LEN..HEADER_LEN + |body|] == body;
  }

  /** What the packing does to the data, under the law of the compressor. */
  lemma PackedUnpacks<V>(l: Libs<V>, raw: seq<byte>)
    requires Lz4Law(l) && Packed(l, raw).Some?
    ensures var (cof, body) := Packed(l, raw).value;
            if cof == 0 then body == raw
            else |raw| <= |body| * cof < |raw| + |body| && l.uncompress(body, |body| * cof) == Some(raw)
  {
    var (cof, body) := Packed(l, raw).value;
    var z := l.compress(raw);
    if |raw| > COMPRESS_THRESHOLD && 0 < |z.value| < |raw| {
      assert l.uncompress(z.value, |raw|) == Some(raw);
      CofBoundsBuffer(|raw|, |z.value|);
      assert l.uncompress(z.value, |z.value| * cof) == Some(raw);
    }
  }

  /**
   Whatever was encoded decodes to the same payload and meta data, trailing bytes or not, exactly
   when the buffer the factor asks for stays within 128 MiB; and it does whenever the data and
   its compressed form together do.
   */
  lemma DecodeUndoesEncode<V(!new)>(l: Libs<V>, f: Frame<V>, more: seq<byte>)
    requires MsgpackLaw(l) && Lz4Law(l) && EncodeSpec(l, f).Ok?
    ensures var (bytes, meta) := EncodeSpec(l, f).value;
            && (DecodeSpec(l, bytes + more) == if meta.bodyLen * meta.cof <= MAX_RAW_LEN
                                               then Ok(Decoded(Some(f.payload), meta)) else Err(RawTooLarge))
            && (meta.cof > 0 ==> meta.rawLen <= meta.bodyLen * meta.cof < meta.rawLen + meta.bodyLen)
  {
    var raw := l.marshal(f.payload).value;
    var (cof, body) := Packed(l, raw).value;
    NonEmpty(raw);
    DecodeFrame(l, f, cof, body, more);
    PackedUnpacks(l, raw);
    hide DecodeSpec, HeaderBytes, Packed;
  }

  lemma NonEmpty(b: seq<byte>)
    requires Msgpack.WellFormed(b)
    ensures b != []
  {
  }
}
