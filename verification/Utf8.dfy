/** UTF-8 as section 4 of RFC 3629 defines it, with the error convention of Go's decoder. */
module Utf8 {
  import opened Bytes

  const RUNE_ERROR := 0xFFFD

  predicate Scalar(r: nat) { r <= 0x10FFFF && !(0xD800 <= r <= 0xDFFF) }

  function Encode(r: nat): (b: seq<byte>)
    requires Scalar(r)
    ensures 1 <= |b| <= 4
  {
    if r < 0x80 then [r]
    else if r < 0x800 then [0xC0 + r / 64, 0x80 + r % 64]
    else if r < 0x10000 then [0xE0 + r / 4096, 0x80 + r / 64 % 64, 0x80 + r % 64]
    else [0xF0 + r / 262144, 0x80 + r / 4096 % 64, 0x80 + r / 64 % 64, 0x80 + r % 64]
  }

  predicate Tail(b: byte) { 0x80 <= b <= 0xBF }

  /** How many bytes the lead announces; 0 if it leads nothing. */
  function Width(lead: byte): nat {
    if lead < 0x80 then 1
    else if 0xC2 <= lead <= 0xDF then 2
    else if 0xE0 <= lead <= 0xEF then 3
    else if 0xF0 <= lead <= 0xF4 then 4
    else 0
  }

  /** The second byte's range: no overlong forms, no surrogates, nothing beyond U+10FFFF. */
  predicate Second(lead: byte, b: byte) {
    if lead == 0xE0 then 0xA0 <= b <= 0xBF
    else if lead == 0xED then 0x80 <= b <= 0x9F
    else if lead == 0xF0 then 0x90 <= b <= 0xBF
    else if lead == 0xF4 then 0x80 <= b <= 0x8F
    else Tail(b)
  }

  predicate WellFormed(b: seq<byte>)
    requires b != []
  {
    var w := Width(b[0]);
    && 0 < w <= |b|
    && (w >= 2 ==> Second(b[0], b[1]))
    && (w >= 3 ==> Tail(b[2]))
    && (w == 4 ==> Tail(b[3]))
  }

  function Value(b: seq<byte>): nat
    requires b != [] && WellFormed(b)
  {
    var b0: int := b[0];
    if b0 < 0x80 then b0
    else if b0 < 0xE0 then (b0 - 0xC0) * 64 + (b[1] - 0x80)
    else if b0 < 0xF0 then (b0 - 0xE0) * 4096 + (b[1] as int - 0x80) * 64 + (b[2] - 0x80)
    else (b0 - 0xF0) * 262144 + (b[1] as int - 0x80) * 4096 + (b[2] as int - 0x80) * 64 + (b[3] - 0x80)
  }

  /** The first rune and its size; a malformed start is the error rune of size one. */
  function Decode(b: seq<byte>): (r: (nat, nat))
    requires b != []
    ensures 1 <= r.1 <= |b|
  {
    if WellFormed(b) then (Value(b), Width(b[0])) else (RUNE_ERROR, 1)
  }

  predicate IsError(r: nat, size: nat) { r == RUNE_ERROR && size <= 1 }

  /** Is the whole string well formed? */
  predicate Valid(b: seq<byte>)
    decreases |b|
  {
    b != [] ==> var (r, n) := Decode(b); !IsError(r, n) && Valid(b[n..])
  }

  lemma Bits(hi: nat, lo: nat)
    requires lo < 64
    ensures (hi * 64 + lo) / 64 == hi && (hi * 64 + lo) % 64 == lo
  {
  }

  lemma Decode2(b0: nat, b1: nat, r: nat)
    requires 0xC2 <= b0 <= 0xDF && 0x80 <= b1 <= 0xBF && r == (b0 - 0xC0) * 64 + (b1 - 0x80)
    ensures 0x80 <= r < 0x800 && 0xC0 + r / 64 == b0 && 0x80 + r % 64 == b1
  {
    Bits(b0 - 0xC0, b1 - 0x80);
  }

  lemma Decode3(b0: nat, b1: nat, b2: nat, r: nat)
    requires 0xE0 <= b0 <= 0xEF && 0x80 <= b1 <= 0xBF && 0x80 <= b2 <= 0xBF
    requires (b0 == 0xE0 ==> b1 >= 0xA0) && (b0 == 0xED ==> b1 <= 0x9F)
    requires r == (b0 - 0xE0) * 4096 + (b1 - 0x80) * 64 + (b2 - 0x80)
    ensures 0x800 <= r < 0x10000 && !(0xD800 <= r <= 0xDFFF)
    ensures 0xE0 + r / 4096 == b0 && 0x80 + r / 64 % 64 == b1 && 0x80 + r % 64 == b2
  {
    var q := (b0 - 0xE0) * 64 + (b1 - 0x80);
    Bits(q, b2 - 0x80);
    Bits(b0 - 0xE0, b1 - 0x80);
    assert r / 4096 == q / 64;
  }

  lemma Decode4(b0: nat, b1: nat, b2: nat, b3: nat, r: nat)
    requires 0xF0 <= b0 <= 0xF4 && 0x80 <= b1 <= 0xBF && 0x80 <= b2 <= 0xBF && 0x80 <= b3 <= 0xBF
    requires (b0 == 0xF0 ==> b1 >= 0x90) && (b0 == 0xF4 ==> b1 <= 0x8F)
    requires r == (b0 - 0xF0) * 262144 + (b1 - 0x80) * 4096 + (b2 - 0x80) * 64 + (b3 - 0x80)
    ensures 0x10000 <= r <= 0x10FFFF
    ensures 0xF0 + r / 262144 == b0 && 0x80 + r / 4096 % 64 == b1
    ensures 0x80 + r / 64 % 64 == b2 && 0x80 + r % 64 == b3
  {
    var p := (b0 - 0xF0) * 64 + (b1 - 0x80);
    var q := p * 64 + (b2 - 0x80);
    Bits(q, b3 - 0x80);
    Bits(p, b2 - 0x80);
    Bits(b0 - 0xF0, b1 - 0x80);
    assert r / 4096 == p && r / 262144 == p / 64;
  }

  /** A well-formed start decodes to a scalar value whose encoding it is. */
  lemma EncodeUndoesDecode(b: seq<byte>)
    requires b != [] && WellFormed(b)
    ensures var (r, n) := Decode(b); Scalar(r) && Encode(r) == b[..n] && !IsError(r, n)
  {
    var w := Width(b[0]);
    if w == 2 {
      Decode2(b[0], b[1], Value(b));
    } else if w == 3 {
      Decode3(b[0], b[1], b[2], Value(b));
    } else if w == 4 {
      Decode4(b[0], b[1], b[2], b[3], Value(b));
    }
  }

  /** An encoded scalar value in front of anything decodes to itself. */
  lemma DecodeUndoesEncode(r: nat, rest: seq<byte>)
    requires Scalar(r)
    ensures Decode(Encode(r) + rest) == (r, |Encode(r)|)
  {
    var e := Encode(r);
    var b := e + rest;
    assert forall k | 0 <= k < |e| :: b[k] == e[k];
    EncodeFits(r);
    hide Encode;
  }

  lemma Digits3(r: nat)
    requires 0x800 <= r < 0x10000
    ensures r == r / 4096 * 4096 + r / 64 % 64 * 64 + r % 64
  {
    assert r / 64 / 64 == r / 4096;
  }

  lemma Digits4(r: nat)
    requires 0x10000 <= r <= 0x10FFFF
    ensures r == r / 262144 * 262144 + r / 4096 % 64 * 4096 + r / 64 % 64 * 64 + r % 64
  {
    assert r / 64 / 64 == r / 4096 && r / 4096 / 64 == r / 262144;
  }

  lemma EncodeFits3(r: nat)
    requires 0x800 <= r < 0x10000 && Scalar(r)
    ensures var e := Encode(r); WellFormed(e) && Value(e) == r && Width(e[0]) == |e|
  {
    Digits3(r);
  }

  lemma EncodeFits4(r: nat)
    requires 0x10000 <= r && Scalar(r)
    ensures var e := Encode(r); WellFormed(e) && Value(e) == r && Width(e[0]) == |e|
  {
    Digits4(r);
  }

  lemma EncodeFits(r: nat)
    requires Scalar(r)
    ensures var e := Encode(r); WellFormed(e) && Value(e) == r && Width(e[0]) == |e|
  {
    if 0x800 <= r < 0x10000 {
      hide Encode, WellFormed, Value, Width;
      EncodeFits3(r);
    } else if r >= 0x10000 {
      hide Encode, WellFormed, Value, Width;
      EncodeFits4(r);
    }
  }
}
