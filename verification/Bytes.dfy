/**
 Bytes, big-endian integers, exclusive or, and the result types the other modules share.
 A byte is an integer below 256, so every width and every wrap-around is written out.
 */
module Bytes {

  type byte = x: int | 0 <= x < 256

  const TWO16 := 0x1_0000
  const TWO32 := 0x1_0000_0000
  const TWO64 := 0x1_0000_0000_0000_0000

  type u16 = x: int | 0 <= x < 0x1_0000
  type u32 = x: int | 0 <= x < 0x1_0000_0000
  type u64 = x: int | 0 <= x < 0x1_0000_0000_0000_0000

  datatype Option<+T> = None | Some(value: T)

  datatype Result<+T, +E> = Ok(value: T) | Err(error: E) {
    predicate IsFailure() { Err? }
    function PropagateFailure<U>(): Result<U, E> requires Err? { Err(error) }
    function Extract(): T requires Ok? { value }
  }

  function Min(a: int, b: int): int { if a < b then a else b }

  lemma Associative<T>(a: seq<T>, b: seq<T>, c: seq<T>)
    ensures a + b + c == a + (b + c)
  {
  }

  lemma CutAfterFirst<T>(b: seq<T>, i: nat, k: nat, j: nat)
    requires i < k <= j <= |b|
    ensures b[i..j] == [b[i]] + b[i + 1..k] + b[k..j]
  {
  }

  lemma FieldAfterFirst<T>(b: seq<T>, i: nat, c: T, field: seq<T>, more: seq<T>)
    requires i <= |b| && b[i..] == [c] + field + more
    ensures i + 1 + |field| <= |b| && b[i] == c && b[i + 1..i + 1 + |field|] == field
  {
    var s := b[i..];
    assert s[0] == c && b[i] == s[0];
    forall k | 0 <= k < |field| ensures b[i + 1 + k] == field[k] {
      assert s[1 + k] == field[k];
    }
  }

  predicate At(s: seq<byte>, k: nat, c: char) { k < |s| && s[k] == c as int }

  /** Space, tab and the two line ends. */
  predicate IsBlank(c: byte) { c == ' ' as int || c == '\t' as int || c == '\n' as int || c == '\r' as int }

  predicate NotNewline(c: byte) { c != '\n' as int }

  /** How many bytes at the front satisfy p. */
  function SpanLen(s: seq<byte>, p: byte -> bool): (n: nat)
    ensures n <= |s| && (forall k | 0 <= k < n :: p(s[k])) && (n < |s| ==> !p(s[n]))
  {
    if s == [] || !p(s[0]) then 0 else 1 + SpanLen(s[1..], p)
  }

  /** The end of the run of bytes that satisfy p. */
  method Span(src: seq<byte>, start: nat, p: byte -> bool) returns (end: nat)
    requires start <= |src|
    ensures end == start + SpanLen(src[start..], p)
  {
    end := start;
    while end < |src| && p(src[end])
      invariant start <= end <= |src| && start + SpanLen(src[start..], p) == end + SpanLen(src[end..], p)
    {
      assert src[end..][1..] == src[end + 1..];
      end := end + 1;
    }
  }

  // ----- big-endian integers -----

  function Be16(x: u16): (b: seq<byte>)
    ensures |b| == 2
  {
    [x / 256, x % 256]
  }

  function Be32(x: u32): (b: seq<byte>)
    ensures |b| == 4
  {
    Be16(x / TWO16) + Be16(x % TWO16)
  }

  function Be64(x: u64): (b: seq<byte>)
    ensures |b| == 8
  {
    Be32(x / TWO32) + Be32(x % TWO32)
  }

  function U16(b: seq<byte>): u16
    requires |b| == 2
  {
    var hi: int := b[0];
    hi * 256 + b[1]
  }

  function U32(b: seq<byte>): u32
    requires |b| == 4
  {
    var hi: int := U16(b[..2]);
    hi * TWO16 + U16(b[2..])
  }

  function U64(b: seq<byte>): u64
    requires |b| == 8
  {
    var hi: int := U32(b[..4]);
    hi * TWO32 + U32(b[4..])
  }

  lemma U16OfBe16(x: u16)
    ensures U16(Be16(x)) == x
  {
  }

  lemma U32OfBe32(x: u32)
    ensures U32(Be32(x)) == x
  {
    assert Be32(x)[..2] == Be16(x / TWO16) && Be32(x)[2..] == Be16(x % TWO16);
  }

  lemma U64OfBe64(x: u64)
    ensures U64(Be64(x)) == x
  {
    assert Be64(x)[..4] == Be32(x / TWO32) && Be64(x)[4..] == Be32(x % TWO32);
    U32OfBe32(x / TWO32);
    U32OfBe32(x % TWO32);
  }

  lemma Be16OfU16(b: seq<byte>)
    requires |b| == 2
    ensures Be16(U16(b)) == b
  {
  }

  lemma Be32OfU32(b: seq<byte>)
    requires |b| == 4
    ensures Be32(U32(b)) == b
  {
    var hi, lo := U16(b[..2]), U16(b[2..]);
    assert U32(b) / TWO16 == hi && U32(b) % TWO16 == lo;
    Be16OfU16(b[..2]);
    Be16OfU16(b[2..]);
    assert b == b[..2] + b[2..];
  }

  // ----- exclusive or -----

  function Pow2(n: nat): (r: nat)
    ensures r > 0
  {
    if n == 0 then 1 else 2 * Pow2(n - 1)
  }

  /** Exclusive or of the low `bits` bits, written on the bits themselves. */
  function XorBits(a: nat, b: nat, bits: nat): nat
    decreases bits
  {
    if bits == 0 then 0
    else (a + b) % 2 + 2 * XorBits(a / 2, b / 2, bits - 1)
  }

  lemma {:induction false} XorBitsBound(a: nat, b: nat, bits: nat)
    ensures XorBits(a, b, bits) < Pow2(bits)
    decreases bits
  {
    if bits > 0 {
      XorBitsBound(a / 2, b / 2, bits - 1);
    }
  }

  function Xor(a: byte, b: byte): byte {
    assert Pow2(8) == 256;
    XorBitsBound(a, b, 8);
    XorBits(a, b, 8)
  }

  lemma BitOfSum(a: nat, b: nat, x: nat)
    ensures var y := (a + b) % 2 + 2 * x; y / 2 == x && (y + b) % 2 == a % 2
  {
  }

  lemma {:induction false} XorBitsTwice(a: nat, b: nat, bits: nat)
    requires a < Pow2(bits)
    ensures XorBits(XorBits(a, b, bits), b, bits) == a
    decreases bits
  {
    if bits > 0 {
      var x := XorBits(a / 2, b / 2, bits - 1);
      XorBitsTwice(a / 2, b / 2, bits - 1);
      BitOfSum(a, b, x);
      var y := XorBits(a, b, bits);
      hide Pow2;
      assert XorBits(y, b, bits) == (y + b) % 2 + 2 * XorBits(y / 2, b / 2, bits - 1);
    }
  }

  lemma XorTwice(a: byte, b: byte)
    ensures Xor(Xor(a, b), b) == a
  {
    assert Pow2(8) == 256;
    XorBitsTwice(a, b, 8);
  }
}
