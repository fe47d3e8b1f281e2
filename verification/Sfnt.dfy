/** The SFNT container of an OpenType font: parsing, and writing with offsets and checksums. */
module Sfnt {
  import opened Bytes
  import opened Buffers

  const TAG_CMAP: u32 := 0x636d6170
  const TAG_HEAD: u32 := 0x68656164
  const MAGIC: u32 := 0xB1B0AFBA

  type Table = s: seq<byte> | |s| < 0x1_0000_0000 witness []

  datatype Font = Font(version: u32, tables: map<u32, Table>)

  datatype Error = HeaderTruncated | UnsupportedVersion | DirectoryTruncated | TableOutOfBounds

  predicate SupportedVersion(v: u32) {
    v == 0x0001_0000 || v == 0x4F54_544F || v == 0x7472_7565
  }

  function Word(b: seq<byte>, at: nat): u32
    requires at + 4 <= |b|
  {
    U32(b[at..at + 4])
  }

  function Half(b: seq<byte>, at: nat): u16
    requires at + 2 <= |b|
  {
    U16(b[at..at + 2])
  }

  // ----- parsing -----

  /** Directory entries i to n; a later entry with the same tag replaces an earlier one. */
  function ParseEntries(b: seq<byte>, i: nat, n: nat, found: map<u32, Table>): Result<map<u32, Table>, Error>
    requires i <= n && 12 + 16 * n <= |b|
    decreases n - i
  {
    if i == n then Ok(found)
    else
      var at := 12 + 16 * i;
      var tag, off, len := Word(b, at), Word(b, at + 8), Word(b, at + 12);
      if off + len > |b| then Err(TableOutOfBounds)
      else ParseEntries(b, i + 1, n, found[tag := b[off..off + len]])
  }

  function ParseSpec(b: seq<byte>): Result<Font, Error> {
    if |b| < 12 then Err(HeaderTruncated)
    else if !SupportedVersion(Word(b, 0)) then Err(UnsupportedVersion)
    else
      var n := Half(b, 4);
      if |b| < 12 + 16 * n then Err(DirectoryTruncated)
      else
        var t := ParseEntries(b, 0, n, map[]);
        if t.Err? then Err(t.error) else Ok(Font(Word(b, 0), t.value))
  }

  method Parse(b: seq<byte>) returns (r: Result<Font, Error>)
    ensures r == ParseSpec(b)
  {
    hide Word, Half, SupportedVersion;
    if |b| < 12 { return Err(HeaderTruncated); }
    var version := Word(b, 0);
    if !SupportedVersion(version) { return Err(UnsupportedVersion); }
    var n: nat := Half(b, 4);
    if |b| < 12 + n * 16 { return Err(DirectoryTruncated); }
    var tables: map<u32, Table> := map[];
    for i := 0 to n
      invariant ParseEntries(b, 0, n, map[]) == ParseEntries(b, i, n, tables)
    {
      var at := 12 + i * 16;
      var tag, off, len := Word(b, at), Word(b, at + 8), Word(b, at + 12);
      if off + len > |b| { return Err(TableOutOfBounds); }
      tables := tables[tag := b[off..off + len]];
    }
    return Ok(Font(version, tables));
  }

  // ----- checksums -----

  /** The sum of the big-endian words, the last one filled up with zeros, modulo 2^32. */
  function Checksum(b: seq<byte>): u32
    decreases |b|
  {
    if b == [] then 0
    else if |b| < 4 then U32(b + Zeros(4 - |b|))
    else (U32(b[..4]) + Checksum(b[4..])) % TWO32
  }

  lemma {:induction false} ChecksumAppend(a: seq<byte>, b: seq<byte>)
    requires |a| % 4 == 0
    ensures Checksum(a + b) == (Checksum(a) + Checksum(b)) % TWO32
    decreases |a|
  {
    hide U32, Checksum;
    if a == [] {
      ChecksumOfTail(a);
      assert a + b == b;
    } else {
      assert (a + b)[..4] == a[..4] && (a + b)[4..] == a[4..] + b;
      ChecksumFirst(a);
      ChecksumFirst(a + b);
      ChecksumAppend(a[4..], b);
      ModAdd(U32(a[..4]), Checksum(a[4..]), Checksum(b));
    }
  }

  lemma ChecksumFirst(b: seq<byte>)
    requires |b| >= 4
    ensures Checksum(b) == (U32(b[..4]) + Checksum(b[4..])) % TWO32
  {
  }

  lemma ModAdd(x: nat, y: nat, z: nat)
    ensures (x + (y + z) % TWO32) % TWO32 == ((x + y) % TWO32 + z) % TWO32
  {
  }

  method TableChecksum(b: seq<byte>) returns (sum: u32)
    ensures sum == Checksum(b)
  {
    hide U32, Checksum;
    sum := 0;
    var full := |b| / 4;
    ChecksumOfTail(b[..0]);
    for i := 0 to full
      invariant sum == Checksum(b[..4 * i])
    {
      var w := b[4 * i..4 * i + 4];
      ChecksumNext(b, i);
      sum := (sum + U32(w)) % TWO32;
    }
    var rem := |b| - full * 4;
    assert b == b[..4 * full] + b[4 * full..];
    ChecksumAppend(b[..4 * full], b[4 * full..]);
    ChecksumOfTail(b[4 * full..]);
    if rem > 0 {
      sum := (sum + U32(b[4 * full..] + Zeros(4 - rem))) % TWO32;
    }
  }

  lemma ChecksumNext(b: seq<byte>, i: nat)
    requires 4 * i + 4 <= |b|
    ensures Checksum(b[..4 * (i + 1)]) == (Checksum(b[..4 * i]) + U32(b[4 * i..4 * i + 4])) % TWO32
  {
    hide U32, Checksum;
    var w := b[4 * i..4 * i + 4];
    assert b[..4 * (i + 1)] == b[..4 * i] + w;
    ChecksumAppend(b[..4 * i], w);
    ChecksumOfWord(w);
  }

  lemma ChecksumOfTail(t: seq<byte>)
    requires |t| < 4
    ensures Checksum(t) == if t == [] then 0 else U32(t + Zeros(4 - |t|))
  {
  }

  lemma ChecksumOfWord(w: seq<byte>)
    requires |w| == 4
    ensures Checksum(w) == U32(w)
  {
    assert w[..4] == w && w[4..] == [];
  }

  /** What a sum lacks to a goal, modulo 2^32. */
  function Lack(goal: u32, sum: u32): u32 { (goal - sum) % TWO32 }

  /** One aligned word of a file can be chosen to bring the file to any checksum. */
  lemma ChecksumAdjusts(a: seq<byte>, c: seq<byte>, goal: u32)
    requires |a| % 4 == 0
    ensures Checksum(a + Be32(Lack(goal, Checksum(a + Be32(0) + c))) + c) == goal
  {
    hide Checksum, U32, Be32, Lack;
    ChecksumWithWord(a, Be32(0), c);
    var x := Lack(goal, Checksum(a + Be32(0) + c));
    ChecksumWithWord(a, Be32(x), c);
    U32OfBe32(x);
    U32OfBe32(0);
    ModGoal(goal, Checksum(a), Checksum(c));
  }

  lemma ModGoal(goal: u32, a: nat, c: nat)
    ensures (a + Lack(goal, (a + c) % TWO32) + c) % TWO32 == goal
  {
  }

  lemma ChecksumWithWord(a: seq<byte>, w: seq<byte>, c: seq<byte>)
    requires |a| % 4 == 0 && |w| == 4
    ensures Checksum(a + w + c) == (Checksum(a) + U32(w) + Checksum(c)) % TWO32
  {
    hide U32, Checksum;
    ChecksumAppend(a + w, c);
    ChecksumAppend(a, w);
    ChecksumOfWord(w);
    ModSum(Checksum(a), U32(w), Checksum(c));
  }

  lemma ModSum(x: nat, y: nat, z: nat)
    ensures ((x + y) % TWO32 + z) % TWO32 == (x + y + z) % TWO32
  {
  }

  // ----- the binary-search fields of the header -----

  function Log2(n: nat): nat {
    if n < 2 then 0 else 1 + Log2(n / 2)
  }

  lemma {:induction false} Log2Bounds(n: nat)
    requires n > 0
    ensures Pow2(Log2(n)) <= n < 2 * Pow2(Log2(n))
  {
    if n >= 2 {
      Log2Bounds(n / 2);
    }
  }

  lemma {:induction false} Log2Unique(n: nat, e: nat)
    requires Pow2(e) <= n < 2 * Pow2(e)
    ensures e == Log2(n)
  {
    if e > 0 {
      Log2Unique(n / 2, e - 1);
    }
  }

  function SearchRange(n: nat): u16 { if n == 0 then 0 else 16 * Pow2(Log2(n)) % TWO16 }

  function RangeShift(n: nat): u16 { if n == 0 then 0 else (16 * n - SearchRange(n)) % TWO16 }

  /** Sixteen-bit arithmetic: from 32768 tables on, the source's doubling wraps to zero and never ends. */
  method DirSearchParams(n: u16) returns (searchRange: u16, entrySelector: u16, rangeShift: u16)
    requires n < 0x8000
    ensures searchRange == SearchRange(n) && rangeShift == RangeShift(n)
    ensures entrySelector == Log2(n)
  {
    if n == 0 { return 0, 0, 0; }
    var pow, es: u16 := 1, 0;
    while pow * 2 <= n
      invariant pow == Pow2(es) <= n && es < pow
      decreases n - pow
    {
      pow := pow * 2;
      es := es + 1;
    }
    Log2Unique(n, es);
    searchRange := pow * 16 % TWO16;
    entrySelector := es;
    rangeShift := (n * 16 - searchRange) % TWO16;
  }

  /** The fields hold the values OpenType asks for exactly below 4096 tables. */
  lemma SearchFieldsExact(n: u16)
    requires n > 0
    ensures var range := 16 * Pow2(Log2(n));
            (SearchRange(n) == range && RangeShift(n) == 16 * n - range) <==> n < 0x1000
  {
    Log2Bounds(n);
    if n < 0x1000 {
      assert SearchRange(n) <= 16 * n;
    } else {
      PowGrows(Log2(n), n);
    }
  }

  lemma {:induction false} PowGrows(e: nat, n: nat)
    requires Pow2(e) <= n < 2 * Pow2(e) && n >= 0x1000
    ensures Pow2(e) >= 0x1000
  {
    Pow2Twelve();
    if e < 12 {
      Pow2Mono(e + 1, 12);
    } else {
      Pow2Mono(12, e);
    }
  }

  lemma Pow2Twelve()
    ensures Pow2(12) == 0x1000
  {
    assert Pow2(6) == 64;
  }

  lemma {:induction false} Pow2Mono(a: nat, b: nat)
    requires a <= b
    ensures Pow2(a) <= Pow2(b)
  {
    if a < b {
      Pow2Mono(a, b - 1);
    }
  }
}
