/** What a subtable says about one code point: the last group or segment that speaks about it decides. */
module CmapLookup {
  import opened Bytes
  import opened Sfnt
  import opened Cmap

  function Lookup(m: Mapping, c: Rune): Option<u32> { if c in m then Some(m[c]) else None }

  /** The glyph a mapping gives a code point, 0 for none. */
  function GlyphOf(m: Mapping, c: Rune): u32 { if c in m then m[c] else 0 }

  // ----- format 12 -----

  predicate Covers12(sub: seq<byte>, i: nat, c: Rune)
    requires 16 + 12 * i + 12 <= |sub|
  {
    Word(sub, 16 + 12 * i) <= c <= Word(sub, 16 + 12 * i + 4)
  }

  /** The last of the groups from i on that covers the code point. */
  function Last12(sub: seq<byte>, n: nat, i: nat, c: Rune): (j: Option<nat>)
    requires i <= n && 16 + 12 * n <= |sub|
    ensures j.Some? ==> i <= j.value < n && Covers12(sub, j.value, c) && forall k | j.value < k < n :: !Covers12(sub, k, c)
    ensures j.None? ==> forall k | i <= k < n :: !Covers12(sub, k, c)
    decreases n - i
  {
    if i == n then None
    else
      var j := Last12(sub, n, i + 1, c);
      if j.Some? then j else if Covers12(sub, i, c) then Some(i) else None
  }

  lemma {:induction false} RangeMaps(start: nat, end: nat, glyph: u32, at: nat, out: Mapping, c: Rune)
    requires start <= at && end <= MAX_RUNE
    ensures Lookup(Range12(start, end, glyph, at, out), c)
              == if at <= c <= end then Some((glyph + (c - start)) % TWO32) else Lookup(out, c)
    decreases end + 1 - at
  {
    if at <= end {
      RangeMaps(start, end, glyph, at + 1, out[at := (glyph + (at - start)) % TWO32], c);
    }
  }

  lemma {:induction false} GroupsMap(sub: seq<byte>, n: nat, i: nat, out: Mapping, c: Rune)
    requires i <= n && 16 + 12 * n <= |sub|
    ensures Lookup(Groups12(sub, n, i, out), c)
              == match Last12(sub, n, i, c)
                 case None => Lookup(out, c)
                 case Some(j) => Some((Word(sub, 16 + 12 * j + 8) + (c - Word(sub, 16 + 12 * j))) % TWO32)
    decreases n - i
  {
    hide Word, Lookup, Range12;
    if i < n {
      var at := 16 + 12 * i;
      var start, end, glyph := Word(sub, at), Word(sub, at + 4), Word(sub, at + 8);
      GroupsMap(sub, n, i + 1, Group12(start, end, glyph, out), c);
      if start <= end && start <= MAX_RUNE {
        RangeMaps(start, Min(end, MAX_RUNE), glyph, start, out, c);
      }
    }
  }

  /** An accepted format 12 subtable gives a code the glyph its last covering group counts out, and touches no other. */
  lemma Format12Maps(sub: seq<byte>, out: Mapping, c: Rune)
    requires Format12(sub, out).Ok?
    ensures var n := Word(sub, 12);
            && 16 + 12 * n <= Word(sub, 4) <= |sub|
            && Lookup(Format12(sub, out).value, c)
                 == match Last12(sub, n, 0, c)
                    case None => Lookup(out, c)
                    case Some(j) => Some((Word(sub, 16 + 12 * j + 8) + (c - Word(sub, 16 + 12 * j))) % TWO32)
  {
    hide Word, Lookup, Last12, Groups12;
    GroupsMap(sub, Word(sub, 12), 0, out, c);
  }

  // ----- format 4 -----

  /** Segment i gives the code a glyph; the closing segment FFFF to FFFF never does. */
  predicate Gives4(sub: seq<byte>, a: Arrays4, i: nat, c: Rune)
    requires Valid4(sub, a) && i < a.segCount
  {
    var end, start := Half(sub, a.endOff + i * 2), Half(sub, a.startOff + i * 2);
    start <= c <= end && !(start == end == 0xFFFF) && Glyph4(sub, a, i, c) != 0
  }

  function Last4(sub: seq<byte>, a: Arrays4, i: nat, c: Rune): (j: Option<nat>)
    requires Valid4(sub, a) && i <= a.segCount
    ensures j.Some? ==> i <= j.value < a.segCount && Gives4(sub, a, j.value, c)
                        && forall k | j.value < k < a.segCount :: !Gives4(sub, a, k, c)
    ensures j.None? ==> forall k | i <= k < a.segCount :: !Gives4(sub, a, k, c)
    decreases a.segCount - i
  {
    if i == a.segCount then None
    else
      var j := Last4(sub, a, i + 1, c);
      if j.Some? then j else if Gives4(sub, a, i, c) then Some(i) else None
  }

  lemma {:induction false} CodesMap(sub: seq<byte>, a: Arrays4, i: nat, at: nat, out: Mapping, c: Rune)
    requires Valid4(sub, a) && i < a.segCount
    ensures Lookup(Codes4(sub, a, i, at, out), c)
              == if at <= c <= Half(sub, a.endOff + i * 2) && Glyph4(sub, a, i, c) != 0 then Some(Glyph4(sub, a, i, c))
                 else Lookup(out, c)
    decreases 0x1_0000 - at
  {
    hide Half, Glyph4;
    if at <= Half(sub, a.endOff + i * 2) {
      var g := Glyph4(sub, a, i, at);
      CodesMap(sub, a, i, at + 1, if g == 0 then out else out[at := g], c);
    }
  }

  lemma {:induction false} SegmentsMap(sub: seq<byte>, a: Arrays4, i: nat, out: Mapping, c: Rune)
    requires Valid4(sub, a) && i <= a.segCount
    ensures Lookup(Segments4(sub, a, i, out), c)
              == match Last4(sub, a, i, c)
                 case None => Lookup(out, c)
                 case Some(j) => Some(Glyph4(sub, a, j, c))
    decreases a.segCount - i
  {
    hide Half, Glyph4, Lookup, Codes4;
    if i < a.segCount {
      var end, start := Half(sub, a.endOff + i * 2), Half(sub, a.startOff + i * 2);
      if start == 0xFFFF && end == 0xFFFF {
        SegmentsMap(sub, a, i + 1, out, c);
      } else {
        SegmentsMap(sub, a, i + 1, Codes4(sub, a, i, start, out), c);
        CodesMap(sub, a, i, start, out, c);
      }
    }
  }

  /** An accepted format 4 subtable gives a code the glyph of the last segment that has one for it. */
  lemma Format4Maps(sub: seq<byte>, out: Mapping, c: Rune)
    requires Format4(sub, out).Ok?
    ensures var a := Arrays4(Half(sub, 2), Half(sub, 6) / 2);
            Lookup(Format4(sub, out).value, c)
              == if a.segCount == 0 then Lookup(out, c)
                 else match Last4(sub, a, 0, c)
                   case None => Lookup(out, c)
                   case Some(j) => Some(Glyph4(sub, a, j, c))
  {
    hide Half, Glyph4, Lookup, Last4;
    var a := Arrays4(Half(sub, 2), Half(sub, 6) / 2);
    if a.segCount > 0 {
      SegmentsMap(sub, a, 0, out, c);
    }
  }

  /** The k-th 16-bit word of a subtable. */
  function At16(sub: seq<byte>, k: nat): u16
    requires 2 * k + 2 <= |sub|
  {
    Half(sub, 2 * k)
  }

  /**
   OpenType's own way to say it: the glyph is the code plus idDelta modulo 2^16, or, for an idRangeOffset
   that is not zero, counted in words from where that offset stands, a word of the glyph array plus idDelta,
   and none if that word is zero or outside.
   */
  lemma Glyph4IsIndexed(sub: seq<byte>, a: Arrays4, i: nat, c: nat)
    requires Valid4(sub, a) && i < a.segCount
    requires Half(sub, a.startOff + i * 2) <= c && Half(sub, a.rangeOff + i * 2) % 2 == 0
    ensures var words, n := a.length / 2, a.segCount;
            var start, delta, range := At16(sub, 8 + n + i), At16(sub, 8 + 2 * n + i), At16(sub, 8 + 3 * n + i);
            var at := 8 + 3 * n + i + range / 2 + (c - start);
            Glyph4(sub, a, i, c)
              == if range == 0 then (c + delta) % TWO16
                 else if at < words && At16(sub, at) != 0 then (At16(sub, at) + delta) % TWO16
                 else 0
  {
    hide Half;
    var n := a.segCount;
    assert a.startOff + i * 2 == 2 * (8 + n + i) && a.deltaOff + i * 2 == 2 * (8 + 2 * n + i)
        && a.rangeOff + i * 2 == 2 * (8 + 3 * n + i);
    var delta := Half(sub, a.deltaOff + i * 2);
    SignedWraps(c, delta);
    var range, start := Half(sub, a.rangeOff + i * 2), Half(sub, a.startOff + i * 2);
    var at := 8 + 3 * n + i + range / 2 + (c - start);
    assert a.rangeOff + i * 2 + range + (c - start) * 2 == 2 * at;
    if range != 0 && at < a.length / 2 {
      SignedWraps(At16(sub, at), delta);
    }
  }

  lemma SignedWraps(x: nat, delta: u16)
    ensures (x + ToI16(delta)) % TWO16 == (x + delta) % TWO16
  {
  }
}
