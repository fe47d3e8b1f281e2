/** Reading the `cmap` subtables of formats 4 and 12, and mappings as ascending lists of pairs. */
module Cmap {
  import opened Bytes
  import opened Sfnt
  import opened Sorted

  const MAX_RUNE := 0x10FFFF

  type Rune = x: int | 0 <= x <= 0x10FFFF

  datatype Pair = Pair(code: Rune, glyph: u32)

  datatype CmapError = CmapTruncated | RecordsTruncated | Format4Header | Format4Length | Format4Arrays
    | Format12Header | Format12Length | Format12Groups

  /** Code points to glyphs, as both subtable readers fill it. */
  type Mapping = map<Rune, u32>

  // ----- format 4 -----

  /** The four parallel arrays of a format 4 subtable. */
  datatype Arrays4 = Arrays4(length: nat, segCount: nat) {
    const endOff := 14
    const startOff := endOff + segCount * 2 + 2
    const deltaOff := startOff + segCount * 2
    const rangeOff := deltaOff + segCount * 2
  }

  predicate Valid4(sub: seq<byte>, a: Arrays4) {
    a.rangeOff + a.segCount * 2 <= a.length <= |sub|
  }

  function ToI16(x: u16): int { if x >= 0x8000 then x - 0x1_0000 else x }

  /** The glyph of one code of segment i, 0 for none; glyph arithmetic wraps at sixteen bits. */
  function Glyph4(sub: seq<byte>, a: Arrays4, i: nat, c: nat): u16
    requires Valid4(sub, a) && i < a.segCount
  {
    var start := Half(sub, a.startOff + i * 2);
    var delta := ToI16(Half(sub, a.deltaOff + i * 2));
    var range := Half(sub, a.rangeOff + i * 2);
    if range == 0 then (c + delta) % TWO16
    else
      var ptr := a.rangeOff + i * 2 + range + (c - start) * 2;
      if ptr < 0 || ptr + 2 > a.length then 0
      else
        var raw := Half(sub, ptr);
        if raw == 0 then 0 else (raw + delta) % TWO16
  }

  function Codes4(sub: seq<byte>, a: Arrays4, i: nat, c: nat, out: Mapping): Mapping
    requires Valid4(sub, a) && i < a.segCount
    decreases 0x1_0000 - c
  {
    if c > Half(sub, a.endOff + i * 2) then out
    else
      var g := Glyph4(sub, a, i, c);
      Codes4(sub, a, i, c + 1, if g == 0 then out else out[c := g])
  }

  function Segments4(sub: seq<byte>, a: Arrays4, i: nat, out: Mapping): Mapping
    requires Valid4(sub, a) && i <= a.segCount
    decreases a.segCount - i
  {
    if i == a.segCount then out
    else
      var end, start := Half(sub, a.endOff + i * 2), Half(sub, a.startOff + i * 2);
      Segments4(sub, a, i + 1, if start == 0xFFFF && end == 0xFFFF then out else Codes4(sub, a, i, start, out))
  }

  function Format4(sub: seq<byte>, out: Mapping): Result<Mapping, CmapError> {
    if |sub| < 14 then Err(Format4Header)
    else
      var a := Arrays4(Half(sub, 2), Half(sub, 6) / 2);
      if a.length > |sub| then Err(Format4Length)
      else if a.segCount == 0 then Ok(out)
      else if a.rangeOff + a.segCount * 2 > a.length then Err(Format4Arrays)
      else Ok(Segments4(sub, a, 0, out))
  }

  method ParseFormat4(sub: seq<byte>, m: Mapping) returns (r: Result<Mapping, CmapError>)
    ensures r == Format4(sub, m)
  {
    hide Half, Glyph4;
    if |sub| < 14 { return Err(Format4Header); }
    var a := Arrays4(Half(sub, 2), Half(sub, 6) / 2);
    if a.length > |sub| { return Err(Format4Length); }
    if a.segCount == 0 { return Ok(m); }
    if a.rangeOff + a.segCount * 2 > a.length { return Err(Format4Arrays); }
    var out: Mapping := m;
    for i := 0 to a.segCount
      invariant Segments4(sub, a, 0, m) == Segments4(sub, a, i, out)
    {
      var end, start := Half(sub, a.endOff + i * 2), Half(sub, a.startOff + i * 2);
      if start == 0xFFFF && end == 0xFFFF { continue; }
      ghost var before: Mapping := out;
      var c: nat := start;
      while c <= end
        invariant start <= c
        invariant Codes4(sub, a, i, start, before) == Codes4(sub, a, i, c, out)
        decreases end + 1 - c
      {
        var g: u32 := Glyph4(sub, a, i, c);
        if g != 0 {
          out := out[c := g];
        }
        c := c + 1;
      }
    }
    return Ok(out);
  }

  // ----- format 12 -----

  /** One group: consecutive codes to consecutive glyphs, wrapping at 32 bits. */
  function Range12(start: nat, end: nat, glyph: u32, c: nat, out: Mapping): Mapping
    requires start <= c && end <= MAX_RUNE
    decreases end + 1 - c
  {
    if c > end then out else Range12(start, end, glyph, c + 1, out[c := (glyph + (c - start)) % TWO32])
  }

  /** One group as stored: empty or out of Unicode gives nothing, and the end is cut at U+10FFFF. */
  function Group12(start: nat, end: nat, glyph: u32, out: Mapping): Mapping {
    if end < start || start > MAX_RUNE then out else Range12(start, Min(end, MAX_RUNE), glyph, start, out)
  }

  function Groups12(sub: seq<byte>, n: nat, i: nat, out: Mapping): Mapping
    requires i <= n && 16 + 12 * n <= |sub|
    decreases n - i
  {
    if i == n then out
    else
      var at := 16 + 12 * i;
      Groups12(sub, n, i + 1, Group12(Word(sub, at), Word(sub, at + 4), Word(sub, at + 8), out))
  }

  function Format12(sub: seq<byte>, out: Mapping): Result<Mapping, CmapError> {
    if |sub| < 16 then Err(Format12Header)
    else
      var length, n := Word(sub, 4), Word(sub, 12);
      if length > |sub| then Err(Format12Length)
      else if 16 + n * 12 > length then Err(Format12Groups)
      else Ok(Groups12(sub, n, 0, out))
  }

  method ParseFormat12(sub: seq<byte>, m: Mapping) returns (r: Result<Mapping, CmapError>)
    ensures r == Format12(sub, m)
  {
    hide Word;
    if |sub| < 16 { return Err(Format12Header); }
    var length, n: nat := Word(sub, 4), Word(sub, 12);
    if length > |sub| { return Err(Format12Length); }
    if 16 + n * 12 > length { return Err(Format12Groups); }
    var out: Mapping := m;
    for i := 0 to n
      invariant Groups12(sub, n, 0, m) == Groups12(sub, n, i, out)
    {
      var at := 16 + i * 12;
      var start, end, glyph: nat := Word(sub, at), Word(sub, at + 4), Word(sub, at + 8);
      if end < start || start > MAX_RUNE { continue; }
      if end > MAX_RUNE { end := MAX_RUNE; }
      ghost var before: Mapping := out;
      var c := start;
      while c <= end
        invariant start <= c
        invariant Range12(start, end, glyph, start, before) == Range12(start, end, glyph, c, out)
        decreases end + 1 - c
      {
        out := out[c := (glyph + (c - start)) % TWO32];
        c := c + 1;
      }
    }
    return Ok(out);
  }

  // ----- mappings as lists -----

  function Codes(pairs: seq<Pair>): (c: seq<nat>)
    ensures |c| == |pairs|
  {
    seq(|pairs|, i requires 0 <= i < |pairs| => pairs[i].code)
  }

  /** The pairs are exactly the codes with a glyph, ascending. */
  ghost predicate Represents(pairs: seq<Pair>, m: Mapping) {
    && Ascending(Codes(pairs))
    && (forall p :: p in pairs ==> p.code in m && m[p.code] == p.glyph != 0)
    && (forall c :: c in m && m[c] != 0 ==> Pair(c, m[c]) in pairs)
  }

  /** The map's entries with a glyph, sorted by code. */
  method ListPairs(m: Mapping) returns (pairs: seq<Pair>)
    ensures Represents(pairs, m)
  {
    var keys := SortedKeys(set c | c in m && m[c] != 0);
    pairs := [];
    for i := 0 to |keys|
      invariant |pairs| == i
      invariant forall k :: 0 <= k < i ==> keys[k] in m && pairs[k] == Pair(keys[k], m[keys[k]])
    {
      assert keys[i] in keys;
      pairs := pairs + [Pair(keys[i], m[keys[i]])];
    }
    ListedRepresents(keys, pairs, m);
  }

  lemma ListedRepresents(keys: seq<nat>, pairs: seq<Pair>, m: Mapping)
    requires Lists(keys, set c | c in m && m[c] != 0) && |pairs| == |keys|
    requires forall k :: 0 <= k < |keys| ==> keys[k] in m && pairs[k] == Pair(keys[k], m[keys[k]])
    ensures Represents(pairs, m)
  {
    assert Codes(pairs) == keys;
    forall p | p in pairs ensures p.code in m && m[p.code] == p.glyph != 0 {
      var k :| 0 <= k < |pairs| && pairs[k] == p;
      assert keys[k] in keys;
    }
    forall c | c in m && m[c] != 0 ensures Pair(c, m[c]) in pairs {
      assert c in keys;
      var k :| 0 <= k < |keys| && keys[k] == c;
      assert pairs[k] == Pair(c, m[c]);
    }
  }

  /** A mapping has one list only. */
  lemma RepresentsIsUnique(a: seq<Pair>, b: seq<Pair>, m: Mapping)
    requires Represents(a, m) && Represents(b, m)
    ensures a == b
  {
    CodesList(a, m);
    CodesList(b, m);
    ListsIsUnique(Codes(a), Codes(b), set c | c in m && m[c] != 0);
    forall i | 0 <= i < |a| ensures a[i] == b[i] {
      assert a[i] in a && b[i] in b && Codes(a)[i] == Codes(b)[i];
    }
  }

  lemma CodesList(a: seq<Pair>, m: Mapping)
    requires Represents(a, m)
    ensures Lists(Codes(a), set c | c in m && m[c] != 0)
  {
    var keys := set c | c in m && m[c] != 0;
    forall x: nat ensures x in Codes(a) <==> x in keys {
      if x in Codes(a) {
        var i :| 0 <= i < |a| && Codes(a)[i] == x;
        assert a[i] in a;
      }
      if x in keys {
        var i :| 0 <= i < |a| && a[i] == Pair(x, m[x]);
        assert Codes(a)[i] == x;
      }
    }
  }
}
