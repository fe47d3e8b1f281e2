/** A whole `cmap` table: the Unicode encoding records, their subtables merged, and what that says about one code point. */
module CmapTable {
  import opened Bytes
  import opened Sfnt
  import opened Sorted
  import opened Cmap
  import opened CmapLookup

  // ----- the merged mapping -----

  predicate IsUnicode(platform: u16, encoding: u16) {
    platform == 0 || (platform == 3 && (encoding == 1 || encoding == 10))
  }

  /** Where record i points, if it is a Unicode record whose subtable has the given format. */
  function Subtable(data: seq<byte>, i: nat, format: u16): Option<nat>
    requires 4 + 8 * i + 8 <= |data|
  {
    var at := 4 + 8 * i;
    var off := Word(data, at + 4);
    if IsUnicode(Half(data, at), Half(data, at + 2)) && off + 2 <= |data| && Half(data, off) == format
    then Some(off) else None
  }

  function ReadSubtable(format: u16, sub: seq<byte>, out: Mapping): Result<Mapping, CmapError> {
    if format == 4 then Format4(sub, out) else Format12(sub, out)
  }

  /** All records with the given format, in order; later entries win. */
  function Pass(data: seq<byte>, n: nat, i: nat, format: u16, out: Mapping): Result<Mapping, CmapError>
    requires i <= n && 4 + 8 * n <= |data|
    decreases n - i
  {
    if i == n then Ok(out)
    else match Subtable(data, i, format)
      case None => Pass(data, n, i + 1, format, out)
      case Some(off) =>
        var r := ReadSubtable(format, data[off..], out);
        if r.Err? then r else Pass(data, n, i + 1, format, r.value)
  }

  /** The merged mapping: every format 4 subtable first, then every format 12 subtable over it. */
  function Merged(data: seq<byte>): Result<Mapping, CmapError> {
    if |data| < 4 then Err(CmapTruncated)
    else
      var n := Half(data, 2);
      if |data| < 4 + n * 8 then Err(RecordsTruncated)
      else
        var first := Pass(data, n, 0, 4, map[]);
        if first.Err? then first else Pass(data, n, 0, 12, first.value)
  }

  // ----- what a table says, record by record -----

  /** Record i is for Unicode: platform 0, or platform 3 with encoding 1 or 10; and its offset leads to a subtable of the format. */
  predicate PointsTo(data: seq<byte>, i: nat, format: u16) {
    var at := 4 + 8 * i;
    && at + 8 <= |data|
    && (Half(data, at) == 0 || (Half(data, at) == 3 && (Half(data, at + 2) == 1 || Half(data, at + 2) == 10)))
    && Word(data, at + 4) + 2 <= |data| && Half(data, Word(data, at + 4)) == format
  }

  function SubtableOf(data: seq<byte>, i: nat): seq<byte>
    requires 4 + 8 * i + 8 <= |data| && Word(data, 4 + 8 * i + 4) <= |data|
  {
    data[Word(data, 4 + 8 * i + 4)..]
  }

  /** The sizes a subtable must keep to. */
  predicate Accepted(format: u16, sub: seq<byte>) {
    if format == 4 then
      && |sub| >= 14
      && var segments, length := Half(sub, 6) / 2, Half(sub, 2);
         length <= |sub| && (segments > 0 ==> 16 + 8 * segments <= length)
    else |sub| >= 16 && 16 + 12 * Word(sub, 12) <= Word(sub, 4) <= |sub|
  }

  /** The glyph of the last format 12 group that covers the code point. */
  function Says12(sub: seq<byte>, c: Rune): Option<u32> {
    if !Accepted(12, sub) then None
    else match Last12(sub, Word(sub, 12), 0, c)
      case None => None
      case Some(j) => Some((Word(sub, 16 + 12 * j + 8) + (c - Word(sub, 16 + 12 * j))) % TWO32)
  }

  /** The glyph of the last format 4 segment that has one for the code point. */
  function Says4(sub: seq<byte>, c: Rune): Option<u32> {
    if !Accepted(4, sub) || Half(sub, 6) / 2 == 0 then None
    else
      var a := Arrays4(Half(sub, 2), Half(sub, 6) / 2);
      match Last4(sub, a, 0, c)
      case None => None
      case Some(j) => Some(Glyph4(sub, a, j, c))
  }

  function Says(data: seq<byte>, i: nat, format: u16, c: Rune): Option<u32> {
    if !PointsTo(data, i, format) then None
    else if format == 4 then Says4(SubtableOf(data, i), c) else Says12(SubtableOf(data, i), c)
  }

  /** What the last of the records from i on that speaks about the code point says. */
  function LastSays(data: seq<byte>, n: nat, i: nat, format: u16, c: Rune): (r: Option<u32>)
    requires i <= n
    ensures r.Some? ==> exists j | i <= j < n :: Says(data, j, format, c) == r && forall k | j < k < n :: Says(data, k, format, c) == None
    ensures r.None? ==> forall k | i <= k < n :: Says(data, k, format, c) == None
    decreases n - i
  {
    if i == n then None
    else
      var r := LastSays(data, n, i + 1, format, c);
      if r.Some? then r else Says(data, i, format, c)
  }

  /** The glyph of a code point, 0 for none: format 12 decides, failing that format 4. */
  function GlyphIn(data: seq<byte>, c: Rune): u32 {
    if |data| < 4 then 0
    else
      var n := Half(data, 2);
      match LastSays(data, n, 0, 12, c)
      case Some(g) => g
      case None => match LastSays(data, n, 0, 4, c)
        case Some(g) => g
        case None => 0
  }

  /** The tables that are read at all: the records are there, and so is every Unicode subtable of the two formats. */
  predicate Readable(data: seq<byte>) {
    && |data| >= 4 && 4 + 8 * Half(data, 2) <= |data|
    && forall i | 0 <= i < Half(data, 2) ::
         (PointsTo(data, i, 4) ==> Accepted(4, SubtableOf(data, i)))
         && (PointsTo(data, i, 12) ==> Accepted(12, SubtableOf(data, i)))
  }

  lemma SubtableIsPointed(data: seq<byte>, i: nat, format: u16)
    requires 4 + 8 * i + 8 <= |data|
    ensures Subtable(data, i, format) == if PointsTo(data, i, format) then Some(Word(data, 4 + 8 * i + 4)) else None
    ensures PointsTo(data, i, format) ==> Word(data, 4 + 8 * i + 4) <= |data|
  {
    hide Half, Word;
  }

  lemma SubtableReads(format: u16, sub: seq<byte>, out: Mapping)
    requires format == 4 || format == 12
    ensures ReadSubtable(format, sub, out).Ok? <==> Accepted(format, sub)
  {
    hide Half, Word, Segments4, Groups12;
  }

  lemma SubtableSays(format: u16, sub: seq<byte>, out: Mapping, c: Rune)
    requires (format == 4 || format == 12) && ReadSubtable(format, sub, out).Ok?
    ensures var says := if format == 4 then Says4(sub, c) else Says12(sub, c);
            Lookup(ReadSubtable(format, sub, out).value, c) == if says.Some? then says else Lookup(out, c)
  {
    SubtableReads(format, sub, out);
    hide Half, Word, Lookup, Last4, Last12, Glyph4, Segments4, Groups12;
    if format == 4 {
      Format4Maps(sub, out, c);
    } else {
      Format12Maps(sub, out, c);
    }
  }

  lemma {:induction false} PassReads(data: seq<byte>, n: nat, i: nat, format: u16, out: Mapping)
    requires i <= n && 4 + 8 * n <= |data| && (format == 4 || format == 12)
    ensures Pass(data, n, i, format, out).Ok? <==>
            forall k | i <= k < n :: PointsTo(data, k, format) ==> Accepted(format, SubtableOf(data, k))
    decreases n - i
  {
    hide PointsTo, Accepted, ReadSubtable, Subtable, Word;
    if i < n {
      SubtableIsPointed(data, i, format);
      if PointsTo(data, i, format) {
        var sub := SubtableOf(data, i);
        SubtableReads(format, sub, out);
        if Accepted(format, sub) {
          PassReads(data, n, i + 1, format, ReadSubtable(format, sub, out).value);
        }
      } else {
        PassReads(data, n, i + 1, format, out);
      }
    }
  }

  lemma {:induction false} PassSays(data: seq<byte>, n: nat, i: nat, format: u16, out: Mapping, c: Rune)
    requires i <= n && 4 + 8 * n <= |data| && (format == 4 || format == 12) && Pass(data, n, i, format, out).Ok?
    ensures var says := LastSays(data, n, i, format, c);
            Lookup(Pass(data, n, i, format, out).value, c) == if says.Some? then says else Lookup(out, c)
    decreases n - i
  {
    hide PointsTo, ReadSubtable, Subtable, Word, Lookup, Says4, Says12;
    if i < n {
      SubtableIsPointed(data, i, format);
      if PointsTo(data, i, format) {
        var sub := SubtableOf(data, i);
        var m := ReadSubtable(format, sub, out).value;
        SubtableSays(format, sub, out, c);
        PassSays(data, n, i + 1, format, m, c);
      } else {
        PassSays(data, n, i + 1, format, out, c);
      }
    }
  }

  /** The merged mapping is what the records say. */
  lemma MergedReads(data: seq<byte>)
    ensures Merged(data).Ok? <==> Readable(data)
    ensures Merged(data).Ok? ==> forall c: Rune :: GlyphOf(Merged(data).value, c) == GlyphIn(data, c)
  {
    hide Pass, PointsTo, Accepted, SubtableOf, LastSays, GlyphIn, Half;
    if |data| >= 4 && 4 + 8 * Half(data, 2) <= |data| {
      var n := Half(data, 2);
      var first := Pass(data, n, 0, 4, map[]);
      PassReads(data, n, 0, 4, map[]);
      if first.Ok? {
        PassReads(data, n, 0, 12, first.value);
        if Pass(data, n, 0, 12, first.value).Ok? {
          forall c: Rune ensures GlyphOf(Merged(data).value, c) == GlyphIn(data, c) {
            MergedSays(data, first.value, c);
          }
        }
      }
    }
  }

  lemma MergedSays(data: seq<byte>, first: Mapping, c: Rune)
    requires |data| >= 4 && 4 + 8 * Half(data, 2) <= |data|
    requires var n := Half(data, 2); Pass(data, n, 0, 4, map[]) == Ok(first) && Pass(data, n, 0, 12, first).Ok?
    ensures GlyphOf(Pass(data, Half(data, 2), 0, 12, first).value, c) == GlyphIn(data, c)
  {
    hide Pass, LastSays, Half;
    var n := Half(data, 2);
    PassSays(data, n, 0, 4, map[], c);
    PassSays(data, n, 0, 12, first, c);
  }

  lemma ListedAreGlyphs(data: seq<byte>, pairs: seq<Pair>, m: Mapping)
    requires Represents(pairs, m) && forall c: Rune :: GlyphOf(m, c) == GlyphIn(data, c)
    ensures Ascending(Codes(pairs)) && forall p :: p in pairs <==> p.glyph == GlyphIn(data, p.code) != 0
  {
    hide GlyphIn;
    forall p ensures p in pairs <==> p.glyph == GlyphIn(data, p.code) != 0 {
      assert GlyphOf(m, p.code) == GlyphIn(data, p.code);
      assert p == Pair(p.code, p.glyph);
    }
  }

  // ----- reading it -----

  method RunPass(data: seq<byte>, n: nat, format: u16, m: Mapping) returns (r: Result<Mapping, CmapError>)
    requires 4 + 8 * n <= |data| && (format == 4 || format == 12)
    ensures r == Pass(data, n, 0, format, m)
  {
    hide Half, Word, IsUnicode, Format4, Format12;
    var out: Mapping := m;
    for i := 0 to n
      invariant Pass(data, n, 0, format, m) == Pass(data, n, i, format, out)
    {
      var at := 4 + i * 8;
      if !IsUnicode(Half(data, at), Half(data, at + 2)) { continue; }
      var off: nat := Word(data, at + 4);
      if off + 2 > |data| { continue; }
      if Half(data, off) != format { continue; }
      var sub;
      if format == 4 {
        sub := ParseFormat4(data[off..], out);
      } else {
        sub := ParseFormat12(data[off..], out);
      }
      if sub.Err? { return sub; }
      out := sub.value;
    }
    return Ok(out);
  }

  method ParseUnicode(data: seq<byte>) returns (r: Result<seq<Pair>, CmapError>)
    ensures r.Ok? <==> Readable(data)
    ensures r.Ok? ==> Ascending(Codes(r.value))
    ensures r.Ok? ==> forall p :: p in r.value <==> p.glyph == GlyphIn(data, p.code) != 0
    ensures match Merged(data)
            case Err(e) => r == Err(e)
            case Ok(m) => r.Ok? && Represents(r.value, m)
  {
    MergedReads(data);
    hide Half, Pass, Represents, Readable, GlyphIn;
    if |data| < 4 { return Err(CmapTruncated); }
    var n: nat := Half(data, 2);
    if |data| < 4 + n * 8 { return Err(RecordsTruncated); }
    var first := RunPass(data, n, 4, map[]);
    if first.Err? { return Err(first.error); }
    var second := RunPass(data, n, 12, first.value);
    if second.Err? { return Err(second.error); }
    var pairs := ListPairs(second.value);
    ListedAreGlyphs(data, pairs, second.value);
    return Ok(pairs);
  }
}
