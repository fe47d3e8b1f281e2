/** Removing code points from a font: the `cmap` is rebuilt, everything else is kept. */
module Subset {
  import opened Bytes
  import opened Sfnt
  import opened SfntWrite
  import opened Buffers
  import opened Sorted
  import opened Cmap
  import opened CmapBuild
  import opened CmapRoundTrip
  import opened CmapLookup
  import opened CmapTable
  import Emoji

  datatype SubsetError = PredicateMissing | BadFont(sfnt: Sfnt.Error) | CmapMissing | BadCmap(cmap: CmapError)

  /** The pairs of a mapping that are not to be removed, ascending. */
  ghost predicate KeptOf(kept: seq<Pair>, m: Mapping, remove: Rune -> bool) {
    && Ascending(Codes(kept))
    && forall p :: p in kept <==> p.code in m && m[p.code] == p.glyph != 0 && !remove(p.code)
  }

  lemma TableLength(gs: seq<Group>)
    requires FitsTable(gs)
    ensures |TableBytes(gs)| == RECORDS_END + 16 + 12 * |gs|
  {
    hide SubtableBytes;
    SubtableLength(gs);
  }

  function NewCmap(kept: seq<Pair>): Table
    requires FitsTable(GroupsOf(kept))
  {
    TableLength(GroupsOf(kept));
    TableBytes(GroupsOf(kept))
  }

  function WithCmap(f: Font, kept: seq<Pair>): Font
    requires FitsTable(GroupsOf(kept))
  {
    f.(tables := f.tables[TAG_CMAP := NewCmap(kept)])
  }

  /** With the rebuilt `cmap` the file stays within the limits of the writer. */
  ghost predicate Roomy(f: Font, m: Mapping, remove: Rune -> bool) {
    forall kept: seq<Pair> :: KeptOf(kept, m, remove) && FitsTable(GroupsOf(kept)) ==> Writable(WithCmap(f, kept))
  }

  /** The same of a file; one that is refused needs no room. */
  ghost predicate RoomFor(ttf: seq<byte>, remove: Rune -> bool) {
    match ParseSpec(ttf)
    case Err(_) => true
    case Ok(f) =>
      TAG_CMAP in f.tables ==>
        match Merged(f.tables[TAG_CMAP])
        case Err(_) => true
        case Ok(m) => Roomy(f, m, remove)
  }

  /** Equal outside bytes 8 to 12. */
  predicate SameButAdjustment(a: seq<byte>, b: seq<byte>) {
    |a| == |b| && forall i | 0 <= i < |a| :: !(8 <= i < 12) ==> a[i] == b[i]
  }

  /**
   The promise of the subsetter: the file parses; its `cmap` can be read and gives every code point
   the glyph the old one gave it, or none if it is removed; every other table is byte for byte the old
   one, but for the adjustment in `head`.
   */
  ghost predicate IsSubset(f: Font, remove: Rune -> bool, file: seq<byte>)
    requires TAG_CMAP in f.tables
  {
    match ParseSpec(file)
    case Err(_) => false
    case Ok(g) =>
      && g.version == f.version && g.tables.Keys == f.tables.Keys
      && (forall tag :: tag in f.tables && tag != TAG_CMAP && tag != TAG_HEAD ==> g.tables[tag] == f.tables[tag])
      && (TAG_HEAD in f.tables ==> SameButAdjustment(g.tables[TAG_HEAD], f.tables[TAG_HEAD]))
      && TAG_CMAP in g.tables
      && Readable(g.tables[TAG_CMAP])
      && forall c: Rune :: GlyphIn(g.tables[TAG_CMAP], c) == if remove(c) then 0 else GlyphIn(f.tables[TAG_CMAP], c)
  }

  // ----- the filter -----

  method Keep(pairs: seq<Pair>, remove: Rune -> bool, ghost m: Mapping) returns (kept: seq<Pair>)
    requires Represents(pairs, m)
    ensures Ascending(Codes(kept)) && forall p :: p in kept <==> p in pairs && !remove(p.code)
  {
    kept := [];
    for i := 0 to |pairs|
      invariant Ascending(Codes(kept))
      invariant forall p :: p in kept <==> p in pairs[..i] && !remove(p.code)
    {
      assert pairs[..i + 1] == pairs[..i] + [pairs[i]];
      if !remove(pairs[i].code) {
        KeptAscends(kept, pairs, i);
        kept := kept + [pairs[i]];
      }
    }
    assert pairs[..|pairs|] == pairs;
  }

  lemma KeptAscends(kept: seq<Pair>, pairs: seq<Pair>, i: nat)
    requires i < |pairs| && Ascending(Codes(kept)) && Ascending(Codes(pairs))
    requires forall p :: p in kept ==> p in pairs[..i]
    ensures Ascending(Codes(kept + [pairs[i]]))
  {
    var ks := kept + [pairs[i]];
    forall a, b | 0 <= a < b < |ks| ensures Codes(ks)[a] < Codes(ks)[b] {
      if b == |kept| {
        assert kept[a] in kept;
        var k :| 0 <= k < i && pairs[k] == kept[a];
        assert Codes(pairs)[k] < Codes(pairs)[i];
      } else {
        assert Codes(kept)[a] < Codes(kept)[b];
      }
    }
  }

  // ----- the subsetter -----

  method Subset(ttf: seq<byte>, shouldRemove: Option<Rune -> bool>) returns (r: Result<seq<byte>, SubsetError>)
    requires shouldRemove.Some? ==> RoomFor(ttf, shouldRemove.value)
    ensures shouldRemove.None? ==> r == Err(PredicateMissing)
    ensures shouldRemove.Some? ==>
      match ParseSpec(ttf)
      case Err(e) => r == Err(BadFont(e))
      case Ok(f) =>
        if TAG_CMAP !in f.tables then r == Err(CmapMissing)
        else if !Readable(f.tables[TAG_CMAP]) then
          r.Err? && r.error.BadCmap? && Merged(f.tables[TAG_CMAP]) == Err(r.error.cmap)
        else
          && r.Ok? && IsSubset(f, shouldRemove.value, r.value)
          && (HasAdjustment(f.tables) ==> Checksum(r.value) == MAGIC)
  {
    hide ParseSpec, Merged, IsSubset, Checksum, Roomy, Readable, GlyphIn;
    if shouldRemove.None? { return Err(PredicateMissing); }
    var parsed := Parse(ttf);
    if parsed.Err? { return Err(BadFont(parsed.error)); }
    SupportedAfterParse(ttf);
    var f := parsed.value;
    if TAG_CMAP !in f.tables { return Err(CmapMissing); }
    var pairs := ParseUnicode(f.tables[TAG_CMAP]);
    if pairs.Err? { return Err(BadCmap(pairs.error)); }
    var file := Rebuild(f, pairs.value, shouldRemove.value, Merged(f.tables[TAG_CMAP]).value);
    return Ok(file);
  }

  lemma SupportedAfterParse(ttf: seq<byte>)
    ensures ParseSpec(ttf).Ok? ==> SupportedVersion(ParseSpec(ttf).value.version)
  {
  }

  /** Keep, sort and write: the new table maps exactly the kept pairs. */
  method RebuildCmap(pairs: seq<Pair>, remove: Rune -> bool, ghost m: Mapping) returns (table: Table, ghost kept: seq<Pair>)
    requires Represents(pairs, m)
    ensures KeptOf(kept, m, remove) && FitsTable(GroupsOf(kept)) && table == NewCmap(kept)
    ensures Readable(table)
    ensures forall c: Rune :: GlyphIn(table, c) == if remove(c) then 0 else GlyphOf(m, c)
  {
    hide Represents, TableBytes, KeptOf, FitsTable, GroupsOf, Merged, GlyphOf, GlyphIn, Readable;
    var left := Keep(pairs, remove, m);
    kept := left;
    KeptIsKeptOf(left, pairs, m, remove);
    var bytes := BuildFormat12(left);
    ghost var sorted :| Built(left, bytes, sorted);
    SortingKept(sorted, left);
    KeptRoundTrip(left, pairs, m);
    KeptGlyphs(left, pairs, m, Merged(bytes).value, remove);
    MergedReads(bytes);
    assert bytes == NewCmap(left);
    table := bytes;
  }

  method Rebuild(f: Font, pairs: seq<Pair>, remove: Rune -> bool, ghost m: Mapping) returns (file: seq<byte>)
    requires Roomy(f, m, remove) && SupportedVersion(f.version) && TAG_CMAP in f.tables && Represents(pairs, m)
    requires Merged(f.tables[TAG_CMAP]) == Ok(m)
    ensures IsSubset(f, remove, file)
    ensures HasAdjustment(f.tables) ==> Checksum(file) == MAGIC
  {
    hide IsSubset, Represents, Checksum, SerializeSpec, Writable, Adjustment, Fits, Lists, KeptOf, FitsTable, NewCmap,
      Merged, GlyphOf, GroupsOf, Splice, GlyphIn, Readable;
    MergedReads(f.tables[TAG_CMAP]);
    var cmap, kept := RebuildCmap(pairs, remove, m);
    var g := f.(tables := f.tables[TAG_CMAP := cmap]);
    assert g == WithCmap(f, kept);
    file := Serialize(g);
    ghost var tags :| Written(g, file, tags);
    ParseUndoesSerialize(g, tags);
    if HasAdjustment(g.tables) {
      FileSumsToMagic(g, tags);
    }
    SubsetFound(f, remove, file, cmap, Adjustment(g, tags));
  }

  lemma KeptIsKeptOf(kept: seq<Pair>, pairs: seq<Pair>, m: Mapping, remove: Rune -> bool)
    requires Represents(pairs, m) && Ascending(Codes(kept))
    requires forall p :: p in kept <==> p in pairs && !remove(p.code)
    ensures KeptOf(kept, m, remove) && FitsTable(GroupsOf(kept))
    ensures forall sorted :: SortedFrom(sorted, kept) ==> FitsTable(GroupsOf(sorted))
  {
    hide GroupsOf;
    AscendingFits(kept);
    AscendingIsDistinct(kept);
    DistinctFit(kept);
  }

  lemma AscendingIsDistinct(kept: seq<Pair>)
    requires Ascending(Codes(kept))
    ensures DistinctCodes(kept)
  {
    forall i, j | 0 <= i < j < |kept| ensures kept[i].code != kept[j].code {
      assert Codes(kept)[i] < Codes(kept)[j];
    }
  }

  /** Sorting changes nothing about what is sorted already. */
  lemma SortingKept(sorted: seq<Pair>, kept: seq<Pair>)
    requires Ascending(Codes(kept)) && SortedFrom(sorted, kept)
    ensures sorted == kept
  {
    AscendingIsDistinct(kept);
    SortedIsAscending(sorted, kept);
    SameCodes(sorted, kept);
    ListsIsUnique(Codes(sorted), Codes(kept), set p | p in kept :: p.code);
    forall i | 0 <= i < |sorted| ensures sorted[i] == kept[i] {
      assert sorted[i] in sorted && Codes(sorted)[i] == Codes(kept)[i];
      var j :| 0 <= j < |kept| && kept[j] == sorted[i];
    }
  }

  lemma SameCodes(sorted: seq<Pair>, kept: seq<Pair>)
    requires Ascending(Codes(sorted)) && Ascending(Codes(kept)) && forall p :: p in sorted <==> p in kept
    ensures var codes: set<nat> := set p | p in kept :: p.code; Lists(Codes(sorted), codes) && Lists(Codes(kept), codes)
  {
    var codes: set<nat> := set p | p in kept :: p.code;
    CodesAre(sorted, codes);
    CodesAre(kept, codes);
  }

  lemma CodesAre(pairs: seq<Pair>, codes: set<nat>)
    requires Ascending(Codes(pairs)) && codes == set p | p in pairs :: p.code
    ensures Lists(Codes(pairs), codes)
  {
    forall x: nat ensures x in Codes(pairs) <==> x in codes {
      if x in Codes(pairs) {
        var i :| 0 <= i < |pairs| && Codes(pairs)[i] == x;
        assert pairs[i] in pairs;
      }
      if x in codes {
        var p :| p in pairs && p.code == x;
        var i :| 0 <= i < |pairs| && pairs[i] == p;
        assert Codes(pairs)[i] == x;
      }
    }
  }

  /** The built table maps exactly the kept pairs. */
  lemma KeptRoundTrip(kept: seq<Pair>, pairs: seq<Pair>, m: Mapping)
    requires Ascending(Codes(kept)) && Represents(pairs, m) && forall p :: p in kept ==> p in pairs
    ensures FitsTable(GroupsOf(kept))
    ensures var t := Merged(TableBytes(GroupsOf(kept))); t.Ok? && Represents(kept, t.value)
  {
    hide TableBytes, Merged, GroupsOf;
    TableRoundTrip(kept);
  }

  lemma KeptGlyphs(sorted: seq<Pair>, pairs: seq<Pair>, m: Mapping, built: Mapping, remove: Rune -> bool)
    requires Represents(pairs, m) && Represents(sorted, built)
    requires forall p :: p in sorted <==> p in pairs && !remove(p.code)
    ensures forall c: Rune :: GlyphOf(built, c) == if remove(c) then 0 else GlyphOf(m, c)
  {
    forall c: Rune ensures GlyphOf(built, c) == if remove(c) then 0 else GlyphOf(m, c) {
      var was, now := Pair(c, GlyphOf(m, c)), Pair(c, GlyphOf(built, c));
      if GlyphOf(built, c) != 0 {
        assert now in sorted;
      }
      if GlyphOf(m, c) != 0 && !remove(c) {
        assert was in pairs && was in sorted;
      }
    }
  }

  lemma AdjustedHead(d: seq<byte>, x: u32)
    requires |d| >= 12
    ensures SameButAdjustment(Splice(d, 8, Be32(x)), d)
  {
    hide Be32;
  }

  lemma SubsetFound(f: Font, remove: Rune -> bool, file: seq<byte>, cmap: Table, x: u32)
    requires TAG_CMAP in f.tables
    requires var t := f.tables[TAG_CMAP := cmap]; ParseSpec(file) == Ok(Font(f.version, WithAdjustment(t, x)))
    requires Readable(cmap)
    requires forall c: Rune :: GlyphIn(cmap, c) == if remove(c) then 0 else GlyphIn(f.tables[TAG_CMAP], c)
    ensures IsSubset(f, remove, file)
  {
    hide ParseSpec, Be32, GlyphIn, Readable;
    var t := f.tables[TAG_CMAP := cmap];
    if HasAdjustment(t) {
      AdjustedHead(t[TAG_HEAD], x);
    }
  }

  lemma SameRemoved(f: Font, file: seq<byte>)
    requires TAG_CMAP in f.tables && IsSubset(f, Emoji.IsEmoji, file)
    ensures IsSubset(f, Emoji.InRanges, file)
  {
    hide ParseSpec, GlyphIn, Readable;
    forall c: Rune ensures Emoji.IsEmoji(c) == Emoji.InRanges(c) {
      Emoji.SearchFindsRanges(c);
    }
  }

  /** Emoji are removed: exactly the union of the ranges loses its glyphs. */
  method SubsetEmoji(ttf: seq<byte>) returns (r: Result<seq<byte>, SubsetError>)
    requires RoomFor(ttf, Emoji.IsEmoji)
    ensures match ParseSpec(ttf)
            case Err(e) => r == Err(BadFont(e))
            case Ok(f) =>
              if TAG_CMAP !in f.tables then r == Err(CmapMissing)
              else if !Readable(f.tables[TAG_CMAP]) then
                r.Err? && r.error.BadCmap? && Merged(f.tables[TAG_CMAP]) == Err(r.error.cmap)
              else
                && r.Ok? && IsSubset(f, Emoji.InRanges, r.value)
                && (HasAdjustment(f.tables) ==> Checksum(r.value) == MAGIC)
  {
    hide ParseSpec, Merged, IsSubset, Checksum, RoomFor, Readable;
    r := Subset(ttf, Some(Emoji.IsEmoji));
    var parsed := ParseSpec(ttf);
    if parsed.Ok? && TAG_CMAP in parsed.value.tables && Readable(parsed.value.tables[TAG_CMAP]) {
      SameRemoved(parsed.value, r.value);
    }
  }
}
