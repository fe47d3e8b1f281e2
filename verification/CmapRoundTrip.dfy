/** The built table read by the parser: the pairs come back. */
module CmapRoundTrip {
  import opened Bytes
  import opened Buffers
  import opened Sfnt
  import opened Sorted
  import opened Cmap
  import opened CmapBuild
  import opened CmapTable

  // ----- the fields of the table -----

  /** A 16-bit or 32-bit field read at the seam where it was written. */
  lemma HalfAt(a: seq<byte>, x: u16, c: seq<byte>)
    ensures Half(a + Be16(x) + c, |a|) == x
  {
    var s := a + Be16(x) + c;
    assert s[|a|..|a| + 2] == Be16(x);
    hide Be16;
    U16OfBe16(x);
  }

  lemma WordAt(a: seq<byte>, x: u32, c: seq<byte>)
    ensures Word(a + Be32(x) + c, |a|) == x
  {
    hide Be32, U32;
    var s := a + Be32(x) + c;
    assert s[|a|..|a| + 4] == Be32(x);
    U32OfBe32(x);
  }

  lemma RecordFields(a: seq<byte>, platform: u16, encoding: u16, off: u32, c: seq<byte>)
    ensures var s := a + (Be16(platform) + Be16(encoding) + Be32(off)) + c;
            Half(s, |a|) == platform && Half(s, |a| + 2) == encoding && Word(s, |a| + 4) == off
  {
    hide Be16, Be32, Half, Word;
    var p, e, o := Be16(platform), Be16(encoding), Be32(off);
    var s := a + (p + e + o) + c;
    assert s == a + p + (e + o + c);
    assert s == (a + p) + e + (o + c);
    assert s == (a + p + e) + o + c;
    HalfAt(a, platform, e + o + c);
    HalfAt(a + p, encoding, o + c);
    WordAt(a + p + e, off, c);
  }

  lemma TableFields(rest: seq<byte>)
    ensures var s := Records() + rest;
            && Half(s, 2) == 2
            && Half(s, 4) == 0 && Half(s, 6) == 4 && Word(s, 8) == RECORDS_END
            && Half(s, 12) == 3 && Half(s, 14) == 10 && Word(s, 16) == RECORDS_END
  {
    hide Be16, Be32, Half, Word;
    var s := Records() + rest;
    var r0, r1 := Be16(0) + Be16(4) + Be32(RECORDS_END), Be16(3) + Be16(10) + Be32(RECORDS_END);
    assert s == Be16(0) + Be16(2) + (r0 + r1 + rest);
    HalfAt(Be16(0), 2, r0 + r1 + rest);
    assert s == (Be16(0) + Be16(2)) + r0 + (r1 + rest);
    RecordFields(Be16(0) + Be16(2), 0, 4, RECORDS_END, r1 + rest);
    assert s == (Be16(0) + Be16(2) + r0) + r1 + rest;
    RecordFields(Be16(0) + Be16(2) + r0, 3, 10, RECORDS_END, rest);
  }

  lemma SubFields(n: nat, rest: seq<byte>)
    requires 16 + 12 * n < TWO32
    ensures var s := SubHead(n) + rest; Half(s, 0) == 12 && Word(s, 4) == 16 + 12 * n && Word(s, 12) == n
  {
    hide Be16, Be32, Half, Word;
    var s := SubHead(n) + rest;
    var a, b, c, d, e := Be16(12), Be16(0), Be32(16 + 12 * n), Be32(0), Be32(n);
    assert s == [] + a + (b + c + d + e + rest);
    HalfAt([], 12, b + c + d + e + rest);
    assert s == (a + b) + c + (d + e + rest);
    WordAt(a + b, 16 + 12 * n, d + e + rest);
    assert s == (a + b + c + d) + e + rest;
    WordAt(a + b + c + d, n, rest);
  }

  lemma GroupFields(a: seq<byte>, g: Group, c: seq<byte>)
    ensures var s := a + GroupBytes(g) + c;
            Word(s, |a|) == g.start && Word(s, |a| + 4) == g.end && Word(s, |a| + 8) == g.glyph
  {
    hide Be32, Word;
    var s := a + GroupBytes(g) + c;
    var x, y, z := Be32(g.start), Be32(g.end), Be32(g.glyph);
    assert s == a + x + (y + z + c);
    WordAt(a, g.start, y + z + c);
    assert s == (a + x) + y + (z + c);
    WordAt(a + x, g.end, z + c);
    assert s == (a + x + y) + z + c;
    WordAt(a + x + y, g.glyph, c);
  }

  lemma {:induction false} FlatTwelve(c: seq<seq<byte>>, k: nat)
    requires k <= |c| && forall x <- c :: |x| == 12
    ensures |Flat(c[..k])| == 12 * k
  {
    hide Flat;
    FlatNothing(c);
    if k > 0 {
      FlatTwelve(c, k - 1);
      FlatSnoc(c, k - 1);
    }
  }

  lemma GroupAt(gs: seq<Group>, k: nat)
    requires 16 + 12 * |gs| < TWO32 && k < |gs|
    ensures var s, at := SubtableBytes(gs), 16 + 12 * k;
            && |s| == 16 + 12 * |gs|
            && Word(s, at) == gs[k].start && Word(s, at + 4) == gs[k].end && Word(s, at + 8) == gs[k].glyph
  {
    hide Flat, SubHead, GroupBytes, Word;
    var c, h := GroupChunks(gs), SubHead(|gs|);
    FlatAt(c, k);
    FlatTwelve(c, k);
    FlatTwelve(c, |c|);
    assert c[..|c|] == c;
    var a, rest := h + Flat(c[..k]), Flat(c[k + 1..]);
    assert SubtableBytes(gs) == a + GroupBytes(gs[k]) + rest;
    GroupFields(a, gs[k], rest);
  }

  lemma SubtableLength(gs: seq<Group>)
    requires 16 + 12 * |gs| < TWO32
    ensures |SubtableBytes(gs)| == 16 + 12 * |gs|
  {
    var c := GroupChunks(gs);
    FlatTwelve(c, |c|);
    assert c[..|c|] == c;
  }

  /** A written subtable adds exactly the pairs of its groups. */
  lemma WrittenReads(gs: seq<Group>, out: Mapping)
    requires 16 + 12 * |gs| < TWO32 && forall g <- gs :: g.start <= g.end
    ensures Half(SubtableBytes(gs), 0) == 12
    ensures Format12(SubtableBytes(gs), out) == Ok(PutAll(ExpandAll(gs), out))
  {
    hide Flat, SubHead, Word, Half, GroupChunks;
    var s := SubtableBytes(gs);
    SubtableLength(gs);
    SubFields(|gs|, Flat(GroupChunks(gs)));
    hide SubtableBytes;
    forall k | 0 <= k < |gs|
      ensures Word(s, 16 + 12 * k) == gs[k].start && Word(s, 16 + 12 * k + 4) == gs[k].end
           && Word(s, 16 + 12 * k + 8) == gs[k].glyph
    {
      GroupAt(gs, k);
    }
    assert gs[..0] == [];
    GroupsMap(s, gs, 0, out);
  }

  // ----- the merged mapping -----

  lemma {:induction false} PutAllTwice(pairs: seq<Pair>, out: Mapping)
    requires Ascending(Codes(pairs))
    ensures PutAll(pairs, PutAll(pairs, out)) == PutAll(pairs, out)
  {
    var m := PutAll(pairs, out);
    forall p | p in pairs ensures p.code in m && m[p.code] == p.glyph {
      PutAllHas(pairs, out, p);
    }
    PutAllSame(pairs, m);
  }

  lemma {:induction false} PutAllSame(pairs: seq<Pair>, m: Mapping)
    requires forall p :: p in pairs ==> p.code in m && m[p.code] == p.glyph
    ensures PutAll(pairs, m) == m
  {
    if pairs != [] {
      PutAllSame(pairs[..|pairs| - 1], m);
      assert pairs[|pairs| - 1] in pairs;
    }
  }

  lemma {:induction false} PutAllHas(pairs: seq<Pair>, out: Mapping, p: Pair)
    requires Ascending(Codes(pairs)) && p in pairs
    ensures var m := PutAll(pairs, out); p.code in m && m[p.code] == p.glyph
  {
    var n := |pairs| - 1;
    if pairs[n] != p {
      var k :| 0 <= k < |pairs| && pairs[k] == p;
      assert Codes(pairs)[k] < Codes(pairs)[n];
      assert Codes(pairs[..n]) == Codes(pairs)[..n] && pairs[..n][k] == p;
      PutAllHas(pairs[..n], out, p);
    }
  }

  lemma {:induction false} PutAllKeys(pairs: seq<Pair>, out: Mapping, c: Rune)
    ensures c in PutAll(pairs, out) ==> c in out || exists p :: p in pairs && p.code == c
  {
    if pairs != [] {
      var n := |pairs| - 1;
      PutAllKeys(pairs[..n], out, c);
      assert pairs[n] in pairs;
    }
  }

  lemma PairsRepresented(pairs: seq<Pair>)
    requires Ascending(Codes(pairs)) && forall p :: p in pairs ==> p.glyph != 0
    ensures Represents(pairs, PutAll(pairs, map[]))
  {
    var m := PutAll(pairs, map[]);
    forall p | p in pairs ensures p.code in m && m[p.code] == p.glyph {
      PutAllHas(pairs, map[], p);
    }
    forall c | c in m && m[c] != 0 ensures Pair(c, m[c]) in pairs {
      PutAllKeys(pairs, map[], c);
    }
  }

  /** Both records point at the one subtable, and it is not format 4. */
  lemma TableSubtables(sub: seq<byte>)
    requires |sub| >= 16 && Half(sub, 0) == 12
    ensures var data := Records() + sub;
            && |data| >= 36 && data[RECORDS_END..] == sub && Half(data, 2) == 2
            && Subtable(data, 0, 4) == None && Subtable(data, 1, 4) == None
            && Subtable(data, 0, 12) == Some(RECORDS_END) && Subtable(data, 1, 12) == Some(RECORDS_END)
  {
    hide Records, Word, Half;
    var data := Records() + sub;
    TableFields(sub);
    assert data[RECORDS_END..] == sub;
    FormatOf(data);
  }

  lemma MergedOfTable(gs: seq<Group>)
    requires 16 + 12 * |gs| < TWO32 && forall g <- gs :: g.start <= g.end
    ensures var once := PutAll(ExpandAll(gs), map[]);
            Merged(TableBytes(gs)) == Ok(PutAll(ExpandAll(gs), once))
  {
    hide Records, SubtableBytes, Format12, Word, Half, Subtable, Merged, PutAll, ExpandAll;
    var sub := SubtableBytes(gs);
    var once := PutAll(ExpandAll(gs), map[]);
    SubtableLength(gs);
    WrittenReads(gs, map[]);
    WrittenReads(gs, once);
    TableSubtables(sub);
    PassTwice(TableBytes(gs), sub, once, PutAll(ExpandAll(gs), once));
  }

  lemma FormatOf(data: seq<byte>)
    requires |data| >= RECORDS_END + 2
    ensures Half(data, RECORDS_END) == Half(data[RECORDS_END..], 0)
  {
    assert data[RECORDS_END..RECORDS_END + 2] == data[RECORDS_END..][0..2];
  }

  lemma PassTwice(data: seq<byte>, sub: seq<byte>, once: Mapping, twice: Mapping)
    requires |data| >= 20 && data[RECORDS_END..] == sub && Half(data, 2) == 2
    requires Subtable(data, 0, 4) == None && Subtable(data, 1, 4) == None
    requires Subtable(data, 0, 12) == Some(RECORDS_END) && Subtable(data, 1, 12) == Some(RECORDS_END)
    requires Format12(sub, map[]) == Ok(once) && Format12(sub, once) == Ok(twice)
    ensures Merged(data) == Ok(twice)
  {
    hide Subtable, Half, Format12, Format4;
    assert Pass(data, 2, 2, 4, map[]) == Ok(map[]);
    assert Pass(data, 2, 1, 4, map[]) == Ok(map[]);
    assert Pass(data, 2, 0, 4, map[]) == Ok(map[]);
    assert Pass(data, 2, 2, 12, twice) == Ok(twice);
    assert Pass(data, 2, 1, 12, once) == Ok(twice);
    assert Pass(data, 2, 0, 12, map[]) == Ok(twice);
  }

  /** Parsing the table built from any ascending pairs with glyphs gives exactly those pairs. */
  lemma TableRoundTrip(sorted: seq<Pair>)
    requires Ascending(Codes(sorted)) && forall p :: p in sorted ==> p.glyph != 0
    ensures FitsTable(GroupsOf(sorted))
    ensures var m := Merged(TableBytes(GroupsOf(sorted))); m.Ok? && Represents(sorted, m.value)
  {
    hide TableBytes, Merged, Represents, Ascending, GroupsOf, PutAll, ExpandAll, Extends, Codes;
    var gs := GroupsOf(sorted);
    AscendingFits(sorted);
    GroupsAreTight(sorted);
    GroupsExpand(sorted);
    MergedOfTable(gs);
    PutAllTwice(sorted, map[]);
    PairsRepresented(sorted);
  }

  /** The same for any list of distinct code points, sorted or not, through the two methods. */
  method BuildThenParse(pairs: seq<Pair>) returns (r: Result<seq<Pair>, CmapError>)
    requires DistinctCodes(pairs) && forall p :: p in pairs ==> p.glyph != 0
    ensures r.Ok? && Ascending(Codes(r.value)) && forall p :: p in r.value <==> p in pairs
  {
    hide TableBytes, Merged, Represents, Ascending, GroupsOf, DistinctCodes;
    DistinctFit(pairs);
    var table := BuildFormat12(pairs);
    ghost var sorted :| Built(pairs, table, sorted);
    SortedIsAscending(sorted, pairs);
    TableRoundTrip(sorted);
    r := ParseUnicode(table);
    RepresentsIsUnique(r.value, sorted, Merged(table).value);
  }
}
