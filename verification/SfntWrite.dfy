/** Writing a font file: the layout as a value, the in-place writer, and what a parser finds in it. */
module SfntWrite {
  import opened Bytes
  import opened Buffers
  import opened Sfnt
  import opened Sorted

  // ----- the layout -----

  function Padding(n: nat): nat { (4 - n % 4) % 4 }

  function Padded(d: seq<byte>): (p: seq<byte>)
    ensures |p| % 4 == 0 && |p| == |d| + Padding(|d|)
  {
    d + Zeros(Padding(|d|))
  }

  predicate Listed(tags: seq<u32>, t: map<u32, Table>) {
    forall tag <- tags :: tag in t
  }

  function Chunks(tags: seq<u32>, t: map<u32, Table>): (c: seq<seq<byte>>)
    requires Listed(tags, t)
    ensures |c| == |tags| && forall x <- c :: |x| % 4 == 0
  {
    seq(|tags|, i requires 0 <= i < |tags| => Padded(t[tags[i]]))
  }

  /** Where the k-th table starts. */
  function Offset(tags: seq<u32>, t: map<u32, Table>, k: nat): nat
    requires Listed(tags, t) && k <= |tags|
  {
    12 + 16 * |tags| + |Flat(Chunks(tags, t)[..k])|
  }

  function Total(tags: seq<u32>, t: map<u32, Table>): nat
    requires Listed(tags, t)
  {
    Offset(tags, t, |tags|)
  }

  function SearchFields(n: nat): (h: seq<byte>)
    requires n < 0x8000
    ensures |h| == 6
  {
    Be16(SearchRange(n)) + Be16(Log2(n) % TWO16) + Be16(RangeShift(n))
  }

  function Header(version: u32, n: nat): (h: seq<byte>)
    requires n < 0x8000
    ensures |h| == 12
  {
    Be32(version) + Be16(n) + SearchFields(n)
  }

  function Entry(tag: u32, sum: u32, off: nat, len: nat): (e: seq<byte>)
    requires off < TWO32 && len < TWO32
    ensures |e| == 16
  {
    Be32(tag) + Be32(sum) + Be32(off) + Be32(len)
  }

  predicate Fits(tags: seq<u32>, t: map<u32, Table>) {
    Listed(tags, t) && |tags| < 0x8000 && Total(tags, t) < TWO32
  }

  lemma OffsetMono(tags: seq<u32>, t: map<u32, Table>, k: nat)
    requires Listed(tags, t) && k < |tags|
    ensures Offset(tags, t, k + 1) == Offset(tags, t, k) + |Padded(t[tags[k]])| <= Total(tags, t)
    ensures Offset(tags, t, k) % 4 == 0
  {
    hide Flat, Padded;
    var c := Chunks(tags, t);
    assert c[..|tags|] == c && c[k] == Padded(t[tags[k]]);
    FlatLengths(c, k);
  }

  /** The directory; the first `done` entries already carry the checksum of their table. */
  function Entries(tags: seq<u32>, t: map<u32, Table>, done: nat): (es: seq<seq<byte>>)
    requires Fits(tags, t)
    ensures |es| == |tags| && forall e <- es :: |e| == 16
  {
    seq(|tags|, i requires 0 <= i < |tags| =>
      OffsetMono(tags, t, i);
      Entry(tags[i], if i < done then Checksum(t[tags[i]]) else 0, Offset(tags, t, i), |t[tags[i]]|))
  }

  /** A whole file: header, directory, padded tables. */
  function Image(version: u32, tags: seq<u32>, entries: seq<seq<byte>>, t: map<u32, Table>): seq<byte>
    requires Listed(tags, t) && |tags| < 0x8000
  {
    Header(version, |tags|) + Flat(entries) + Flat(Chunks(tags, t))
  }

  // ----- the head table -----

  predicate HasAdjustment(t: map<u32, Table>) {
    TAG_HEAD in t && |t[TAG_HEAD]| >= 12
  }

  /** The tables with the checksum adjustment of `head` set to a value, if it has one. */
  function WithAdjustment(t: map<u32, Table>, x: u32): map<u32, Table> {
    if HasAdjustment(t) then t[TAG_HEAD := Splice(t[TAG_HEAD], 8, Be32(x))] else t
  }

  function Zeroed(t: map<u32, Table>): map<u32, Table> { WithAdjustment(t, 0) }

  lemma AdjustmentKeepsLayout(tags: seq<u32>, t: map<u32, Table>, x: u32)
    requires Listed(tags, t)
    ensures var w := WithAdjustment(t, x);
            && w.Keys == t.Keys && HasAdjustment(w) == HasAdjustment(t) && Listed(tags, w) && Total(tags, w) == Total(tags, t)
            && (forall k <- t :: |w[k]| == |t[k]|)
            && (forall k | 0 <= k <= |tags| :: Offset(tags, w, k) == Offset(tags, t, k))
  {
    var w := WithAdjustment(t, x);
    forall k | 0 <= k <= |tags| ensures Offset(tags, w, k) == Offset(tags, t, k) {
      SameLengths(Chunks(tags, w)[..k], Chunks(tags, t)[..k]);
    }
  }

  lemma {:induction false} SameLengths(xs: seq<seq<byte>>, ys: seq<seq<byte>>)
    requires |xs| == |ys| && forall i | 0 <= i < |xs| :: |xs[i]| == |ys[i]|
    ensures |Flat(xs)| == |Flat(ys)|
  {
    if xs != [] {
      SameLengths(xs[1..], ys[1..]);
    }
  }

  /** The file before the adjustment is filled in. */
  function Draft(f: Font, tags: seq<u32>): seq<byte>
    requires Fits(tags, f.tables)
  {
    var z := Zeroed(f.tables);
    AdjustmentKeepsLayout(tags, f.tables, 0);
    Image(f.version, tags, Entries(tags, z, |tags|), z)
  }

  function Adjustment(f: Font, tags: seq<u32>): u32
    requires Fits(tags, f.tables)
  {
    Lack(MAGIC, Checksum(Draft(f, tags)))
  }

  /** The finished file: checksums over the zeroed tables, the adjustment in place. */
  function SerializeSpec(f: Font, tags: seq<u32>): (b: seq<byte>)
    requires Fits(tags, f.tables)
    ensures |b| == Total(tags, f.tables) >= 12 + 16 * |tags|
  {
    var z, final := Zeroed(f.tables), WithAdjustment(f.tables, Adjustment(f, tags));
    AdjustmentKeepsLayout(tags, f.tables, 0);
    AdjustmentKeepsLayout(tags, f.tables, Adjustment(f, tags));
    ImageLength(f.version, tags, Entries(tags, z, |tags|), final);
    Image(f.version, tags, Entries(tags, z, |tags|), final)
  }

  /** Filling in one checksum moves the directory one entry further. */
  lemma EntrySplice(version: u32, tags: seq<u32>, t: map<u32, Table>, i: nat)
    requires Fits(tags, t) && i < |tags|
    ensures |Image(version, tags, Entries(tags, t, i), t)| == Total(tags, t) >= 12 + 16 * |tags|
    ensures Splice(Image(version, tags, Entries(tags, t, i), t), 12 + 16 * i + 4, Be32(Checksum(t[tags[i]])))
            == Image(version, tags, Entries(tags, t, i + 1), t)
  {
    hide Flat, Splice, Checksum, Be32, Header, Chunks, Entries, Offset;
    var es := Entries(tags, t, i);
    var w := Be32(Checksum(t[tags[i]]));
    NextEntry(tags, t, i);
    FlatFixed(es, i);
    FlatFixed(es, |es|);
    assert es[..|es|] == es;
    FlatUpdate(es, i, 4, w);
    SpliceInto(Header(version, |tags|), Flat(es), Flat(Chunks(tags, t)), 16 * i + 4, w);
    ImageLength(version, tags, es, t);
  }

  lemma NextEntry(tags: seq<u32>, t: map<u32, Table>, i: nat)
    requires Fits(tags, t) && i < |tags|
    ensures var es := Entries(tags, t, i);
            Entries(tags, t, i + 1) == es[i := Splice(es[i], 4, Be32(Checksum(t[tags[i]])))]
  {
    hide Offset, Splice, Checksum, Be32, Entry;
    OffsetMono(tags, t, i);
    EntrySum(tags[i], Checksum(t[tags[i]]), Offset(tags, t, i), |t[tags[i]]|);
  }

  lemma EntrySum(tag: u32, sum: u32, off: nat, len: nat)
    requires off < TWO32 && len < TWO32
    ensures Splice(Entry(tag, 0, off, len), 4, Be32(sum)) == Entry(tag, sum, off, len)
  {
    hide Be32;
  }

  lemma ImageLength(version: u32, tags: seq<u32>, es: seq<seq<byte>>, t: map<u32, Table>)
    requires Listed(tags, t) && |tags| < 0x8000 && |es| == |tags| && forall e <- es :: |e| == 16
    ensures |Image(version, tags, es, t)| == Total(tags, t)
  {
    hide Flat, Header;
    FrontLength(version, tags, es);
    var c := Chunks(tags, t);
    assert c[..|tags|] == c;
  }

  /** Every table is found whole at its offset. */
  lemma TableAt(version: u32, tags: seq<u32>, es: seq<seq<byte>>, t: map<u32, Table>, k: nat)
    requires Listed(tags, t) && |tags| < 0x8000 && |es| == |tags| && forall e <- es :: |e| == 16
    requires k < |tags|
    ensures var b, off, d := Image(version, tags, es, t), Offset(tags, t, k), t[tags[k]];
            off + |d| <= |b| && b[off..off + |d|] == d
  {
    hide Flat, Header, Zeros, Padding, Padded, Chunks;
    var c, front := Chunks(tags, t), Header(version, |tags|) + Flat(es);
    FlatAt(c, k);
    FrontLength(version, tags, es);
    ChunkStarts(tags, t, k);
    var x, last := c[k], Flat(c[k + 1..]);
    Inside(front, Flat(c[..k]), t[tags[k]], x[|t[tags[k]]|..], last);
    assert t[tags[k]] + x[|t[tags[k]]|..] == x;
  }

  lemma ChunkStarts(tags: seq<u32>, t: map<u32, Table>, k: nat)
    requires Listed(tags, t) && k < |tags|
    ensures var d, x := t[tags[k]], Chunks(tags, t)[k]; |d| <= |x| && x[..|d|] == d
  {
  }

  lemma FrontLength(version: u32, tags: seq<u32>, es: seq<seq<byte>>)
    requires |tags| < 0x8000 && |es| == |tags| && forall e <- es :: |e| == 16
    ensures |Header(version, |tags|) + Flat(es)| == 12 + 16 * |tags|
  {
    hide Flat, Header;
    FlatFixed(es, |es|);
    assert es[..|es|] == es;
  }

  lemma Inside(front: seq<byte>, a: seq<byte>, d: seq<byte>, p: seq<byte>, c: seq<byte>)
    ensures var b, at := front + (a + (d + p) + c), |front| + |a|;
            at + |d| <= |b| && b[at..at + |d|] == d
  {
    var b := front + (a + (d + p) + c);
    assert b == (front + a) + d + (p + c);
  }

  predicate Distinct(tags: seq<u32>) {
    forall i, j :: 0 <= i < j < |tags| ==> tags[i] != tags[j]
  }

  /** Writing the adjustment into the file is writing it into the `head` table. */
  lemma HeadSplice(version: u32, tags: seq<u32>, es: seq<seq<byte>>, t: map<u32, Table>, h: nat, x: u32)
    requires Listed(tags, t) && |tags| < 0x8000 && |es| == |tags| && forall e <- es :: |e| == 16
    requires Distinct(tags) && h < |tags| && tags[h] == TAG_HEAD && HasAdjustment(t)
    ensures Listed(tags, WithAdjustment(t, x))
    ensures Offset(tags, t, h) + 12 <= |Image(version, tags, es, t)|
    ensures Splice(Image(version, tags, es, t), Offset(tags, t, h) + 8, Be32(x))
            == Image(version, tags, es, WithAdjustment(t, x))
  {
    hide Flat, Header, Be32, Splice, Padded, Chunks, WithAdjustment;
    var c := Chunks(tags, t);
    HeadChunk(tags, t, h, x);
    FlatUpdate(c, h, 8, Be32(x));
    FrontLength(version, tags, es);
    SpliceLast(Header(version, |tags|) + Flat(es), Flat(c), |Flat(c[..h])| + 8, Be32(x));
  }

  lemma HeadChunk(tags: seq<u32>, t: map<u32, Table>, h: nat, x: u32)
    requires Listed(tags, t) && Distinct(tags) && h < |tags| && tags[h] == TAG_HEAD && HasAdjustment(t)
    ensures Listed(tags, WithAdjustment(t, x)) && 12 <= |Chunks(tags, t)[h]|
    ensures Chunks(tags, WithAdjustment(t, x))
            == Chunks(tags, t)[h := Splice(Chunks(tags, t)[h], 8, Be32(x))]
  {
    hide Be32, Splice, Padded;
    PaddedSplice(t[TAG_HEAD], 8, Be32(x));
  }

  lemma PaddedSplice(d: seq<byte>, at: nat, p: seq<byte>)
    requires at + |p| <= |d|
    ensures Padded(Splice(d, at, p)) == Splice(Padded(d), at, p)
  {
  }

  lemma AdjustTwice(t: map<u32, Table>, x: u32, y: u32)
    ensures WithAdjustment(WithAdjustment(t, x), y) == WithAdjustment(t, y)
  {
    hide Be32;
    if HasAdjustment(t) {
      var d := t[TAG_HEAD];
      assert Splice(Splice(d, 8, Be32(x)), 8, Be32(y)) == Splice(d, 8, Be32(y));
    }
  }

  // ----- the writer, stage by stage -----

  method PutHeader(out: array<byte>, version: u32, n: nat)
    requires 12 <= out.Length && n < 0x8000
    requires out[..] == Zeros(out.Length)
    modifies out
    ensures out[..] == Header(version, n) + Zeros(out.Length - 12)
  {
    hide Zeros, Be16, Be32, SearchFields, SearchRange, RangeShift, Log2, Splice;
    var fields := SearchFieldBytes(n);
    PutFirst(out, Be32(version));
    PutNext(out, Be32(version), 4, Be16(n));
    PutNext(out, Be32(version) + Be16(n), 6, fields);
  }

  /** The three search fields; the source puts them one by one. */
  method SearchFieldBytes(n: nat) returns (b: seq<byte>)
    requires n < 0x8000
    ensures b == SearchFields(n)
  {
    hide Be16, SearchRange, RangeShift, Log2;
    Log2Small(n);
    var range, selector, shift := DirSearchParams(n);
    b := Be16(range) + Be16(selector) + Be16(shift);
  }

  lemma Log2Small(n: nat)
    requires n < 0x8000
    ensures Log2(n) < TWO16
  {
    if n > 0 {
      Log2Bounds(n);
      PowAbove(Log2(n));
    }
  }

  lemma {:induction false} PowAbove(e: nat)
    ensures Pow2(e) > e
  {
    if e > 0 {
      PowAbove(e - 1);
    }
  }

  /** The tag, offset and length of one directory entry; the checksum stays zero for now. */
  method PutEntry(out: array<byte>, ghost a: seq<byte>, ghost m: nat, tag: u32, off: nat, len: nat, at: nat)
    requires off < TWO32 && len < TWO32 && at == |a| && m >= 16
    requires out[..] == a + Zeros(m)
    modifies out
    ensures out[..] == a + Entry(tag, 0, off, len) + Zeros(m - 16)
  {
    hide Zeros, Splice, Be32;
    assert out.Length == |a| + m;
    PutNext(out, a, at, Be32(tag));
    ghost var a1 := a + Be32(tag);
    Put(out, at + 8, Be32(off));
    SpliceSkip(a1, m - 4, 4, Be32(off));
    ghost var a2 := a1 + Zeros(4) + Be32(off);
    PutNext(out, a2, at + 12, Be32(len));
    ZeroWord();
    assert a2 + Be32(len) == a + Entry(tag, 0, off, len);
  }

  lemma ZeroWord()
    ensures Zeros(4) == Be32(0)
  {
  }

  ghost predicate OffsetsFor(offsets: map<u32, u32>, tags: seq<u32>, t: map<u32, Table>, n: nat)
    requires Listed(tags, t) && n <= |tags|
  {
    forall k | 0 <= k < n :: tags[k] in offsets && offsets[tags[k]] == Offset(tags, t, k)
  }

  method ComputeOffsets(tags: seq<u32>, t: map<u32, Table>) returns (offsets: map<u32, u32>, size: nat)
    requires Fits(tags, t) && Distinct(tags)
    ensures OffsetsFor(offsets, tags, t, |tags|) && size == Total(tags, t)
  {
    hide Offset, Padded, Chunks, Flat, OffsetsFor, Aligned, Padding;
    offsets := map[];
    var pos: nat := 12 + |tags| * 16;
    NoOffsets(tags, t);
    StartAligned(|tags|);
    for i := 0 to |tags|
      invariant Aligned(pos) == Offset(tags, t, i)
      invariant OffsetsFor(offsets, tags, t, i)
    {
      OffsetMono(tags, t, i);
      RoundUp(Offset(tags, t, i), |t[tags[i]]|);
      pos := Aligned(pos);
      NextOffset(offsets, tags, t, i, pos);
      offsets := offsets[tags[i] := pos];
      pos := pos + |t[tags[i]]|;
    }
    size := Aligned(pos);
  }

  /** The next multiple of four. */
  function Aligned(pos: nat): nat { (pos + 3) / 4 * 4 }

  lemma StartAligned(n: nat)
    ensures Aligned(12 + n * 16) == 12 + 16 * n
  {
  }

  lemma NoOffsets(tags: seq<u32>, t: map<u32, Table>)
    requires Listed(tags, t)
    ensures Offset(tags, t, 0) == 12 + 16 * |tags| && OffsetsFor(map[], tags, t, 0)
  {
    FlatNothing(Chunks(tags, t));
  }

  lemma NextOffset(offsets: map<u32, u32>, tags: seq<u32>, t: map<u32, Table>, i: nat, pos: u32)
    requires Listed(tags, t) && Distinct(tags) && i < |tags| && OffsetsFor(offsets, tags, t, i)
    requires pos == Offset(tags, t, i)
    ensures OffsetsFor(offsets[tags[i] := pos], tags, t, i + 1)
  {
    hide Offset;
  }

  lemma RoundUp(a: nat, n: nat)
    requires a % 4 == 0
    ensures Aligned(a) == a && Aligned(a + n) == a + n + Padding(n)
  {
  }

  method PutDirectory(out: array<byte>, tags: seq<u32>, t: map<u32, Table>, offsets: map<u32, u32>, ghost h: seq<byte>)
    requires Fits(tags, t) && OffsetsFor(offsets, tags, t, |tags|)
    requires |h| == 12 && 12 + 16 * |tags| <= out.Length && out[..] == h + Zeros(out.Length - 12)
    modifies out
    ensures out[..] == h + Flat(Entries(tags, t, 0)) + Zeros(out.Length - 12 - 16 * |tags|)
  {
    hide Flat, Zeros, Entry, Padded, Chunks, Offset, Checksum;
    ghost var es := Entries(tags, t, 0);
    FlatNothing(es);
    assert h + [] == h;
    for i := 0 to |tags|
      invariant out[..] == h + Flat(es[..i]) + Zeros(out.Length - 12 - 16 * i)
    {
      FlatFixed(es, i);
      FlatSnoc(es, i);
      OffsetMono(tags, t, i);
      PutEntry(out, h + Flat(es[..i]), out.Length - 12 - 16 * i,
               tags[i], offsets[tags[i]], |t[tags[i]]|, 12 + i * 16);
      assert h + Flat(es[..i]) + es[i] == h + Flat(es[..i + 1]);
    }
    assert es[..|tags|] == es;
  }

  /** Copying a table leaves its padding zero. */
  method PutTable(out: array<byte>, ghost a: seq<byte>, at: nat, d: seq<byte>)
    requires at == |a| && at + |Padded(d)| <= out.Length && out[..] == a + Zeros(out.Length - at)
    modifies out
    ensures out[..] == a + Padded(d) + Zeros(out.Length - at - |Padded(d)|)
  {
    ghost var left, pad := out.Length - at, Padding(|d|);
    PutNext(out, a, at, d);
    ZerosSplit(left - |d|, pad);
    hide Zeros, Splice;
    assert a + d + (Zeros(pad) + Zeros(left - |d| - pad)) == a + (d + Zeros(pad)) + Zeros(left - |d| - pad);
  }

  method CopyTables(out: array<byte>, tags: seq<u32>, t: map<u32, Table>, offsets: map<u32, u32>, ghost a: seq<byte>)
    requires Fits(tags, t) && OffsetsFor(offsets, tags, t, |tags|)
    requires |a| == 12 + 16 * |tags| && out.Length == Total(tags, t)
    requires out[..] == a + Zeros(out.Length - |a|)
    modifies out
    ensures out[..] == a + Flat(Chunks(tags, t))
  {
    hide Flat, Zeros;
    ghost var c := Chunks(tags, t);
    FlatNothing(c);
    assert a + [] == a;
    for i := 0 to |tags|
      invariant Offset(tags, t, i) <= out.Length
      invariant out[..] == a + Flat(c[..i]) + Zeros(out.Length - Offset(tags, t, i))
    {
      FlatSnoc(c, i);
      OffsetMono(tags, t, i);
      PutTable(out, a + Flat(c[..i]), offsets[tags[i]], t[tags[i]]);
      assert a + Flat(c[..i]) + c[i] == a + Flat(c[..i + 1]);
    }
    assert c[..|tags|] == c;
    ZerosSplit(0, 0);
    assert a + Flat(c) + [] == a + Flat(c);
  }

  method PutChecksums(out: array<byte>, version: u32, tags: seq<u32>, t: map<u32, Table>, offsets: map<u32, u32>)
    requires Fits(tags, t) && OffsetsFor(offsets, tags, t, |tags|)
    requires out[..] == Image(version, tags, Entries(tags, t, 0), t)
    modifies out
    ensures out[..] == Image(version, tags, Entries(tags, t, |tags|), t)
  {
    hide Image, Entries, Splice, Checksum, Be32, Offset;
    for i := 0 to |tags|
      invariant out[..] == Image(version, tags, Entries(tags, t, i), t)
    {
      var off, len := offsets[tags[i]], |t[tags[i]]|;
      TableAt(version, tags, Entries(tags, t, i), t, i);
      var sum := TableChecksum(out[off..off + len]);
      EntrySplice(version, tags, t, i);
      Put(out, 12 + i * 16 + 4, Be32(sum));
    }
  }

  /** What a caller must bring: fewer than 32768 tables and a file below 4 GiB. */
  ghost predicate Writable(f: Font) {
    forall tags: seq<u32> :: Lists(tags, f.tables.Keys) ==> Fits(tags, f.tables)
  }

  lemma ListsIsDistinct(tags: seq<u32>, t: map<u32, Table>)
    requires Lists(tags, t.Keys)
    ensures Distinct(tags) && Listed(tags, t)
  {
  }

  /** The file holds the tables in ascending order of their tags. */
  ghost predicate Written(f: Font, file: seq<byte>, tags: seq<u32>) {
    Lists(tags, f.tables.Keys) && Fits(tags, f.tables) && file == SerializeSpec(f, tags)
  }

  method Serialize(f: Font) returns (file: seq<byte>)
    requires Writable(f)
    ensures exists tags :: Written(f, file, tags)
  {
    var sorted := SortedKeys(f.tables.Keys);
    AllTags(sorted, f.tables);
    var order := Narrow(sorted);
    ListsIsDistinct(order, f.tables);
    hide Lists, Entries, Fits, Header, Zeroed;
    file := WriteTables(f, order);
    assert Written(f, file, order);
  }

  lemma AllTags(xs: seq<nat>, t: map<u32, Table>)
    requires Lists(xs, t.Keys)
    ensures forall i :: 0 <= i < |xs| ==> xs[i] < TWO32
  {
    forall i | 0 <= i < |xs| ensures xs[i] < TWO32 {
      assert xs[i] in xs && xs[i] in t.Keys;
    }
  }

  function Narrow(xs: seq<nat>): (r: seq<u32>)
    requires forall i :: 0 <= i < |xs| ==> xs[i] < TWO32
    ensures r == xs
  {
    if xs == [] then [] else
    var x: u32 := xs[0];
    [x] + Narrow(xs[1..])
  }

  method WriteTables(f: Font, tags: seq<u32>) returns (file: seq<byte>)
    requires Fits(tags, f.tables) && Distinct(tags) && forall k :: k in f.tables ==> k in tags
    ensures file == SerializeSpec(f, tags)
  {
    hide Header, Zeros, Entries, SerializeSpec, Offset, Flat, Chunks, Lists;
    var t := f.tables;
    var offsets, size := ComputeOffsets(tags, t);
    var out := NewBuffer(size);
    OffsetStart(tags, t, |tags|);
    PutHeader(out, f.version, |tags|);
    ghost var h := Header(f.version, |tags|);
    PutDirectory(out, tags, t, offsets, h);
    DirectoryLength(tags, t);
    CopyTables(out, tags, t, offsets, h + Flat(Entries(tags, t, 0)));
    assert out[..] == Image(f.version, tags, Entries(tags, t, 0), t);
    file := Finish(out, f, tags, offsets);
  }

  method NewBuffer(size: nat) returns (out: array<byte>)
    ensures fresh(out) && out[..] == Zeros(size)
  {
    out := new byte[size](_ => 0);
  }

  lemma DirectoryLength(tags: seq<u32>, t: map<u32, Table>)
    requires Fits(tags, t)
    ensures |Flat(Entries(tags, t, 0))| == 16 * |tags|
  {
    var es := Entries(tags, t, 0);
    FlatFixed(es, |es|);
    assert es[..|es|] == es;
  }

  lemma SameEntries(tags: seq<u32>, t: map<u32, Table>, x: u32)
    requires Fits(tags, t)
    ensures Fits(tags, WithAdjustment(t, x)) && Entries(tags, WithAdjustment(t, x), 0) == Entries(tags, t, 0)
  {
    hide Flat, Entry, Checksum, Splice;
    AdjustmentKeepsLayout(tags, t, x);
  }

  /** Zero the adjustment, fill in the checksums, then set the adjustment from the whole. */
  method Finish(out: array<byte>, f: Font, tags: seq<u32>, offsets: map<u32, u32>) returns (file: seq<byte>)
    requires Fits(tags, f.tables) && Distinct(tags) && forall k :: k in f.tables ==> k in tags
    requires OffsetsFor(offsets, tags, f.tables, |tags|)
    requires out[..] == Image(f.version, tags, Entries(tags, f.tables, 0), f.tables)
    modifies out
    ensures file == SerializeSpec(f, tags)
  {
    var t, z := f.tables, Zeroed(f.tables);
    hide Image, Entries, Splice, Be32, Checksum, Offset;
    AdjustmentKeepsLayout(tags, t, 0);
    SameEntries(tags, t, 0);
    var adjusts := TAG_HEAD in t && |t[TAG_HEAD]| >= 12;
    if adjusts {
      ghost var h :| 0 <= h < |tags| && tags[h] == TAG_HEAD;
      HeadSplice(f.version, tags, Entries(tags, t, 0), t, h, 0);
      var headOff: nat := offsets[TAG_HEAD];
      Put(out, headOff + 8, Be32(0));
    }
    PutChecksums(out, f.version, tags, z, offsets);
    if adjusts {
      var whole := TableChecksum(out[..]);
      var x := Lack(MAGIC, whole);
      ghost var h :| 0 <= h < |tags| && tags[h] == TAG_HEAD;
      HeadSplice(f.version, tags, Entries(tags, z, |tags|), z, h, x);
      AdjustTwice(t, 0, x);
      var headOff: nat := offsets[TAG_HEAD];
      Put(out, headOff + 8, Be32(x));
    }
    file := out[..];
  }

  // ----- what a parser finds -----

  lemma SerializedIsImage(f: Font, tags: seq<u32>)
    requires Fits(tags, f.tables)
    ensures var z, final := Zeroed(f.tables), WithAdjustment(f.tables, Adjustment(f, tags));
            && Fits(tags, z) && Fits(tags, final)
            && SerializeSpec(f, tags) == Image(f.version, tags, Entries(tags, z, |tags|), final)
  {
    hide Image, Entries;
    AdjustmentKeepsLayout(tags, f.tables, 0);
    AdjustmentKeepsLayout(tags, f.tables, Adjustment(f, tags));
  }

  lemma DraftIsImage(f: Font, tags: seq<u32>)
    requires Fits(tags, f.tables)
    ensures var z := Zeroed(f.tables);
            Fits(tags, z) && Draft(f, tags) == Image(f.version, tags, Entries(tags, z, |tags|), z)
  {
    hide Image, Entries;
    AdjustmentKeepsLayout(tags, f.tables, 0);
  }

  /** Setting the adjustment is one aligned word of the draft. */
  lemma DraftSplice(f: Font, tags: seq<u32>, h: nat, x: u32)
    requires Distinct(tags) && Fits(tags, f.tables) && HasAdjustment(f.tables)
    requires h < |tags| && tags[h] == TAG_HEAD
    ensures var z, at := Zeroed(f.tables), Offset(tags, f.tables, h) + 8;
            && Fits(tags, z) && Listed(tags, WithAdjustment(f.tables, x))
            && at % 4 == 0 && at + 4 <= |Draft(f, tags)|
            && Splice(Draft(f, tags), at, Be32(x))
               == Image(f.version, tags, Entries(tags, z, |tags|), WithAdjustment(f.tables, x))
  {
    hide Draft, Entries, Image, Splice, WithAdjustment, Offset, Be32, Fits, Flat;
    var z := Zeroed(f.tables);
    DraftIsImage(f, tags);
    FitsSmall(tags, f.tables);
    AdjustmentKeepsLayout(tags, f.tables, x);
    AdjustmentKeepsLayout(tags, f.tables, 0);
    OffsetMono(tags, f.tables, h);
    AdjustTwice(f.tables, 0, x);
    HeadSplice(f.version, tags, Entries(tags, z, |tags|), z, h, x);
  }

  lemma FitsSmall(tags: seq<u32>, t: map<u32, Table>)
    requires Fits(tags, t)
    ensures Listed(tags, t) && |tags| < 0x8000
  {
  }

  /** The finished file sums to the constant OpenType prescribes whenever `head` has room for the adjustment. */
  lemma FileSumsToMagic(f: Font, tags: seq<u32>)
    requires Lists(tags, f.tables.Keys) && Fits(tags, f.tables) && HasAdjustment(f.tables)
    ensures Checksum(SerializeSpec(f, tags)) == MAGIC
  {
    hide Draft, Entries, Image, Splice, WithAdjustment, SerializeSpec, Offset, Lists, Fits, Checksum, Be32;
    var h := HeadIndex(tags, f.tables);
    DraftSplice(f, tags, h, 0);
    DraftSplice(f, tags, h, Adjustment(f, tags));
    DraftIsImage(f, tags);
    SerializedIsImage(f, tags);
    SpliceFixes(Draft(f, tags), Offset(tags, f.tables, h) + 8, Adjustment(f, tags));
  }

  lemma HeadIndex(tags: seq<u32>, t: map<u32, Table>) returns (h: nat)
    requires Lists(tags, t.Keys) && HasAdjustment(t)
    ensures Distinct(tags) && Listed(tags, t) && h < |tags| && tags[h] == TAG_HEAD
  {
    ListsIsDistinct(tags, t);
    assert TAG_HEAD in tags;
    h :| 0 <= h < |tags| && tags[h] == TAG_HEAD;
  }

  lemma SpliceFixes(draft: seq<byte>, at: nat, x: u32)
    requires at % 4 == 0 && at + 4 <= |draft| && Splice(draft, at, Be32(0)) == draft
    requires x == Lack(MAGIC, Checksum(draft))
    ensures Checksum(Splice(draft, at, Be32(x))) == MAGIC
  {
    hide Be32, Checksum, Lack;
    ChecksumAdjusts(draft[..at], draft[at + 4..], MAGIC);
  }

  lemma HeaderFields(version: u32, n: nat, more: seq<byte>)
    requires n < 0x8000
    ensures var b := Header(version, n) + more; Word(b, 0) == version && Half(b, 4) == n
  {
    var b := Header(version, n) + more;
    assert b[0..4] == Be32(version) && b[4..6] == Be16(n);
    hide Header;
    U32OfBe32(version);
    U16OfBe16(n);
  }

  lemma SliceInside(a: seq<byte>, e: seq<byte>, c: seq<byte>, k: nat)
    requires k + 4 <= |e|
    ensures (a + e + c)[|a| + k..|a| + k + 4] == e[k..k + 4]
  {
  }

  lemma EntryFields(a: seq<byte>, tag: u32, sum: u32, off: nat, len: nat, c: seq<byte>)
    requires off < TWO32 && len < TWO32
    ensures var b := a + Entry(tag, sum, off, len) + c;
            && Word(b, |a|) == tag && Word(b, |a| + 4) == sum
            && Word(b, |a| + 8) == off && Word(b, |a| + 12) == len
  {
    var b, e := a + Entry(tag, sum, off, len) + c, Entry(tag, sum, off, len);
    SliceInside(a, e, c, 0);
    SliceInside(a, e, c, 4);
    SliceInside(a, e, c, 8);
    SliceInside(a, e, c, 12);
    assert e[0..4] == Be32(tag) && e[4..8] == Be32(sum) && e[8..12] == Be32(off) && e[12..16] == Be32(len);
    U32OfBe32(tag);
    U32OfBe32(sum);
    U32OfBe32(off);
    U32OfBe32(len);
  }

  /** The k-th directory entry of a finished file, read back. */
  lemma EntryAt(version: u32, tags: seq<u32>, z: map<u32, Table>, t: map<u32, Table>, k: nat)
    requires Fits(tags, z) && Listed(tags, t) && k < |tags|
    ensures var b, at := Image(version, tags, Entries(tags, z, |tags|), t), 12 + 16 * k;
            && at + 16 <= |b|
            && Word(b, at) == tags[k] && Word(b, at + 4) == Checksum(z[tags[k]])
            && Word(b, at + 8) == Offset(tags, z, k) && Word(b, at + 12) == |z[tags[k]]|
  {
    hide Flat, Header, Entry, Word, Checksum, Chunks, Entries, Offset;
    var es, h := Entries(tags, z, |tags|), Header(version, |tags|);
    FlatAt(es, k);
    FlatFixed(es, k);
    var a, c := h + Flat(es[..k]), Flat(es[k + 1..]) + Flat(Chunks(tags, t));
    EntryIs(tags, z, k);
    EntryFields(a, tags[k], Checksum(z[tags[k]]), Offset(tags, z, k), |z[tags[k]]|, c);
    Regroup(h, Flat(es[..k]), es[k], Flat(es[k + 1..]), Flat(Chunks(tags, t)));
  }

  lemma EntryIs(tags: seq<u32>, z: map<u32, Table>, k: nat)
    requires Fits(tags, z) && k < |tags|
    ensures Offset(tags, z, k) + |z[tags[k]]| < TWO32
    ensures Entries(tags, z, |tags|)[k] == Entry(tags[k], Checksum(z[tags[k]]), Offset(tags, z, k), |z[tags[k]]|)
  {
    hide Offset, Checksum, Entry;
    OffsetMono(tags, z, k);
  }

  lemma Regroup(h: seq<byte>, a: seq<byte>, x: seq<byte>, c: seq<byte>, d: seq<byte>)
    ensures h + (a + x + c) + d == h + a + x + (c + d)
  {
  }

  function Restrict(t: map<u32, Table>, tags: seq<u32>): map<u32, Table>
    requires Listed(tags, t)
  {
    map k | k in tags :: t[k]
  }

  lemma {:induction false} EntriesParse(b: seq<byte>, tags: seq<u32>, t: map<u32, Table>, i: nat)
    requires Listed(tags, t) && i <= |tags| && 12 + 16 * |tags| <= |b|
    requires forall k | 0 <= k < |tags| ::
               && Word(b, 12 + 16 * k) == tags[k] && Word(b, 12 + 16 * k + 12) == |t[tags[k]]|
               && Word(b, 12 + 16 * k + 8) == Offset(tags, t, k)
               && Offset(tags, t, k) + |t[tags[k]]| <= |b|
               && b[Offset(tags, t, k)..Offset(tags, t, k) + |t[tags[k]]|] == t[tags[k]]
    ensures ParseEntries(b, i, |tags|, Restrict(t, tags[..i])) == Ok(Restrict(t, tags))
    decreases |tags| - i
  {
    hide Word, Offset, Restrict;
    if i == |tags| {
      assert tags[..i] == tags;
    } else {
      EntriesParse(b, tags, t, i + 1);
      RestrictGrows(t, tags, i);
    }
  }

  lemma RestrictGrows(t: map<u32, Table>, tags: seq<u32>, i: nat)
    requires Listed(tags, t) && i < |tags|
    ensures Restrict(t, tags[..i + 1]) == Restrict(t, tags[..i])[tags[i] := t[tags[i]]]
  {
    assert tags[..i + 1] == tags[..i] + [tags[i]];
  }

  /** Parsing what was written gives the font back, up to the adjustment in `head`. */
  lemma ParseUndoesSerialize(f: Font, tags: seq<u32>)
    requires SupportedVersion(f.version) && Lists(tags, f.tables.Keys) && Fits(tags, f.tables)
    ensures ParseSpec(SerializeSpec(f, tags))
              == Ok(Font(f.version, WithAdjustment(f.tables, Adjustment(f, tags))))
  {
    hide Image, Entries, SerializeSpec, Adjustment, WithAdjustment, Word, Half, Offset, Fits, Lists, Flat, Checksum, Draft;
    var x := Adjustment(f, tags);
    var z, t, b := Zeroed(f.tables), WithAdjustment(f.tables, x), SerializeSpec(f, tags);
    SerializedIsImage(f, tags);
    FitsSmall(tags, f.tables);
    ListsIsDistinct(tags, f.tables);
    AdjustmentKeepsLayout(tags, f.tables, 0);
    AdjustmentKeepsLayout(tags, f.tables, x);
    var es := Entries(tags, z, |tags|);
    ImageStart(f.version, tags, es, t);
    forall k | 0 <= k < |tags|
      ensures Word(b, 12 + 16 * k) == tags[k] && Word(b, 12 + 16 * k + 12) == |t[tags[k]]|
           && Word(b, 12 + 16 * k + 8) == Offset(tags, t, k)
           && Offset(tags, t, k) + |t[tags[k]]| <= |b|
           && b[Offset(tags, t, k)..Offset(tags, t, k) + |t[tags[k]]|] == t[tags[k]]
    {
      EntryAt(f.version, tags, z, t, k);
      TableAt(f.version, tags, es, t, k);
    }
    EntriesParse(b, tags, t, 0);
    WholeRestrict(tags, t);
  }

  lemma WholeRestrict(tags: seq<u32>, t: map<u32, Table>)
    requires Lists(tags, t.Keys)
    ensures Listed(tags, t) && Restrict(t, tags[..0]) == map[] && Restrict(t, tags) == t
  {
  }

  lemma ImageStart(version: u32, tags: seq<u32>, es: seq<seq<byte>>, t: map<u32, Table>)
    requires Listed(tags, t) && |tags| < 0x8000 && |es| == |tags| && forall e <- es :: |e| == 16
    ensures var b := Image(version, tags, es, t);
            |b| >= 12 + 16 * |tags| && Word(b, 0) == version && Half(b, 4) == |tags|
  {
    hide Flat, Header, Word, Half;
    ImageLength(version, tags, es, t);
    var rest := Flat(es) + Flat(Chunks(tags, t));
    assert Image(version, tags, es, t) == Header(version, |tags|) + rest;
    HeaderFields(version, |tags|, rest);
  }

  /**
   The k-th directory entry names the k-th tag and carries that table's checksum, taken with the
   adjustment zero; the table sits at a multiple of four, behind the directory and inside the file.
   */
  lemma TableLaidOut(f: Font, tags: seq<u32>, k: nat)
    requires Lists(tags, f.tables.Keys) && Fits(tags, f.tables) && k < |tags|
    ensures var b, at := SerializeSpec(f, tags), 12 + 16 * k;
            && at + 16 <= |b| && Word(b, at) == tags[k]
            && Word(b, at + 4) == Checksum(Zeroed(f.tables)[tags[k]])
            && Word(b, at + 8) == Offset(tags, f.tables, k)
            && Word(b, at + 12) == |f.tables[tags[k]]|
            && 12 + 16 * |tags| <= Word(b, at + 8) && Word(b, at + 8) % 4 == 0
            && Word(b, at + 8) + Word(b, at + 12) <= |b|
  {
    hide Image, Entries, SerializeSpec, Adjustment, WithAdjustment, Word, Checksum, Flat, Padded, Fits, Offset, Draft;
    var x := Adjustment(f, tags);
    var z, t := Zeroed(f.tables), WithAdjustment(f.tables, x);
    SerializedIsImage(f, tags);
    FitsSmall(tags, f.tables);
    AdjustmentKeepsLayout(tags, f.tables, 0);
    AdjustmentKeepsLayout(tags, f.tables, x);
    EntryAt(f.version, tags, z, t, k);
    TableAt(f.version, tags, Entries(tags, z, |tags|), t, k);
    OffsetMono(tags, z, k);
    OffsetStart(tags, z, k);
  }

  /** Tables follow one another in the order of the directory and never overlap. */
  lemma TablesInOrder(f: Font, tags: seq<u32>, j: nat, k: nat)
    requires Lists(tags, f.tables.Keys) && Fits(tags, f.tables) && j < k < |tags|
    ensures var b := SerializeSpec(f, tags);
            Word(b, 12 + 16 * j + 8) + Word(b, 12 + 16 * j + 12) <= Word(b, 12 + 16 * k + 8)
  {
    hide SerializeSpec, Word, Checksum, Flat, Padded, Fits, Offset, Zeroed;
    TableLaidOut(f, tags, j);
    TableLaidOut(f, tags, k);
    FitsSmall(tags, f.tables);
    OffsetsGrow(tags, f.tables, j, k);
  }

  lemma OffsetStart(tags: seq<u32>, t: map<u32, Table>, k: nat)
    requires Listed(tags, t) && k <= |tags|
    ensures Offset(tags, t, k) >= 12 + 16 * |tags|
  {
  }

  lemma {:induction false} OffsetsGrow(tags: seq<u32>, t: map<u32, Table>, j: nat, k: nat)
    requires Listed(tags, t) && j < k <= |tags|
    ensures Offset(tags, t, j) + |t[tags[j]]| <= Offset(tags, t, k)
  {
    hide Offset;
    OffsetMono(tags, t, j);
    if k > j + 1 {
      OffsetsGrow(tags, t, j, k - 1);
      OffsetMono(tags, t, k - 1);
    }
  }
}
