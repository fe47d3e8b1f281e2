/** Writing a format 12 `cmap` table, and the proof that reading it gives the pairs back. */
module CmapBuild {
  import opened Bytes
  import opened Buffers
  import opened Sfnt
  import opened Sorted
  import opened Cmap

  // ----- grouping -----

  datatype Group = Group(start: Rune, end: Rune, glyph: u32)

  /** Does the pair continue the group? Glyph arithmetic wraps at 32 bits. */
  predicate Extends(g: Group, p: Pair) {
    p.code == g.end + 1 && p.glyph == (g.glyph + (g.end - g.start) + 1) % TWO32
  }

  function AddPair(gs: seq<Group>, p: Pair): seq<Group> {
    if gs != [] && Extends(gs[|gs| - 1], p)
    then gs[|gs| - 1 := gs[|gs| - 1].(end := p.code)]
    else gs + [Group(p.code, p.code, p.glyph)]
  }

  function GroupsOf(pairs: seq<Pair>): (gs: seq<Group>)
    ensures |gs| <= |pairs|
  {
    if pairs == [] then [] else AddPair(GroupsOf(pairs[..|pairs| - 1]), pairs[|pairs| - 1])
  }

  /** The pairs a group stands for, and a list of groups. */
  function Expand(g: Group, end: nat): seq<Pair>
    requires end <= g.end + 1
    decreases end
  {
    if end <= g.start then []
    else Expand(g, end - 1) + [Pair(end - 1, (g.glyph + (end - 1 - g.start)) % TWO32)]
  }

  function ExpandAll(gs: seq<Group>): seq<Pair> {
    if gs == [] then []
    else ExpandAll(gs[..|gs| - 1]) + Expand(gs[|gs| - 1], gs[|gs| - 1].end + 1)
  }

  lemma {:induction false} ExpandLonger(g: Group, h: Group, end: nat)
    requires end <= g.end + 1 && g.end <= h.end && g.start == h.start && g.glyph == h.glyph
    ensures Expand(g, end) == Expand(h, end)
    decreases end
  {
    if end > g.start {
      ExpandLonger(g, h, end - 1);
    }
  }

  lemma ExpandStep(g: Group, p: Pair)
    requires Extends(g, p) && g.start <= g.end
    ensures var h := g.(end := p.code); Expand(h, h.end + 1) == Expand(g, g.end + 1) + [p]
  {
    var h := g.(end := p.code);
    ExpandLonger(g, h, g.end + 1);
  }

  lemma ExpandOne(p: Pair)
    ensures Expand(Group(p.code, p.code, p.glyph), p.code + 1) == [p]
  {
    var h := Group(p.code, p.code, p.glyph);
    assert Expand(h, p.code) == [];
  }

  lemma ExpandNothing()
    ensures ExpandAll([]) == []
  {
  }

  lemma AddPairExpands(gs: seq<Group>, p: Pair)
    requires gs != [] ==> gs[|gs| - 1].start <= gs[|gs| - 1].end
    ensures ExpandAll(AddPair(gs, p)) == ExpandAll(gs) + [p]
    ensures var hs := AddPair(gs, p); hs != [] && hs[|hs| - 1].start <= hs[|hs| - 1].end
  {
    hide Expand;
    var hs := AddPair(gs, p);
    if gs != [] && Extends(gs[|gs| - 1], p) {
      ExpandStep(gs[|gs| - 1], p);
      assert hs[..|hs| - 1] == gs[..|gs| - 1];
    } else {
      assert hs[..|hs| - 1] == gs;
      ExpandOne(p);
    }
  }

  /** Grouping loses and invents nothing, whatever the list. */
  lemma {:induction false} GroupsExpand(pairs: seq<Pair>)
    ensures ExpandAll(GroupsOf(pairs)) == pairs
    ensures var gs := GroupsOf(pairs); gs != [] ==> gs[|gs| - 1].start <= gs[|gs| - 1].end
  {
    hide AddPair, Expand, ExpandAll;
    ExpandNothing();
    if pairs != [] {
      var init := pairs[..|pairs| - 1];
      GroupsExpand(init);
      AddPairExpands(GroupsOf(init), pairs[|pairs| - 1]);
    }
  }

  /** Ascending, disjoint, and no two neighbours could be one group. */
  predicate Tight(gs: seq<Group>) {
    && (forall g <- gs :: g.start <= g.end)
    && (forall i | 0 <= i < |gs| - 1 :: gs[i].end < gs[i + 1].start)
    && (forall i | 0 <= i < |gs| - 1 :: !Extends(gs[i], Pair(gs[i + 1].start, gs[i + 1].glyph)))
  }

  lemma {:induction false} GroupsAreTight(pairs: seq<Pair>)
    requires Ascending(Codes(pairs))
    ensures Tight(GroupsOf(pairs))
    ensures pairs != [] ==> var gs := GroupsOf(pairs); gs != [] && gs[|gs| - 1].end == pairs[|pairs| - 1].code
  {
    if pairs != [] {
      var n := |pairs| - 1;
      var init, gs := pairs[..n], GroupsOf(pairs[..n]);
      assert Codes(init) == Codes(pairs)[..n];
      GroupsAreTight(init);
      if n > 0 {
        assert Codes(pairs)[n - 1] < Codes(pairs)[n];
      }
      AddPairTight(gs, pairs[n]);
    }
  }

  lemma AddPairTight(gs: seq<Group>, p: Pair)
    requires Tight(gs) && (gs != [] ==> gs[|gs| - 1].end < p.code)
    ensures var hs := AddPair(gs, p); Tight(hs) && hs != [] && hs[|hs| - 1].end == p.code
  {
    hide Extends;
    var n := |gs| - 1;
    if gs != [] && Extends(gs[n], p) {
      LongerStaysTight(gs, p);
    } else {
      var hs := gs + [Group(p.code, p.code, p.glyph)];
      forall i | 0 <= i < |hs| - 1
        ensures hs[i].end < hs[i + 1].start && !Extends(hs[i], Pair(hs[i + 1].start, hs[i + 1].glyph))
      {
        assert hs[i] == gs[i] && hs[i + 1] == if i < n then gs[i + 1] else Group(p.code, p.code, p.glyph);
      }
    }
  }

  lemma LongerStaysTight(gs: seq<Group>, p: Pair)
    requires gs != [] && Tight(gs) && Extends(gs[|gs| - 1], p)
    ensures Tight(gs[|gs| - 1 := gs[|gs| - 1].(end := p.code)])
  {
    var n := |gs| - 1;
    var hs := gs[n := gs[n].(end := p.code)];
    assert gs[n] in gs;
    assert gs[n].end < p.code;
    hide Extends;
    forall i | 0 <= i < n
      ensures hs[i].end < hs[i + 1].start && !Extends(hs[i], Pair(hs[i + 1].start, hs[i + 1].glyph))
    {
      assert hs[i] == gs[i] && hs[i + 1].start == gs[i + 1].start && hs[i + 1].glyph == gs[i + 1].glyph;
    }
  }

  // ----- the bytes -----

  const RECORDS_END := 20

  /** The table header and two encoding records, Unicode and Windows, for the one subtable. */
  function Records(): (b: seq<byte>)
    ensures |b| == RECORDS_END
  {
    Be16(0) + Be16(2) + (Be16(0) + Be16(4) + Be32(RECORDS_END)) + (Be16(3) + Be16(10) + Be32(RECORDS_END))
  }

  function SubHead(n: nat): (b: seq<byte>)
    requires 16 + 12 * n < TWO32
    ensures |b| == 16
  {
    Be16(12) + Be16(0) + Be32(16 + 12 * n) + Be32(0) + Be32(n)
  }

  function GroupBytes(g: Group): (b: seq<byte>)
    ensures |b| == 12
  {
    Be32(g.start) + Be32(g.end) + Be32(g.glyph)
  }

  function GroupChunks(gs: seq<Group>): (c: seq<seq<byte>>)
    ensures |c| == |gs|
  {
    seq(|gs|, i requires 0 <= i < |gs| => GroupBytes(gs[i]))
  }

  function SubtableBytes(gs: seq<Group>): seq<byte>
    requires 16 + 12 * |gs| < TWO32
  {
    SubHead(|gs|) + Flat(GroupChunks(gs))
  }

  function TableBytes(gs: seq<Group>): seq<byte>
    requires 16 + 12 * |gs| < TWO32
  {
    Records() + SubtableBytes(gs)
  }

  // ----- sorting -----

  predicate NonDescending(pairs: seq<Pair>) {
    forall i, j | 0 <= i < j < |pairs| :: pairs[i].code <= pairs[j].code
  }

  /** What the library sort promises; it need not be stable. */
  ghost predicate SortedFrom(sorted: seq<Pair>, pairs: seq<Pair>) {
    NonDescending(sorted) && multiset(sorted) == multiset(pairs)
  }

  method SortPairs(pairs: seq<Pair>) returns (sorted: seq<Pair>)
    ensures SortedFrom(sorted, pairs)
  {
    hide SortedFrom;
    sorted := [];
    NothingSorted(pairs[..0]);
    for i := 0 to |pairs|
      invariant SortedFrom(sorted, pairs[..i])
    {
      var k := PlaceFor(sorted, pairs[i]);
      InsertSorted(sorted, pairs, i, k);
      sorted := sorted[..k] + [pairs[i]] + sorted[k..];
    }
    assert pairs[..|pairs|] == pairs;
  }

  /** Behind every pair whose code is not greater. */
  predicate Place(s: seq<Pair>, k: nat, p: Pair) {
    && k <= |s| && (k > 0 ==> s[k - 1].code <= p.code)
    && (forall j | k <= j < |s| :: p.code <= s[j].code)
  }

  method PlaceFor(s: seq<Pair>, p: Pair) returns (k: nat)
    ensures Place(s, k, p)
  {
    k := |s|;
    while k > 0 && s[k - 1].code > p.code
      invariant k <= |s| && forall j | k <= j < |s| :: p.code <= s[j].code
    {
      k := k - 1;
    }
  }

  lemma NothingSorted(pairs: seq<Pair>)
    requires pairs == []
    ensures SortedFrom([], pairs)
  {
  }

  lemma InsertSorted(s: seq<Pair>, pairs: seq<Pair>, i: nat, k: nat)
    requires i < |pairs| && SortedFrom(s, pairs[..i]) && Place(s, k, pairs[i])
    ensures SortedFrom(s[..k] + [pairs[i]] + s[k..], pairs[..i + 1])
  {
    InsertOrder(s, k, pairs[i]);
    hide NonDescending, Place;
    InsertCounts(s, k, pairs[i]);
    assert pairs[..i + 1] == pairs[..i] + [pairs[i]];
  }

  lemma InsertOrder(s: seq<Pair>, k: nat, p: Pair)
    requires NonDescending(s) && Place(s, k, p)
    ensures NonDescending(s[..k] + [p] + s[k..])
  {
    var r := s[..k] + [p] + s[k..];
    forall i, j | 0 <= i < j < |r| ensures r[i].code <= r[j].code {
      var x, y := if i < k then s[i].code else p.code, if j > k then s[j - 1].code else p.code;
      if i < k {
        assert s[i].code <= s[k - 1].code;
      }
    }
  }

  lemma InsertCounts(s: seq<Pair>, k: nat, p: Pair)
    requires k <= |s|
    ensures multiset(s[..k] + [p] + s[k..]) == multiset(s) + multiset{p}
  {
    assert s == s[..k] + s[k..];
  }

  lemma SortedIsAscending(sorted: seq<Pair>, pairs: seq<Pair>)
    requires SortedFrom(sorted, pairs) && DistinctCodes(pairs)
    ensures Ascending(Codes(sorted)) && forall p :: p in sorted <==> p in pairs
  {
    assert forall p :: p in sorted <==> p in multiset(sorted);
    assert forall p :: p in pairs <==> p in multiset(pairs);
    forall i, j | 0 <= i < j < |sorted| ensures sorted[i].code < sorted[j].code {
      CodesStayDistinct(sorted, pairs, i, j);
    }
  }

  predicate DistinctCodes(pairs: seq<Pair>) {
    forall i, j | 0 <= i < j < |pairs| :: pairs[i].code != pairs[j].code
  }

  /** A code twice in the sorted list would be a pair twice, or two pairs, in the original. */
  lemma CodesStayDistinct(sorted: seq<Pair>, pairs: seq<Pair>, i: nat, j: nat)
    requires multiset(sorted) == multiset(pairs) && DistinctCodes(pairs) && i < j < |sorted|
    ensures sorted[i].code != sorted[j].code
  {
    AtMostOnce(pairs, sorted[i]);
    CountTwice(sorted, i, j);
    assert sorted[i] in multiset(sorted) && sorted[j] in multiset(sorted);
    assert sorted[i] in pairs && sorted[j] in pairs;
  }

  lemma CountTwice(s: seq<Pair>, i: nat, j: nat)
    requires i < j < |s|
    ensures s[i] == s[j] ==> multiset(s)[s[i]] >= 2
  {
    var a, b := s[..j], s[j..];
    assert s == a + b && a[i] == s[i] && b[0] == s[j];
    assert multiset(s) == multiset(a) + multiset(b);
  }

  lemma {:induction false} AtMostOnce(pairs: seq<Pair>, p: Pair)
    requires DistinctCodes(pairs)
    ensures multiset(pairs)[p] <= 1
  {
    if pairs != [] {
      var n := |pairs| - 1;
      AtMostOnce(pairs[..n], p);
      assert pairs == pairs[..n] + [pairs[n]];
      if pairs[n] == p {
        assert p !in pairs[..n] by {
          forall k | 0 <= k < n ensures pairs[..n][k] != p {
          }
        }
      }
    }
  }

  // ----- the writer -----

  method CollectGroups(pairs: seq<Pair>) returns (gs: seq<Group>)
    ensures gs == GroupsOf(pairs)
  {
    gs := [];
    for i := 0 to |pairs|
      invariant gs == GroupsOf(pairs[..i])
    {
      var p := pairs[i];
      assert pairs[..i + 1][..i] == pairs[..i];
      var n := |gs|;
      if n > 0 && p.code == gs[n - 1].end + 1
         && p.glyph == (gs[n - 1].glyph + (gs[n - 1].end - gs[n - 1].start) + 1) % TWO32 {
        gs := gs[n - 1 := gs[n - 1].(end := p.code)];
        continue;
      }
      gs := gs + [Group(p.code, p.code, p.glyph)];
    }
    assert pairs[..|pairs|] == pairs;
  }

  /** The table has a size that its 32-bit length fields can hold. */
  predicate FitsTable(gs: seq<Group>) { RECORDS_END + 16 + 12 * |gs| < TWO32 }

  /** The table holds the groups of the pairs in ascending order. */
  ghost predicate Built(pairs: seq<Pair>, table: seq<byte>, sorted: seq<Pair>) {
    SortedFrom(sorted, pairs) && FitsTable(GroupsOf(sorted)) && table == TableBytes(GroupsOf(sorted))
  }

  /** Beyond the size of its length fields the source's table is cut short, so that much is asked of the caller. */
  method BuildFormat12(pairs: seq<Pair>) returns (table: seq<byte>)
    requires forall sorted :: SortedFrom(sorted, pairs) ==> FitsTable(GroupsOf(sorted))
    ensures exists sorted :: Built(pairs, table, sorted)
  {
    hide NonDescending, Records, SubHead, GroupBytes, GroupsOf, Flat;
    var order := SortPairs(pairs);
    var gs := CollectGroups(order);
    var out := new byte[RECORDS_END + 16 + |gs| * 12](_ => 0);
    assert out[..] == Zeros(out.Length);
    PutFirst(out, Records());
    PutNext(out, Records(), RECORDS_END, SubHead(|gs|));
    PutGroups(out, gs, Records() + SubHead(|gs|));
    table := out[..];
    assert Built(pairs, table, order);
  }

  lemma GroupsFew(pairs: seq<Pair>)
    ensures |GroupsOf(pairs)| <= |pairs|
  {
  }

  /** There are no more ascending code points than code points. */
  lemma AscendingFits(pairs: seq<Pair>)
    requires Ascending(Codes(pairs))
    ensures |pairs| <= 0x110000 && FitsTable(GroupsOf(pairs))
  {
    AscendingIsShort(Codes(pairs), 0x110000);
    GroupsFew(pairs);
  }

  lemma DistinctFit(pairs: seq<Pair>)
    requires DistinctCodes(pairs)
    ensures forall sorted :: SortedFrom(sorted, pairs) ==> FitsTable(GroupsOf(sorted))
  {
    forall sorted | SortedFrom(sorted, pairs) ensures FitsTable(GroupsOf(sorted)) {
      SortedIsAscending(sorted, pairs);
      AscendingFits(sorted);
    }
  }

  method PutGroups(out: array<byte>, gs: seq<Group>, ghost a: seq<byte>)
    requires out.Length == |a| + |gs| * 12 && |a| == RECORDS_END + 16
    requires out[..] == a + Zeros(out.Length - |a|)
    modifies out
    ensures out[..] == a + Flat(GroupChunks(gs))
  {
    hide Flat, Zeros, GroupBytes;
    ghost var c := GroupChunks(gs);
    FlatNothing(c);
    assert a + [] == a;
    for i := 0 to |gs|
      invariant |Flat(c[..i])| == 12 * i
      invariant out[..] == a + Flat(c[..i]) + Zeros(out.Length - |a| - 12 * i)
    {
      FlatSnoc(c, i);
      PutNext(out, a + Flat(c[..i]), RECORDS_END + 16 + i * 12, GroupBytes(gs[i]));
      assert a + Flat(c[..i]) + c[i] == a + Flat(c[..i + 1]);
    }
    assert c[..|gs|] == c;
    ZerosSplit(0, 0);
    assert a + Flat(c) + [] == a + Flat(c);
  }

  // ----- reading it back -----

  function PutAll(pairs: seq<Pair>, out: Mapping): Mapping {
    if pairs == [] then out
    else
      var p := pairs[|pairs| - 1];
      PutAll(pairs[..|pairs| - 1], out)[p.code := p.glyph]
  }

  lemma {:induction false} PutAllAppend(a: seq<Pair>, b: seq<Pair>, out: Mapping)
    ensures PutAll(a + b, out) == PutAll(b, PutAll(a, out))
  {
    if b == [] {
      assert a + b == a;
    } else {
      var n := |b| - 1;
      assert (a + b)[..|a + b| - 1] == a + b[..n];
      PutAllAppend(a, b[..n], out);
    }
  }

  lemma {:induction false} RangeMaps(g: Group, c: nat, out: Mapping)
    requires g.start <= c <= g.end + 1
    ensures Range12(g.start, g.end, g.glyph, c, PutAll(Expand(g, c), out)) == PutAll(Expand(g, g.end + 1), out)
    decreases g.end + 1 - c
  {
    if c <= g.end {
      var p := Pair(c, (g.glyph + (c - g.start)) % TWO32);
      assert Expand(g, c + 1) == Expand(g, c) + [p];
      assert PutAll(Expand(g, c + 1), out) == PutAll(Expand(g, c), out)[p.code := p.glyph];
      RangeMaps(g, c + 1, out);
    }
  }

  lemma GroupMaps(g: Group, out: Mapping)
    requires g.start <= g.end
    ensures Group12(g.start, g.end, g.glyph, out) == PutAll(Expand(g, g.end + 1), out)
  {
    RangeMaps(g, g.start, out);
  }

  lemma {:induction false} GroupsMap(sub: seq<byte>, gs: seq<Group>, i: nat, out: Mapping)
    requires i <= |gs| && 16 + 12 * |gs| <= |sub| && forall g <- gs :: g.start <= g.end
    requires forall k | 0 <= k < |gs| ::
               Word(sub, 16 + 12 * k) == gs[k].start && Word(sub, 16 + 12 * k + 4) == gs[k].end
               && Word(sub, 16 + 12 * k + 8) == gs[k].glyph
    ensures Groups12(sub, |gs|, i, PutAll(ExpandAll(gs[..i]), out)) == PutAll(ExpandAll(gs), out)
    decreases |gs| - i
  {
    hide Word, Expand, Group12;
    if i == |gs| {
      assert gs[..i] == gs;
    } else {
      var front := gs[..i + 1];
      assert front[..|front| - 1] == gs[..i];
      var pairs := Expand(gs[i], gs[i].end + 1);
      PutAllAppend(ExpandAll(gs[..i]), pairs, out);
      GroupMaps(gs[i], PutAll(ExpandAll(gs[..i]), out));
      GroupsMap(sub, gs, i + 1, out);
    }
  }
}
