/** The emoji code points that are removed, and the binary search that recognises them. */
module Emoji {
  import opened Cmap

  const COUNT := 150

  type Slot = k: nat | k < 30

  // The inclusive ranges in the order of the source's table, thirty to a block.

  function Block0(k: Slot): (Rune, Rune)
  {
    match k
    case 0 => (0x00A9, 0x00A9) case 1 => (0x00AE, 0x00AE) case 2 => (0x203C, 0x203C) case 3 => (0x2049, 0x2049)
    case 4 => (0x2122, 0x2122) case 5 => (0x2139, 0x2139) case 6 => (0x2194, 0x2199) case 7 => (0x21A9, 0x21AA)
    case 8 => (0x231A, 0x231B) case 9 => (0x2328, 0x2328) case 10 => (0x23CF, 0x23CF) case 11 => (0x23E9, 0x23F3)
    case 12 => (0x23F8, 0x23FA) case 13 => (0x24C2, 0x24C2) case 14 => (0x25AA, 0x25AB) case 15 => (0x25B6, 0x25B6)
    case 16 => (0x25C0, 0x25C0) case 17 => (0x25FB, 0x25FE) case 18 => (0x2600, 0x2604) case 19 => (0x260E, 0x260E)
    case 20 => (0x2611, 0x2611) case 21 => (0x2614, 0x2615) case 22 => (0x2618, 0x2618) case 23 => (0x261D, 0x261D)
    case 24 => (0x2620, 0x2620) case 25 => (0x2622, 0x2623) case 26 => (0x2626, 0x2626) case 27 => (0x262A, 0x262A)
    case 28 => (0x262E, 0x262F)
    case _ => (0x2638, 0x263A)
  }

  function Block1(k: Slot): (Rune, Rune)
  {
    match k
    case 0 => (0x2640, 0x2640) case 1 => (0x2642, 0x2642) case 2 => (0x2648, 0x2653) case 3 => (0x265F, 0x2660)
    case 4 => (0x2663, 0x2663) case 5 => (0x2665, 0x2666) case 6 => (0x2668, 0x2668) case 7 => (0x267B, 0x267B)
    case 8 => (0x267E, 0x267F) case 9 => (0x2692, 0x2697) case 10 => (0x2699, 0x2699) case 11 => (0x269B, 0x269C)
    case 12 => (0x26A0, 0x26A1) case 13 => (0x26A7, 0x26A7) case 14 => (0x26AA, 0x26AB) case 15 => (0x26B0, 0x26B1)
    case 16 => (0x26BD, 0x26BE) case 17 => (0x26C4, 0x26C5) case 18 => (0x26C8, 0x26C8) case 19 => (0x26CE, 0x26CF)
    case 20 => (0x26D1, 0x26D1) case 21 => (0x26D3, 0x26D4) case 22 => (0x26E9, 0x26EA) case 23 => (0x26F0, 0x26F5)
    case 24 => (0x26F7, 0x26FA) case 25 => (0x26FD, 0x26FD) case 26 => (0x2702, 0x2702) case 27 => (0x2705, 0x2705)
    case 28 => (0x2708, 0x270D)
    case _ => (0x270F, 0x270F)
  }

  function Block2(k: Slot): (Rune, Rune)
  {
    match k
    case 0 => (0x2712, 0x2712) case 1 => (0x2714, 0x2714) case 2 => (0x2716, 0x2716) case 3 => (0x271D, 0x271D)
    case 4 => (0x2721, 0x2721) case 5 => (0x2728, 0x2728) case 6 => (0x2733, 0x2734) case 7 => (0x2744, 0x2744)
    case 8 => (0x2747, 0x2747) case 9 => (0x274C, 0x274C) case 10 => (0x274E, 0x274E) case 11 => (0x2753, 0x2755)
    case 12 => (0x2757, 0x2757) case 13 => (0x2763, 0x2764) case 14 => (0x2795, 0x2797) case 15 => (0x27A1, 0x27A1)
    case 16 => (0x27B0, 0x27B0) case 17 => (0x27BF, 0x27BF) case 18 => (0x2934, 0x2935) case 19 => (0x2B05, 0x2B07)
    case 20 => (0x2B1B, 0x2B1C) case 21 => (0x2B50, 0x2B50) case 22 => (0x2B55, 0x2B55) case 23 => (0x3030, 0x3030)
    case 24 => (0x303D, 0x303D) case 25 => (0x3297, 0x3297) case 26 => (0x3299, 0x3299)
    case 27 => (0x1F004, 0x1F004) case 28 => (0x1F0CF, 0x1F0CF)
    case _ => (0x1F170, 0x1F171)
  }

  function Block3(k: Slot): (Rune, Rune)
  {
    match k
    case 0 => (0x1F17E, 0x1F17F) case 1 => (0x1F18E, 0x1F18E) case 2 => (0x1F191, 0x1F19A)
    case 3 => (0x1F1E6, 0x1F1FF) case 4 => (0x1F201, 0x1F202) case 5 => (0x1F21A, 0x1F21A)
    case 6 => (0x1F22F, 0x1F22F) case 7 => (0x1F232, 0x1F23A) case 8 => (0x1F250, 0x1F251)
    case 9 => (0x1F300, 0x1F321) case 10 => (0x1F324, 0x1F393) case 11 => (0x1F396, 0x1F397)
    case 12 => (0x1F399, 0x1F39B) case 13 => (0x1F39E, 0x1F3F0) case 14 => (0x1F3F3, 0x1F3F5)
    case 15 => (0x1F3F7, 0x1F3FA) case 16 => (0x1F3FB, 0x1F3FF) case 17 => (0x1F400, 0x1F4FD)
    case 18 => (0x1F4FF, 0x1F53D) case 19 => (0x1F549, 0x1F54E) case 20 => (0x1F550, 0x1F567)
    case 21 => (0x1F56F, 0x1F570) case 22 => (0x1F573, 0x1F57A) case 23 => (0x1F587, 0x1F587)
    case 24 => (0x1F58A, 0x1F58D) case 25 => (0x1F590, 0x1F590) case 26 => (0x1F595, 0x1F596)
    case 27 => (0x1F5A4, 0x1F5A5) case 28 => (0x1F5A8, 0x1F5A8)
    case _ => (0x1F5B1, 0x1F5B2)
  }

  function Block4(k: Slot): (Rune, Rune)
  {
    match k
    case 0 => (0x1F5BC, 0x1F5BC) case 1 => (0x1F5C2, 0x1F5C4) case 2 => (0x1F5D1, 0x1F5D3)
    case 3 => (0x1F5DC, 0x1F5DE) case 4 => (0x1F5E1, 0x1F5E1) case 5 => (0x1F5E3, 0x1F5E3)
    case 6 => (0x1F5E8, 0x1F5E8) case 7 => (0x1F5EF, 0x1F5EF) case 8 => (0x1F5F3, 0x1F5F3)
    case 9 => (0x1F5FA, 0x1F64F) case 10 => (0x1F680, 0x1F6C5) case 11 => (0x1F6CB, 0x1F6D2)
    case 12 => (0x1F6D5, 0x1F6D7) case 13 => (0x1F6DC, 0x1F6E5) case 14 => (0x1F6E9, 0x1F6E9)
    case 15 => (0x1F6EB, 0x1F6EC) case 16 => (0x1F6F0, 0x1F6F0) case 17 => (0x1F6F3, 0x1F6FC)
    case 18 => (0x1F7E0, 0x1F7EB) case 19 => (0x1F7F0, 0x1F7F0) case 20 => (0x1F90C, 0x1F93A)
    case 21 => (0x1F93C, 0x1F945) case 22 => (0x1F947, 0x1F9FF) case 23 => (0x1FA70, 0x1FA7C)
    case 24 => (0x1FA80, 0x1FA88) case 25 => (0x1FA90, 0x1FABD) case 26 => (0x1FABF, 0x1FAC5)
    case 27 => (0x1FACE, 0x1FADB) case 28 => (0x1FAE0, 0x1FAE8)
    case _ => (0x1FAF0, 0x1FAF8)
  }

  function Range(k: nat): (Rune, Rune)
    requires k < COUNT
  {
    if k < 30 then Block0(k)
    else if k < 60 then Block1(k - 30)
    else if k < 90 then Block2(k - 60)
    else if k < 120 then Block3(k - 90)
    else Block4(k - 120)
  }

  lemma BlocksAscend(k: Slot)
    ensures Block0(k).0 <= Block0(k).1 && (k + 1 < 30 ==> Block0(k).1 < Block0(k + 1).0)
    ensures Block1(k).0 <= Block1(k).1 && (k + 1 < 30 ==> Block1(k).1 < Block1(k + 1).0)
    ensures Block2(k).0 <= Block2(k).1 && (k + 1 < 30 ==> Block2(k).1 < Block2(k + 1).0)
    ensures Block0(0).0 == 0x00A9 && Block0(29).1 < Block1(0).0 && Block1(29).1 < Block2(0).0
  {
  }

  lemma HighBlocksAscend(k: Slot)
    ensures Block3(k).0 <= Block3(k).1 && (k + 1 < 30 ==> Block3(k).1 < Block3(k + 1).0)
    ensures Block4(k).0 <= Block4(k).1 && (k + 1 < 30 ==> Block4(k).1 < Block4(k + 1).0)
    ensures Block2(29).1 < Block3(0).0 && Block3(29).1 < Block4(0).0 && Block4(29).1 == 0x1FAF8
  {
  }

  lemma NeighboursAscend(k: nat)
    requires k < COUNT
    ensures Range(k).0 <= Range(k).1
    ensures k + 1 < COUNT ==> Range(k).1 < Range(k + 1).0
  {
    hide Block0, Block1, Block2, Block3, Block4;
    BlocksAscend(k % 30);
    HighBlocksAscend(k % 30);
  }

  lemma {:induction false} RangesAscend(j: nat, k: nat)
    requires j < k < COUNT
    ensures Range(j).1 < Range(k).0
  {
    hide Range;
    NeighboursAscend(k - 1);
    if j < k - 1 {
      RangesAscend(j, k - 1);
    }
  }

  /** The union of the ranges. */
  predicate InRanges(r: Rune) {
    exists k :: 0 <= k < COUNT && Range(k).0 <= r <= Range(k).1
  }

  /** The binary search among the ranges from lo up to hi. */
  predicate Search(r: Rune, lo: nat, hi: nat)
    requires lo <= hi <= COUNT
    decreases hi - lo
  {
    if lo == hi then false
    else
      var mid := (lo + hi) / 2;
      if r < Range(mid).0 then Search(r, lo, mid)
      else if r > Range(mid).1 then Search(r, mid + 1, hi)
      else true
  }

  predicate IsDigitOrSign(r: Rune) { r == '#' as int || r == '*' as int || '0' as int <= r <= '9' as int }

  /** The answer of the search with its shortcuts, as the subsetter uses it. */
  predicate IsEmoji(r: Rune) {
    !IsDigitOrSign(r) && Range(0).0 <= r <= Range(COUNT - 1).1 && Search(r, 0, COUNT)
  }

  method IsEmojiCodepoint(r: Rune) returns (yes: bool)
    ensures yes == IsEmoji(r) == InRanges(r)
  {
    hide Range;
    SearchFindsRanges(r);
    if r == '#' as int || r == '*' as int || ('0' as int <= r <= '9' as int) { return false; }
    if r < Range(0).0 || r > Range(COUNT - 1).1 { return false; }
    var lo, hi := 0, COUNT;
    while lo < hi
      invariant 0 <= lo <= hi <= COUNT
      invariant Search(r, 0, COUNT) == Search(r, lo, hi)
    {
      var mid := (lo + hi) / 2;
      if r < Range(mid).0 {
        hi := mid;
      } else if r > Range(mid).1 {
        lo := mid + 1;
      } else {
        return true;
      }
    }
    return false;
  }

  /** Searching where the code point must lie, if anywhere, finds it. */
  lemma {:induction false} SearchNarrows(r: Rune, lo: nat, hi: nat)
    requires lo <= hi <= COUNT
    requires forall k :: 0 <= k < lo ==> Range(k).1 < r
    requires forall k :: hi <= k < COUNT ==> r < Range(k).0
    ensures Search(r, lo, hi) == InRanges(r)
    decreases hi - lo
  {
    hide Range;
    if lo < hi {
      var mid := (lo + hi) / 2;
      if r < Range(mid).0 {
        AboveAscends(mid, r);
        SearchNarrows(r, lo, mid);
      } else if r > Range(mid).1 {
        BelowAscends(mid, r);
        SearchNarrows(r, mid + 1, hi);
      }
    }
  }

  /** The search finds exactly the union of the ranges; digits, `#` and `*` lie outside it anyway. */
  lemma SearchFindsRanges(r: Rune)
    ensures IsEmoji(r) == InRanges(r)
  {
    hide Range, Search;
    FirstAndLast(r);
    SearchNarrows(r, 0, COUNT);
  }

  lemma FirstAndLast(r: Rune)
    ensures Range(0).0 == 0x00A9
    ensures r < Range(0).0 || r > Range(COUNT - 1).1 ==> !InRanges(r)
  {
    BlocksAscend(0);
    HighBlocksAscend(0);
    hide Block0, Block1, Block2, Block3, Block4;
    if r < Range(0).0 {
      AboveAscends(0, r);
    } else if r > Range(COUNT - 1).1 {
      BelowAscends(COUNT - 1, r);
    }
  }

  lemma AboveAscends(m: nat, r: Rune)
    requires m < COUNT && r < Range(m).0
    ensures forall k :: m <= k < COUNT ==> r < Range(k).0
  {
    hide Range;
    forall k | m <= k < COUNT ensures r < Range(k).0 {
      if m < k {
        RangesAscend(m, k);
        NeighboursAscend(m);
      }
    }
  }

  lemma BelowAscends(m: nat, r: Rune)
    requires m < COUNT && Range(m).1 < r
    ensures forall k :: 0 <= k <= m ==> Range(k).1 < r
  {
    hide Range;
    forall k | 0 <= k <= m ensures Range(k).1 < r {
      if k < m {
        RangesAscend(k, m);
        NeighboursAscend(m);
      }
    }
  }
}
