/** White space as Unicode has it, trimming it, and what of a byte string is visible. */
module WhiteSpace {
  import opened Bytes
  import Utf8

  predicate IsSpace(r: nat) {
    || 9 <= r <= 13 || r == 0x20 || r == 0x85 || r == 0xA0 || r == 0x1680 || 0x2000 <= r <= 0x200A
    || r == 0x2028 || r == 0x2029 || r == 0x202F || r == 0x205F || r == 0x3000
  }

  /** The size of the white-space character `s` starts with, 0 if it starts with none. */
  function SpaceLen(s: seq<byte>): (n: nat)
    ensures n <= |s|
  {
    if s == [] then 0
    else
      var (r, n) := Utf8.Decode(s);
      if IsSpace(r) then n else 0
  }

  /** The size of the white-space character `s` ends with. */
  function LastSpaceLen(s: seq<byte>): (n: nat)
    ensures n <= |s| && (n > 0 ==> SpaceLen(s[|s| - n..]) == n)
  {
    if |s| >= 1 && SpaceLen(s[|s| - 1..]) == 1 then 1
    else if |s| >= 2 && SpaceLen(s[|s| - 2..]) == 2 then 2
    else if |s| >= 3 && SpaceLen(s[|s| - 3..]) == 3 then 3
    else 0
  }

  function TrimLeft(s: seq<byte>): seq<byte>
    decreases |s|
  {
    var n := SpaceLen(s);
    if n > 0 then TrimLeft(s[n..]) else s
  }

  function TrimRight(s: seq<byte>): seq<byte>
    decreases |s|
  {
    var n := LastSpaceLen(s);
    if n > 0 then TrimRight(s[..|s| - n]) else s
  }

  function TrimSpace(s: seq<byte>): seq<byte> { TrimRight(TrimLeft(s)) }

  /** The text without its white-space characters. */
  function Visible(s: seq<byte>): seq<byte>
    decreases |s|
  {
    if s == [] then []
    else
      var n := SpaceLen(s);
      if n > 0 then Visible(s[n..]) else [s[0]] + Visible(s[1..])
  }

  // ----- one character -----

  predicate Tail(s: seq<byte>) { s != [] && Utf8.Tail(s[0]) }

  /** A white-space character is recognised by its own bytes, of which all but the first are tails. */
  lemma SpaceIsLocal(s: seq<byte>, t: seq<byte>)
    requires SpaceLen(s) > 0 && SpaceLen(s) <= |t| && t[..SpaceLen(s)] == s[..SpaceLen(s)]
    ensures SpaceLen(t) == SpaceLen(s)
  {
    assert Utf8.WellFormed(s);
    var w := Utf8.Width(s[0]);
    assert forall k | 0 <= k < w :: t[k] == t[..w][k] == s[..w][k] == s[k];
  }

  lemma SpaceShape(s: seq<byte>)
    requires SpaceLen(s) > 0
    ensures !Tail(s) && SpaceLen(s) <= 3 && forall k | 1 <= k < SpaceLen(s) :: Utf8.Tail(s[k])
  {
  }

  lemma BlankIsSpace(s: seq<byte>)
    requires s != [] && IsBlank(s[0])
    ensures SpaceLen(s) == 1
  {
  }

  lemma TailIsNoSpace(s: seq<byte>)
    requires Tail(s)
    ensures SpaceLen(s) == 0
  {
  }

  lemma VisibleStep(s: seq<byte>)
    requires s != []
    ensures Visible(s) == if SpaceLen(s) > 0 then Visible(s[SpaceLen(s)..]) else [s[0]] + Visible(s[1..])
  {
    hide SpaceLen;
  }

  lemma Regroup<T>(s: seq<T>, n: nat, rest: seq<T>)
    requires 1 <= n <= |s|
    ensures s[1..][n - 1..] == s[n..] && [s[0]] + (s[1..][..n - 1] + rest) == s[..n] + rest
  {
  }

  lemma {:induction false} TailsShow(s: seq<byte>, k: nat)
    requires k <= |s| && forall j | 0 <= j < k :: Utf8.Tail(s[j])
    ensures Visible(s) == s[..k] + Visible(s[k..])
    decreases k
  {
    hide SpaceLen, Utf8.Tail, Visible;
    if k == 0 {
      assert s[0..] == s && [] + Visible(s) == Visible(s);
    } else {
      TailIsNoSpace(s);
      VisibleStep(s);
      TailsShow(s[1..], k - 1);
      Regroup(s, k, Visible(s[k..]));
    }
  }

  // ----- two texts together -----

  /** v is w if `all`; otherwise something of w is missing. */
  predicate Keeps(v: seq<byte>, w: seq<byte>, all: bool) {
    if all then v == w else |v| < |w|
  }

  lemma KeepsBoth(v: seq<byte>, w: seq<byte>, all: bool, v2: seq<byte>, w2: seq<byte>, all2: bool)
    requires Keeps(v, w, all) && Keeps(v2, w2, all2)
    ensures Keeps(v + v2, w + w2, all && all2)
  {
  }

  /** Some bytes at the end of a and at the start of b make one white-space character. */
  predicate Straddles(a: seq<byte>, b: seq<byte>) {
    exists i | 0 <= i < |a| :: SpaceLen(a[i..] + b) > |a| - i
  }

  lemma StraddlesCons(a: seq<byte>, b: seq<byte>)
    requires a != []
    ensures Straddles(a, b) <==> SpaceLen(a + b) > |a| || Straddles(a[1..], b)
  {
    hide SpaceLen;
    assert a[0..] == a;
    forall i | 1 <= i < |a| ensures a[i..] == a[1..][i - 1..] {
    }
    if Straddles(a, b) {
      var i :| 0 <= i < |a| && SpaceLen(a[i..] + b) > |a| - i;
      if i > 0 {
        assert SpaceLen(a[1..][i - 1..] + b) > |a[1..]| - (i - 1);
      }
    }
    if Straddles(a[1..], b) {
      var i :| 0 <= i < |a[1..]| && SpaceLen(a[1..][i..] + b) > |a[1..]| - i;
      assert SpaceLen(a[i + 1..] + b) > |a| - (i + 1);
    }
    if SpaceLen(a + b) > |a| {
      assert SpaceLen(a[0..] + b) > |a| - 0;
    }
  }

  /** A whole character in front does not change whether a text and the next one make another. */
  lemma {:induction false} StraddlesBehindTails(a: seq<byte>, b: seq<byte>, k: nat)
    requires k <= |a| && forall j | 0 <= j < k :: Utf8.Tail(a[j])
    ensures Straddles(a, b) <==> Straddles(a[k..], b)
    decreases k
  {
    hide SpaceLen, Straddles, Utf8.Tail;
    if k == 0 {
      assert a[0..] == a;
    } else {
      StraddlesCons(a, b);
      assert (a + b)[0] == a[0];
      TailIsNoSpace(a + b);
      StraddlesBehindTails(a[1..], b, k - 1);
      assert a[1..][k - 1..] == a[k..];
    }
  }

  /** The seam of two texts shows: together they show what each shows, unless a character straddles the seam. */
  lemma {:induction false} VisibleAppend(a: seq<byte>, b: seq<byte>)
    ensures Keeps(Visible(a + b), Visible(a) + Visible(b), !Straddles(a, b))
    decreases |a|
  {
    hide SpaceLen, Straddles, Visible;
    if a == [] {
      NothingStraddles(b);
      assert a + b == b;
    } else {
      var s := a + b;
      VisibleStep(a);
      VisibleStep(s);
      assert s[0] == a[0] && s[1..] == a[1..] + b;
      StraddlesCons(a, b);
      if SpaceLen(a) > 0 {
        SpaceInFront(a, b);
      } else if SpaceLen(s) > 0 {
        SpaceAcross(a, b);
      } else {
        VisibleAppend(a[1..], b);
        Associative([a[0]], Visible(a[1..]), Visible(b));
      }
    }
  }

  lemma NothingStraddles(b: seq<byte>)
    ensures !Straddles([], b) && Visible([]) == [] && [] + Visible(b) == Visible(b)
  {
  }

  lemma SpaceInFront(a: seq<byte>, b: seq<byte>)
    requires SpaceLen(a) > 0
    ensures Keeps(Visible(a + b), Visible(a) + Visible(b), !Straddles(a, b))
    decreases |a|, 0
  {
    hide SpaceLen, Straddles, Visible, Utf8.Tail;
    var n := SpaceLen(a);
    var s := a + b;
    SpaceIsLocal(a, s);
    SpaceShape(a);
    VisibleStep(a);
    VisibleStep(s);
    assert s[n..] == a[n..] + b;
    VisibleAppend(a[n..], b);
    StraddlesCons(a, b);
    StraddlesBehindTails(a[1..], b, n - 1);
    assert a[1..][n - 1..] == a[n..];
  }

  lemma SpaceAcross(a: seq<byte>, b: seq<byte>)
    requires a != [] && SpaceLen(a) == 0 && SpaceLen(a + b) > 0
    ensures Straddles(a, b) && |Visible(a + b)| < |Visible(a)| + |Visible(b)|
  {
    hide SpaceLen, Straddles, Visible, Utf8.Tail;
    var s := a + b;
    var m := SpaceLen(s);
    SpaceShape(s);
    if m <= |a| {
      assert a[..m] == s[..m];
      SpaceIsLocal(s, a);
      assert false;
    }
    StraddlesCons(a, b);
    var k := m - |a|;
    VisibleStep(s);
    VisibleStep(a);
    assert forall j | 0 <= j < |a| - 1 :: a[1..][j] == s[j + 1];
    TailsShow(a[1..], |a| - 1);
    assert forall j | 0 <= j < k :: b[j] == s[|a| + j];
    TailsShow(b, k);
    assert s[m..] == b[k..];
  }

  /** Nothing straddles a seam with an ASCII byte or a character's start on the right, or an ASCII byte on the left. */
  predicate Solid(a: seq<byte>) { a == [] || a[|a| - 1] < 0x80 }

  lemma CleanSeam(a: seq<byte>, b: seq<byte>)
    requires Solid(a) || !Tail(b)
    ensures !Straddles(a, b) && Visible(a + b) == Visible(a) + Visible(b)
  {
    hide SpaceLen, Visible;
    VisibleAppend(a, b);
    if Straddles(a, b) {
      var i :| 0 <= i < |a| && SpaceLen(a[i..] + b) > |a| - i;
      var s := a[i..] + b;
      SpaceShape(s);
      assert s[|a| - i] == b[0] && Utf8.Tail(s[|a| - i]);
      assert s[|a| - i - 1] == a[|a| - 1];
      NoAsciiInside(s, |a| - i - 1);
    }
  }

  lemma NoAsciiInside(s: seq<byte>, k: nat)
    requires k + 1 < SpaceLen(s)
    ensures s[k] >= 0x80
  {
  }

  lemma {:induction false} BlanksShowNothing(s: seq<byte>)
    requires forall c <- s :: IsBlank(c)
    ensures Visible(s) == []
  {
    hide SpaceLen, IsBlank;
    if s != [] {
      assert s[0] in s;
      BlankIsSpace(s);
      BlanksShowNothing(s[1..]);
    }
  }

  // ----- trimming -----

  lemma {:induction false} TrimLeftShows(s: seq<byte>)
    ensures Visible(TrimLeft(s)) == Visible(s)
    decreases |s|
  {
    hide SpaceLen;
    var n := SpaceLen(s);
    if n > 0 {
      TrimLeftShows(s[n..]);
    }
  }

  lemma {:induction false} TrimRightShows(s: seq<byte>)
    ensures Visible(TrimRight(s)) == Visible(s)
    decreases |s|
  {
    hide SpaceLen, LastSpaceLen;
    var n := LastSpaceLen(s);
    if n > 0 {
      var init, last := s[..|s| - n], s[|s| - n..];
      TrimRightShows(init);
      SpaceShape(last);
      CleanSeam(init, last);
      assert last[n..] == [] && Visible(last) == [];
      assert init + last == s;
    }
  }

  /** Trimming changes nothing visible, whatever the bytes. */
  lemma TrimSpaceShows(s: seq<byte>)
    ensures Visible(TrimSpace(s)) == Visible(s)
  {
    hide Visible, TrimLeft, TrimRight;
    TrimLeftShows(s);
    TrimRightShows(TrimLeft(s));
  }

  // ----- valid text -----

  /** No tail follows an ASCII byte. */
  predicate NoStrayTail(s: seq<byte>) {
    forall k | 0 < k < |s| :: Utf8.Tail(s[k]) ==> s[k - 1] >= 0x80
  }

  /** A whole character at the front. */
  lemma {:induction false} ValidHasNoStrayTail(s: seq<byte>)
    requires Utf8.Valid(s)
    ensures NoStrayTail(s) && !Tail(s)
    decreases |s|
  {
    if s != [] {
      var n := Utf8.Decode(s).1;
      ValidHasNoStrayTail(s[n..]);
      FrontBytes(s, n);
      hide Utf8.Valid, Utf8.Decode, Utf8.Tail;
      forall k | 0 < k < |s| ensures Utf8.Tail(s[k]) ==> s[k - 1] >= 0x80 {
        if k > n {
          assert s[k] == s[n..][k - n] && s[k - 1] == s[n..][k - n - 1];
        } else if k == n {
          assert s[k] == s[n..][0];
        }
      }
    }
  }

  lemma FrontBytes(s: seq<byte>, n: nat)
    requires s != [] && Utf8.WellFormed(s) && n == Utf8.Width(s[0])
    ensures 1 <= n <= |s| && !Tail(s) && forall k | 0 <= k < n - 1 :: s[k] >= 0x80
  {
  }
}
