/** Byte buffers: runs of zeros, concatenations, overwriting a stretch, and writing into an array in place. */
module Buffers {
  import opened Bytes

  function Zeros(n: nat): (z: seq<byte>)
    ensures |z| == n
  {
    seq(n, _ => 0)
  }

  function Flat(xs: seq<seq<byte>>): seq<byte> {
    if xs == [] then [] else xs[0] + Flat(xs[1..])
  }

  lemma {:induction false} FlatAppend(xs: seq<seq<byte>>, ys: seq<seq<byte>>)
    ensures Flat(xs + ys) == Flat(xs) + Flat(ys)
  {
    if xs == [] {
      assert xs + ys == ys;
    } else {
      assert (xs + ys)[1..] == xs[1..] + ys;
      FlatAppend(xs[1..], ys);
    }
  }

  lemma FlatSnoc(xs: seq<seq<byte>>, k: nat)
    requires k < |xs|
    ensures Flat(xs[..k + 1]) == Flat(xs[..k]) + xs[k]
  {
    hide Flat;
    assert xs[..k + 1] == xs[..k] + [xs[k]];
    FlatAppend(xs[..k], [xs[k]]);
    FlatOne(xs[k]);
  }

  lemma FlatAt(xs: seq<seq<byte>>, k: nat)
    requires k < |xs|
    ensures Flat(xs) == Flat(xs[..k]) + xs[k] + Flat(xs[k + 1..])
    ensures Flat(xs[..k + 1]) == Flat(xs[..k]) + xs[k]
  {
    hide Flat;
    FlatSnoc(xs, k);
    var a, b := xs[..k + 1], xs[k + 1..];
    assert xs == a + b;
    FlatAppend(a, b);
  }

  lemma FlatOne(x: seq<byte>)
    ensures Flat([x]) == x
  {
    assert Flat([x]) == x + Flat([]);
  }

  lemma FlatLengths(xs: seq<seq<byte>>, k: nat)
    requires k < |xs| && forall x <- xs :: |x| % 4 == 0
    ensures |Flat(xs[..k + 1])| == |Flat(xs[..k])| + |xs[k]| <= |Flat(xs)|
    ensures |Flat(xs[..k])| % 4 == 0
  {
    FlatAt(xs, k);
    FlatAligned(xs[..k]);
  }

  lemma {:induction false} FlatAligned(xs: seq<seq<byte>>)
    requires forall x <- xs :: |x| % 4 == 0
    ensures |Flat(xs)| % 4 == 0
  {
    if xs != [] {
      assert xs[0] in xs;
      FlatAligned(xs[1..]);
      AlignedSum(|xs[0]|, |Flat(xs[1..])|);
    }
  }

  lemma AlignedSum(a: nat, b: nat)
    requires a % 4 == 0 && b % 4 == 0
    ensures (a + b) % 4 == 0
  {
  }

  lemma FlatNothing(xs: seq<seq<byte>>)
    ensures Flat(xs[..0]) == []
  {
    assert xs[..0] == [];
  }

  lemma {:induction false} FlatFixed(xs: seq<seq<byte>>, k: nat)
    requires k <= |xs| && forall x <- xs :: |x| == 16
    ensures |Flat(xs[..k])| == 16 * k
  {
    if k > 0 {
      FlatFixed(xs, k - 1);
      FlatAt(xs, k - 1);
      hide Flat;
      assert |Flat(xs[..k])| == |Flat(xs[..k - 1])| + |xs[k - 1]|;
    }
  }

  lemma FlatUpdate(xs: seq<seq<byte>>, k: nat, at: nat, p: seq<byte>)
    requires k < |xs| && at + |p| <= |xs[k]|
    ensures |Flat(xs[..k])| + at + |p| <= |Flat(xs)|
    ensures Splice(Flat(xs), |Flat(xs[..k])| + at, p) == Flat(xs[k := Splice(xs[k], at, p)])
  {
    hide Flat, Splice;
    FlatAt(xs, k);
    var ys := xs[k := Splice(xs[k], at, p)];
    FlatAt(ys, k);
    assert ys[..k] == xs[..k] && ys[k + 1..] == xs[k + 1..];
    SpliceInto(Flat(xs[..k]), xs[k], Flat(xs[k + 1..]), at, p);
  }

  // ----- overwriting -----

  function Splice(s: seq<byte>, at: nat, p: seq<byte>): (r: seq<byte>)
    requires at + |p| <= |s|
    ensures |r| == |s|
  {
    s[..at] + p + s[at + |p|..]
  }

  lemma SpliceInto(a: seq<byte>, x: seq<byte>, c: seq<byte>, at: nat, p: seq<byte>)
    requires at + |p| <= |x|
    ensures Splice(a + x + c, |a| + at, p) == a + Splice(x, at, p) + c
  {
  }

  method Put(out: array<byte>, at: nat, p: seq<byte>)
    requires at + |p| <= out.Length
    modifies out
    ensures out[..] == Splice(old(out[..]), at, p)
  {
    for i := 0 to |p|
      invariant out[..at + i] == old(out[..at]) + p[..i]
      invariant out[at + i..] == old(out[at + i..])
    {
      out[at + i] := p[i];
    }
    assert out[..] == out[..at + |p|] + out[at + |p|..];
  }

  lemma SpliceLast(a: seq<byte>, c: seq<byte>, at: nat, p: seq<byte>)
    requires at + |p| <= |c|
    ensures Splice(a + c, |a| + at, p) == a + Splice(c, at, p)
  {
  }

  // ----- writing behind what is there -----

  lemma SpliceEnd(a: seq<byte>, m: nat, p: seq<byte>)
    requires |p| <= m
    ensures Splice(a + Zeros(m), |a|, p) == a + p + Zeros(m - |p|)
  {
    assert Zeros(m)[|p|..] == Zeros(m - |p|);
  }

  lemma SpliceSkip(a: seq<byte>, m: nat, k: nat, p: seq<byte>)
    requires k + |p| <= m
    ensures Splice(a + Zeros(m), |a| + k, p) == a + Zeros(k) + p + Zeros(m - k - |p|)
  {
    assert Zeros(m) == Zeros(k) + Zeros(m - k);
    assert a + Zeros(m) == a + Zeros(k) + Zeros(m - k);
    SpliceEnd(a + Zeros(k), m - k, p);
  }

  lemma ZerosSplit(n: nat, k: nat)
    requires k <= n
    ensures Zeros(n) == Zeros(k) + Zeros(n - k) && Zeros(0) == []
  {
  }

  /** The next field, right behind what has been written so far. */
  method PutNext(out: array<byte>, ghost a: seq<byte>, at: nat, p: seq<byte>)
    requires at == |a| && at + |p| <= out.Length && out[..] == a + Zeros(out.Length - at)
    modifies out
    ensures out[..] == a + p + Zeros(out.Length - at - |p|)
  {
    SpliceEnd(a, out.Length - at, p);
    Put(out, at, p);
  }

  method PutFirst(out: array<byte>, p: seq<byte>)
    requires |p| <= out.Length && out[..] == Zeros(out.Length)
    modifies out
    ensures out[..] == p + Zeros(out.Length - |p|)
  {
    ZerosSplit(out.Length, |p|);
    Put(out, 0, p);
  }
}
