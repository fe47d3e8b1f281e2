/** Finite sets of integers listed in ascending order. */
module Sorted {

  ghost predicate Ascending(xs: seq<nat>) {
    forall i, j :: 0 <= i < j < |xs| ==> xs[i] < xs[j]
  }

  /** The members of the set, each once, in ascending order. */
  ghost predicate Lists(xs: seq<nat>, keys: set<nat>) {
    Ascending(xs) && (forall x: nat :: x in xs <==> x in keys)
  }

  lemma {:induction false} Least(keys: set<nat>) returns (m: nat)
    requires keys != {}
    ensures m in keys && forall k :: k in keys ==> m <= k
    decreases |keys|
  {
    var x :| x in keys;
    if keys == {x} {
      m := x;
    } else {
      var l := Least(keys - {x});
      m := if x < l then x else l;
      forall k | k in keys ensures m <= k {
        assert k == x || k in keys - {x};
      }
    }
  }

  lemma ListsSnoc(xs: seq<nat>, keys: set<nat>, m: nat)
    requires Lists(xs, keys) && forall x: nat :: x in keys ==> x < m
    ensures Lists(xs + [m], keys + {m})
  {
    var ys := xs + [m];
    forall i, j | 0 <= i < j < |ys| ensures ys[i] < ys[j] {
      assert ys[i] in keys;
    }
  }

  ghost predicate Below(a: set<nat>, b: set<nat>) {
    forall x: nat, y: nat :: x in a && y in b ==> x < y
  }

  lemma BelowNext(a: set<nat>, b: set<nat>, m: nat)
    requires Below(a, b) && m in b && forall k :: k in b ==> m <= k
    ensures Below(a + {m}, b - {m}) && forall x :: x in a ==> x < m
  {
  }

  method Smallest(keys: set<nat>) returns (m: nat)
    requires keys != {}
    ensures m in keys && forall k :: k in keys ==> m <= k
  {
    ghost var l := Least(keys);
    m :| m in keys && forall k :: k in keys ==> m <= k;
  }

  method SortedKeys(keys: set<nat>) returns (xs: seq<nat>)
    ensures Lists(xs, keys)
  {
    hide Lists, Below;
    xs := [];
    var left := keys;
    ghost var done: set<nat> := {};
    NothingListed();
    while left != {}
      invariant done + left == keys && Lists(xs, done) && Below(done, left)
      decreases |left|
    {
      var m := Smallest(left);
      BelowNext(done, left, m);
      ListsSnoc(xs, done, m);
      xs, left, done := xs + [m], left - {m}, done + {m};
    }
    assert done == keys;
  }

  lemma NothingListed()
    ensures Lists([], {}) && forall b :: Below({}, b)
  {
  }

  lemma {:induction false} ListsIsUnique(xs: seq<nat>, ys: seq<nat>, keys: set<nat>)
    requires Lists(xs, keys) && Lists(ys, keys)
    ensures xs == ys
    decreases |xs|
  {
    assert (xs != [] ==> xs[0] in xs) && (ys != [] ==> ys[0] in ys);
    if xs != [] {
      var rest := keys - {xs[0]};
      assert xs[0] == ys[0] by {
        var j :| 0 <= j < |ys| && ys[j] == xs[0];
        assert ys[0] in ys && ys[0] in xs;
      }
      TailLists(xs, keys);
      TailLists(ys, keys);
      ListsIsUnique(xs[1..], ys[1..], rest);
      assert xs == [xs[0]] + xs[1..] && ys == [ys[0]] + ys[1..];
    }
  }

  lemma TailLists(xs: seq<nat>, keys: set<nat>)
    requires xs != [] && Lists(xs, keys)
    ensures Lists(xs[1..], keys - {xs[0]})
  {
    var rest := keys - {xs[0]};
    forall x: nat ensures x in xs[1..] <==> x in rest {
      if x in rest {
        var j :| 0 <= j < |xs| && xs[j] == x;
        assert x == xs[1..][j - 1];
      }
    }
  }

  lemma {:induction false} AscendingIsShort(xs: seq<nat>, bound: nat)
    requires Ascending(xs) && forall x <- xs :: x < bound
    ensures |xs| <= bound
    decreases bound
  {
    if xs != [] {
      var n := |xs| - 1;
      assert xs[n] in xs;
      AscendingIsShort(xs[..n], xs[n]);
    }
  }
}
