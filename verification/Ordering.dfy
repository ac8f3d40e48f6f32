/** Finite sets of integers listed in ascending order. */
module Ordering {
  predicate Ascending(xs: seq<nat>) {
    forall i, j | 0 <= i < j < |xs| :: xs[i] < xs[j]
  }

  ghost predicate Lists(xs: seq<nat>, s: set<nat>) {
    Ascending(xs) && s == set i | 0 <= i < |xs| :: xs[i]
  }

  ghost predicate IsLeast(m: nat, s: set<nat>) { m in s && forall x | x in s :: m <= x }

  lemma {:induction false} HasLeast(s: set<nat>)
    requires s != {}
    ensures exists m :: IsLeast(m, s)
    decreases |s|
  {
    var k :| k in s;
    if s - {k} == {} {
      assert s == {k};
      assert IsLeast(k, s);
    } else {
      HasLeast(s - {k});
      var n :| IsLeast(n, s - {k});
      var m := if n < k then n else k;
      forall x | x in s
        ensures m <= x
      {
        if x != k {
          assert x in s - {k};
        }
      }
      assert IsLeast(m, s);
    }
  }

  lemma {:induction false} ListingUnique(xs: seq<nat>, ys: seq<nat>, s: set<nat>)
    requires Lists(xs, s) && Lists(ys, s)
    ensures xs == ys
    decreases |xs|
  {
    ListingSize(xs, s);
    ListingSize(ys, s);
    if xs != [] {
      assert xs[0] in s && ys[0] in s;
      assert xs[0] == ys[0];
      ListsTail(xs, s);
      ListsTail(ys, s);
      ListingUnique(xs[1..], ys[1..], s - {xs[0]});
    }
  }

  lemma ListsTail(xs: seq<nat>, s: set<nat>)
    requires Lists(xs, s) && xs != []
    ensures Lists(xs[1..], s - {xs[0]})
  {
    var t := xs[1..];
    forall x | x in s - {xs[0]}
      ensures x in set i | 0 <= i < |t| :: t[i]
    {
      var i :| 0 <= i < |xs| && xs[i] == x;
      assert t[i - 1] == x;
    }
  }

  lemma {:induction false} ListingSize(xs: seq<nat>, s: set<nat>)
    requires Lists(xs, s)
    ensures |xs| == |s|
    decreases |xs|
  {
    if xs == [] {
      assert s == {};
    } else {
      assert xs[0] in s;
      ListsTail(xs, s);
      ListingSize(xs[1..], s - {xs[0]});
    }
  }

  /** [...s].sort((a, b) => a - b) */
  method Sort(s: set<nat>) returns (xs: seq<nat>)
    ensures Lists(xs, s)
  {
    xs := [];
    var left := s;
    while left != {}
      invariant left <= s && Lists(xs, s - left)
      invariant forall x, y | x in s - left && y in left :: x < y
    {
      HasLeast(left);
      var m :| m in left && forall x | x in left :: m <= x;
      ListsSnoc(xs, m, s - left);
      assert s - (left - {m}) == (s - left) + {m};
      xs := xs + [m];
      left := left - {m};
    }
    assert s - {} == s;
  }

  lemma ListsSnoc(xs: seq<nat>, m: nat, s: set<nat>)
    requires Lists(xs, s) && forall x | x in s :: x < m
    ensures Lists(xs + [m], s + {m})
  {
    var ys := xs + [m];
    forall i, j | 0 <= i < j < |ys|
      ensures ys[i] < ys[j]
    {
      assert xs[i] in s;
    }
    forall x | x in s + {m}
      ensures x in set i | 0 <= i < |ys| :: ys[i]
    {
      if x in s {
        var i :| 0 <= i < |xs| && xs[i] == x;
        assert ys[i] == x;
      } else {
        assert ys[|xs|] == m;
      }
    }
  }
}
