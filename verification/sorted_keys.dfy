/** Finite sets of integer keys in descending order: the order of an
    `ORDER BY id DESC` query. */
module SortedKeys {

  /** Strictly decreasing, hence also free of duplicates. */
  predicate Descending(xs: seq<int>)
  {
    forall i, j :: 0 <= i < j < |xs| ==> xs[i] > xs[j]
  }

  /** Some element of a non-empty set. */
  lemma Pick<T>(ks: set<T>) returns (x: T)
    requires ks != {}
    ensures x in ks
  {
    x :| x in ks;
  }

  /** Every non-empty finite set of integers has a greatest element. */
  lemma {:induction false} MaxExists(ks: set<int>)
    requires ks != {}
    ensures exists m :: m in ks && forall k :: k in ks ==> k <= m
    decreases |ks|
  {
    var x := Pick(ks);
    if ks == {x} {
      assert forall k :: k in ks ==> k <= x;
    } else {
      MaxExists(ks - {x});
      var m :| m in ks - {x} && forall k :: k in ks - {x} ==> k <= m;
      var top := if x <= m then m else x;
      forall k | k in ks
        ensures k <= top
      {
        if k != x {
          assert k in ks - {x};
        }
      }
    }
  }

  /** The greatest element of a non-empty set. */
  function Max(ks: set<int>): (m: int)
    requires ks != {}
    ensures m in ks && forall k :: k in ks ==> k <= m
  {
    MaxExists(ks);
    var m :| m in ks && forall k :: k in ks ==> k <= m;
    m
  }

  /** The elements of `ks`, greatest first. */
  function KeysDesc(ks: set<int>): (r: seq<int>)
    ensures Descending(r)
    ensures forall i :: 0 <= i < |r| ==> r[i] in ks
    ensures forall k :: k in r <==> k in ks
    ensures |r| == |ks|
    decreases |ks|
  {
    if ks == {} then []
    else
      var m := Max(ks);
      [m] + KeysDesc(ks - {m})
  }

  /** Sequences with the same members are empty together. */
  lemma SameEmptiness(a: seq<int>, b: seq<int>)
    requires forall k :: k in a <==> k in b
    ensures a == [] <==> b == []
  {
    if a != [] {
      var x := a[0];
      assert x in a;
    }
    if b != [] {
      var y := b[0];
      assert y in b;
    }
  }

  /** The tail of a descending sequence is descending, lies strictly below
      the head, and holds every other element. */
  lemma DescendingTail(xs: seq<int>)
    requires Descending(xs) && xs != []
    ensures Descending(xs[1..])
    ensures forall x :: x in xs[1..] <==> x in xs && x != xs[0]
  {
    forall x | x in xs[1..]
      ensures x < xs[0]
    {
      var j :| 0 <= j < |xs[1..]| && xs[1..][j] == x;
      assert xs[j + 1] == x;
    }
    assert xs == [xs[0]] + xs[1..];
  }

  /** Putting an element above all of a descending sequence in front keeps it descending. */
  lemma DescendingCons(x: int, xs: seq<int>)
    requires Descending(xs)
    requires forall y :: y in xs ==> y < x
    ensures Descending([x] + xs)
  {
    forall i, j | 0 <= i < j < |[x] + xs|
      ensures ([x] + xs)[i] > ([x] + xs)[j]
    {
      assert ([x] + xs)[j] == xs[j - 1];
      assert xs[j - 1] in xs;
    }
  }

  /** A set has exactly one descending enumeration. */
  lemma {:induction false} DescendingUnique(a: seq<int>, b: seq<int>)
    requires Descending(a) && Descending(b)
    requires forall k :: k in a <==> k in b
    ensures a == b
    decreases |a|
  {
    SameEmptiness(a, b);
    if a != [] {
      DescendingTail(a);
      DescendingTail(b);
      var x, y := a[0], b[0];
      assert x in a && y in b;
      assert x == y;
      DescendingUnique(a[1..], b[1..]);
      assert a == [x] + a[1..];
      assert b == [y] + b[1..];
    }
  }

  /** Enumerating a set after adding a key above all of it puts that key first. */
  lemma KeysDescInsertTop(ks: set<int>, n: int)
    requires forall k :: k in ks ==> k < n
    ensures KeysDesc(ks + {n}) == [n] + KeysDesc(ks)
  {
    var r := KeysDesc(ks);
    DescendingCons(n, r);
    DescendingUnique(KeysDesc(ks + {n}), [n] + r);
  }

  /** `xs` with every occurrence of `k` removed, order kept. */
  function WithoutKey(xs: seq<int>, k: int): (r: seq<int>)
    ensures forall x :: x in r <==> x in xs && x != k
    ensures Descending(xs) ==> Descending(r)
    decreases |xs|
  {
    if xs == [] then []
    else
      var rest := WithoutKey(xs[1..], k);
      assert Descending(xs) ==> Descending(xs[1..]) && forall x :: x in rest ==> x < xs[0] by {
        if Descending(xs) {
          DescendingTail(xs);
        }
      }
      if xs[0] == k then rest
      else
        assert Descending(xs) ==> Descending([xs[0]] + rest) by {
          if Descending(xs) {
            DescendingCons(xs[0], rest);
          }
        }
        [xs[0]] + rest
  }

  /** Removing a key from the set and filtering it out of the enumeration agree. */
  lemma KeysDescWithout(ks: set<int>, k: int)
    ensures KeysDesc(ks - {k}) == WithoutKey(KeysDesc(ks), k)
  {
    DescendingUnique(KeysDesc(ks - {k}), WithoutKey(KeysDesc(ks), k));
  }
}
