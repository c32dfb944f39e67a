/** The Cartesian product of a list of lists in the order Python's
    `itertools.product(*lists)` yields it: the first list varies slowest. */
module Product {

  predicate NoDuplicates<T(==)>(s: seq<T>)
  {
    forall i, j :: 0 <= i < j < |s| ==> s[i] != s[j]
  }

  /** Position of the first occurrence of `x` in `xs`, or `|xs|` when absent. */
  function IndexOf<T(==)>(xs: seq<T>, x: T): (r: nat)
    ensures r <= |xs|
    ensures r < |xs| <==> x in xs
    ensures r < |xs| ==> xs[r] == x
    decreases |xs|
  {
    if |xs| == 0 then 0
    else if xs[0] == x then 0
    else 1 + IndexOf(xs[1..], x)
  }

  function ProductOfLengths<T>(lists: seq<seq<T>>): nat
    decreases |lists|
  {
    if |lists| == 0 then 1 else |lists[0]| * ProductOfLengths(lists[1..])
  }

  lemma ProductOfFourLengths<T>(a: seq<T>, b: seq<T>, c: seq<T>, d: seq<T>)
    ensures ProductOfLengths([a, b, c, d]) == |a| * |b| * |c| * |d|
  {
    assert [d][1..] == [];
    assert ProductOfLengths([d]) == |d|;
    assert [c, d][1..] == [d];
    assert ProductOfLengths([c, d]) == |c| * |d|;
    assert [b, c, d][1..] == [c, d];
    assert ProductOfLengths([b, c, d]) == |b| * (|c| * |d|);
    assert [a, b, c, d][1..] == [b, c, d];
    assert ProductOfLengths([a, b, c, d]) == |a| * (|b| * (|c| * |d|));
  }

  /** `[[x] + t for x in xs for t in tails]`. */
  function Prepend<T>(xs: seq<T>, tails: seq<seq<T>>): (r: seq<seq<T>>)
    ensures |r| == |xs| * |tails|
    ensures forall k :: 0 <= k < |r| ==> |r[k]| > 0 && r[k][0] in xs && r[k][1..] in tails
    decreases |xs|
  {
    if |xs| == 0 then []
    else
      var block := seq(|tails|, j requires 0 <= j < |tails| => [xs[0]] + tails[j]);
      assert forall j :: 0 <= j < |tails| ==> block[j][1..] == tails[j];
      block + Prepend(xs[1..], tails)
  }

  /** `list(itertools.product(*lists))`, each tuple written as a sequence. */
  function CartesianProduct<T>(lists: seq<seq<T>>): (r: seq<seq<T>>)
    ensures |r| == ProductOfLengths(lists)
    ensures forall k :: 0 <= k < |r| ==> |r[k]| == |lists|
    decreases |lists|
  {
    if |lists| == 0 then [[]] else Prepend(lists[0], CartesianProduct(lists[1..]))
  }

  /** The order `itertools.product` produces: tuple `t` comes before `u` when, at the
      first position where they differ, `t` picks an earlier entry of that position's list. */
  predicate LexBefore<T(==)>(lists: seq<seq<T>>, t: seq<T>, u: seq<T>)
    decreases |lists|
  {
    && |lists| > 0 && |t| > 0 && |u| > 0
    && (|| IndexOf(lists[0], t[0]) < IndexOf(lists[0], u[0])
        || (t[0] == u[0] && LexBefore(lists[1..], t[1..], u[1..])))
  }

  predicate SortedBy<T(==)>(lists: seq<seq<T>>, r: seq<seq<T>>)
  {
    forall i, j :: 0 <= i < j < |r| ==> LexBefore(lists, r[i], r[j])
  }

  // ---------------------------------------------------------------------------

  /** Every `[x] + t` with `x` from `xs` and `t` from `tails` is produced. */
  lemma {:induction false} PrependComplete<T>(xs: seq<T>, tails: seq<seq<T>>, u: seq<T>)
    requires |u| > 0 && u[0] in xs && u[1..] in tails
    ensures u in Prepend(xs, tails)
    decreases |xs|
  {
    if u[0] == xs[0] {
      var j :| 0 <= j < |tails| && tails[j] == u[1..];
      assert u == [xs[0]] + tails[j];
      assert Prepend(xs, tails)[j] == u;
    } else {
      PrependComplete(xs[1..], tails, u);
      var rest := Prepend(xs[1..], tails);
      var k :| 0 <= k < |rest| && rest[k] == u;
      assert Prepend(xs, tails)[|tails| + k] == u;
    }
  }

  /** A tuple is in the product exactly when it has one entry per list, each taken
      from its list. */
  lemma {:induction false} ProductMembership<T>(lists: seq<seq<T>>, t: seq<T>)
    ensures t in CartesianProduct(lists)
            <==> |t| == |lists| && forall i :: 0 <= i < |lists| ==> t[i] in lists[i]
    decreases |lists|
  {
    if |lists| > 0 {
      var tails := CartesianProduct(lists[1..]);
      if |t| == |lists| && |t| > 0 {
        ProductMembership(lists[1..], t[1..]);
        assert forall i :: 1 <= i < |lists| ==> t[i] == t[1..][i - 1] && lists[i] == lists[1..][i - 1];
        if forall i :: 0 <= i < |lists| ==> t[i] in lists[i] {
          PrependComplete(lists[0], tails, t);
        }
      } else if t in CartesianProduct(lists) {
        assert false;
      }
    } else {
      assert CartesianProduct(lists) == [[]];
    }
  }

  lemma {:induction false} IndexOfTail<T>(xs: seq<T>, y: T)
    requires |xs| > 0 && y != xs[0]
    ensures IndexOf(xs, y) == 1 + IndexOf(xs[1..], y)
  {
  }

  /** Moving from the order over `xs[1..]` to the order over `xs` keeps two tuples
      whose first entries come from `xs[1..]` in the same order. */
  lemma LexBeforeWiden<T>(xs: seq<T>, rest: seq<seq<T>>, t: seq<T>, u: seq<T>)
    requires |xs| > 0 && NoDuplicates(xs)
    requires |t| > 0 && |u| > 0 && t[0] in xs[1..] && u[0] in xs[1..]
    requires LexBefore([xs[1..]] + rest, t, u)
    ensures LexBefore([xs] + rest, t, u)
  {
    assert ([xs[1..]] + rest)[1..] == rest == ([xs] + rest)[1..];
    var a :| 0 <= a < |xs[1..]| && xs[1..][a] == t[0];
    var b :| 0 <= b < |xs[1..]| && xs[1..][b] == u[0];
    assert t[0] != xs[0] && u[0] != xs[0];
    IndexOfTail(xs, t[0]);
    IndexOfTail(xs, u[0]);
  }

  /** Prepending the entries of a duplicate-free list to sorted tails yields a sorted
      sequence: the blocks for earlier entries come first. */
  lemma {:induction false} PrependSorted<T>(xs: seq<T>, rest: seq<seq<T>>, tails: seq<seq<T>>)
    requires NoDuplicates(xs)
    requires SortedBy(rest, tails)
    ensures SortedBy([xs] + rest, Prepend(xs, tails))
    decreases |xs|
  {
    if |xs| > 0 {
      var r := Prepend(xs, tails);
      var n := |tails|;
      var later := Prepend(xs[1..], tails);
      assert NoDuplicates(xs[1..]);
      PrependSorted(xs[1..], rest, tails);
      assert r == r[..n] + later;
      assert ([xs] + rest)[1..] == rest;
      forall i, j | 0 <= i < j < |r|
        ensures LexBefore([xs] + rest, r[i], r[j])
      {
        if j < n {
          assert r[i] == [xs[0]] + tails[i] && r[j] == [xs[0]] + tails[j];
          assert r[i][1..] == tails[i] && r[j][1..] == tails[j];
        } else if i < n {
          assert r[i] == [xs[0]] + tails[i];
          assert r[j] == later[j - n];
          var y := r[j][0];
          assert y in xs[1..];
          var b :| 0 <= b < |xs[1..]| && xs[1..][b] == y;
          assert y != xs[0];
        } else {
          assert r[i] == later[i - n] && r[j] == later[j - n];
          LexBeforeWiden(xs, rest, r[i], r[j]);
        }
      }
    }
  }

  /** The product comes out in `itertools.product` order. */
  lemma {:induction false} ProductSorted<T>(lists: seq<seq<T>>)
    requires forall i :: 0 <= i < |lists| ==> NoDuplicates(lists[i])
    ensures SortedBy(lists, CartesianProduct(lists))
    decreases |lists|
  {
    if |lists| > 0 {
      ProductSorted(lists[1..]);
      PrependSorted(lists[0], lists[1..], CartesianProduct(lists[1..]));
      assert [lists[0]] + lists[1..] == lists;
    }
  }

  /** No tuple comes before itself. */
  lemma {:induction false} LexIrreflexive<T>(lists: seq<seq<T>>, t: seq<T>)
    ensures !LexBefore(lists, t, t)
    decreases |lists|
  {
    if |lists| > 0 && |t| > 0 {
      LexIrreflexive(lists[1..], t[1..]);
    }
  }

  /** A sorted sequence has no repeated tuple. */
  lemma SortedNoDuplicates<T>(lists: seq<seq<T>>, r: seq<seq<T>>)
    requires SortedBy(lists, r)
    ensures NoDuplicates(r)
  {
    forall i, j | 0 <= i < j < |r|
      ensures r[i] != r[j]
    {
      LexIrreflexive(lists, r[i]);
    }
  }
}
