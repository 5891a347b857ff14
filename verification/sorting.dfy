/** The descending sorts the core relies on: Python's sort(reverse=True) of
    tuples whose second component is distinct, so that no two keys are equal.
    Elements are sorted as indices 0..n-1 into the key sequences. */
module KeySort {
  import opened Seqs

  /** Index i comes before index j in a descending sort on (primary, secondary). */
  predicate Ahead(primary: seq<real>, secondary: seq<int>, i: nat, j: nat)
    requires |secondary| == |primary| && i < |primary| && j < |primary|
  {
    primary[i] > primary[j] || (primary[i] == primary[j] && secondary[i] > secondary[j])
  }

  predicate InRange(order: seq<nat>, n: nat)
  {
    forall p :: 0 <= p < |order| ==> order[p] < n
  }

  /** No index of `order` is ahead of one placed before it. */
  predicate Descending(order: seq<nat>, primary: seq<real>, secondary: seq<int>)
    requires |secondary| == |primary|
  {
    && InRange(order, |primary|)
    && forall p, q :: 0 <= p < q < |order| ==> !Ahead(primary, secondary, order[q], order[p])
  }

  /** Insertion of index i into a descending order. */
  function Insert(i: nat, s: seq<nat>, primary: seq<real>, secondary: seq<int>): (r: seq<nat>)
    requires |secondary| == |primary| && i < |primary|
    requires InRange(s, |primary|)
    ensures |r| == |s| + 1
    ensures forall x :: x in r <==> x == i || x in s
    ensures InRange(r, |primary|)
  {
    if s == [] then [i]
    else if Ahead(primary, secondary, s[0], i) then
      assert s == [s[0]] + s[1..];
      [s[0]] + Insert(i, s[1..], primary, secondary)
    else
      [i] + s
  }

  lemma {:induction false} InsertDescending(i: nat, s: seq<nat>, primary: seq<real>, secondary: seq<int>)
    requires |secondary| == |primary| && i < |primary|
    requires Descending(s, primary, secondary)
    ensures Descending(Insert(i, s, primary, secondary), primary, secondary)
  {
    if s != [] && Ahead(primary, secondary, s[0], i) {
      var rest := Insert(i, s[1..], primary, secondary);
      InsertDescending(i, s[1..], primary, secondary);
      forall q | 0 <= q < |rest|
        ensures !Ahead(primary, secondary, rest[q], s[0])
      {
        assert rest[q] in rest;
        if rest[q] != i {
          assert rest[q] in s[1..];
        }
      }
      var r := [s[0]] + rest;
      forall p, q | 0 <= p < q < |r|
        ensures !Ahead(primary, secondary, r[q], r[p])
      {
        if p > 0 {
          assert r[p] == rest[p - 1] && r[q] == rest[q - 1];
        }
      }
    }
  }

  lemma {:induction false} InsertDistinct(i: nat, s: seq<nat>, primary: seq<real>, secondary: seq<int>)
    requires |secondary| == |primary| && i < |primary|
    requires InRange(s, |primary|)
    requires Distinct(s) && i !in s
    ensures Distinct(Insert(i, s, primary, secondary))
  {
    if s != [] && Ahead(primary, secondary, s[0], i) {
      var rest := Insert(i, s[1..], primary, secondary);
      InsertDistinct(i, s[1..], primary, secondary);
      assert s[0] !in s[1..];
      assert s[0] !in rest;
      var r := [s[0]] + rest;
      forall p, q | 0 <= p < q < |r|
        ensures r[p] != r[q]
      {
        if p > 0 {
          assert r[p] == rest[p - 1] && r[q] == rest[q - 1];
        } else {
          assert r[q] in rest;
        }
      }
    }
  }

  /** The indices 0..k-1 sorted descending by key. */
  function SortIndices(primary: seq<real>, secondary: seq<int>, k: nat): (order: seq<nat>)
    requires |secondary| == |primary| && k <= |primary|
    ensures |order| == k
    ensures forall x :: x in order ==> x < k
    ensures InRange(order, |primary|)
  {
    if k == 0 then []
    else Insert(k - 1, SortIndices(primary, secondary, k - 1), primary, secondary)
  }

  /** The sort yields a descending order of the indices. */
  lemma {:induction false} SortIndicesDescending(primary: seq<real>, secondary: seq<int>, k: nat)
    requires |secondary| == |primary| && k <= |primary|
    ensures Descending(SortIndices(primary, secondary, k), primary, secondary)
  {
    if k > 0 {
      SortIndicesDescending(primary, secondary, k - 1);
      InsertDescending(k - 1, SortIndices(primary, secondary, k - 1), primary, secondary);
    }
  }

  /** The sort yields a permutation of 0..k-1. */
  lemma {:induction false} SortIndicesPermutation(primary: seq<real>, secondary: seq<int>, k: nat)
    requires |secondary| == |primary| && k <= |primary|
    ensures IsPermutation(SortIndices(primary, secondary, k), k)
  {
    if k > 0 {
      var s := SortIndices(primary, secondary, k - 1);
      SortIndicesPermutation(primary, secondary, k - 1);
      InsertDistinct(k - 1, s, primary, secondary);
    }
    var order := SortIndices(primary, secondary, k);
    forall p | 0 <= p < k ensures order[p] < k {
      assert order[p] in order;
    }
  }

  /** xs listed in the order `order`. */
  function Apply<T>(xs: seq<T>, order: seq<nat>): (r: seq<T>)
    requires InRange(order, |xs|)
    ensures |r| == |order|
    ensures forall p :: 0 <= p < |order| ==> r[p] == xs[order[p]]
  {
    seq(|order|, p requires 0 <= p < |order| => xs[order[p]])
  }

  lemma ApplyCons<T>(xs: seq<T>, a: nat, s: seq<nat>)
    requires a < |xs| && InRange(s, |xs|)
    ensures InRange([a] + s, |xs|)
    ensures Apply(xs, [a] + s) == [xs[a]] + Apply(xs, s)
  {
    assert InRange([a] + s, |xs|) by {
      forall p | 0 <= p < |[a] + s| ensures ([a] + s)[p] < |xs| {
        if p > 0 {
          assert ([a] + s)[p] == s[p - 1];
        }
      }
    }
  }

  lemma {:induction false} InsertApply<T>(xs: seq<T>, i: nat, s: seq<nat>, primary: seq<real>, secondary: seq<int>)
    requires |secondary| == |primary| == |xs| && i < |primary|
    requires InRange(s, |xs|)
    ensures multiset(Apply(xs, Insert(i, s, primary, secondary))) == multiset(Apply(xs, s)) + multiset{xs[i]}
  {
    if s == [] {
      assert Apply(xs, [i]) == [xs[i]];
    } else if Ahead(primary, secondary, s[0], i) {
      var rest := Insert(i, s[1..], primary, secondary);
      assert Insert(i, s, primary, secondary) == [s[0]] + rest;
      InsertApply(xs, i, s[1..], primary, secondary);
      ApplyCons(xs, s[0], rest);
      ApplyCons(xs, s[0], s[1..]);
      assert [s[0]] + s[1..] == s;
      assert multiset(Apply(xs, [s[0]] + rest)) == multiset{xs[s[0]]} + multiset(Apply(xs, rest));
      assert multiset(Apply(xs, s)) == multiset{xs[s[0]]} + multiset(Apply(xs, s[1..]));
    } else {
      ApplyCons(xs, i, s);
    }
  }

  /** Listing xs in sorted order loses and adds nothing. */
  lemma {:induction false} SortApply<T>(xs: seq<T>, primary: seq<real>, secondary: seq<int>, k: nat)
    requires |secondary| == |primary| == |xs| && k <= |xs|
    ensures multiset(Apply(xs, SortIndices(primary, secondary, k))) == multiset(xs[..k])
  {
    if k == 0 {
      assert Apply(xs, []) == [];
    } else {
      assert xs[..k] == xs[..k - 1] + [xs[k - 1]];
      assert multiset(xs[..k]) == multiset(xs[..k - 1]) + multiset{xs[k - 1]};
      var s := SortIndices(primary, secondary, k - 1);
      var r := Insert(k - 1, s, primary, secondary);
      assert SortIndices(primary, secondary, k) == r;
      SortApply(xs, primary, secondary, k - 1);
      assert multiset(Apply(xs, s)) == multiset(xs[..k - 1]);
      InsertApply(xs, k - 1, s, primary, secondary);
      assert multiset(Apply(xs, r)) == multiset(Apply(xs, s)) + multiset{xs[k - 1]};
    }
  }
}
