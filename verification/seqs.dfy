/** Facts about sequences, sets and sums of reals shared by the model. */
module Seqs {

  /** No element occurs twice. */
  predicate Distinct<T(==)>(s: seq<T>)
  {
    forall i, j :: 0 <= i < j < |s| ==> s[i] != s[j]
  }

  /** The elements of a sequence, as a set. */
  function Elems<T>(s: seq<T>): set<T>
  {
    set x | x in s
  }

  /** The indices 0, 1, ..., n - 1 in increasing order. */
  function Range(n: nat): (r: seq<nat>)
    ensures |r| == n
    ensures forall i :: 0 <= i < n ==> r[i] == i
    ensures forall x :: x in r ==> x < n
  {
    if n == 0 then [] else Range(n - 1) + [n - 1]
  }

  /** `p` lists every index below `n` exactly once. */
  predicate IsPermutation(p: seq<nat>, n: nat)
  {
    |p| == n && Distinct(p) && forall i :: 0 <= i < |p| ==> p[i] < n
  }

  /** Sum of a sequence of reals. */
  function Sum(s: seq<real>): real
  {
    if |s| == 0 then 0.0 else Sum(s[..|s| - 1]) + s[|s| - 1]
  }

  /** Largest element (0 for the empty sequence). */
  function Max(s: seq<int>): (m: int)
    ensures forall i :: 0 <= i < |s| ==> s[i] <= m
    ensures |s| > 0 ==> exists i :: 0 <= i < |s| && s[i] == m
    ensures |s| == 0 ==> m == 0
  {
    if |s| == 0 then 0
    else if |s| == 1 then s[0]
    else
      var m' := Max(s[..|s| - 1]);
      assert forall i :: 0 <= i < |s| - 1 ==> s[..|s| - 1][i] == s[i];
      if s[|s| - 1] > m' then s[|s| - 1] else m'
  }

  lemma {:induction false} ElemsCard<T>(s: seq<T>)
    ensures |Elems(s)| <= |s|
    ensures Distinct(s) ==> |Elems(s)| == |s|
  {
    if |s| > 0 {
      var t := s[..|s| - 1];
      ElemsCard(t);
      assert Elems(s) == Elems(t) + {s[|s| - 1]} by {
        assert forall x :: x in s <==> x in t || x == s[|s| - 1] by {
          assert s == t + [s[|s| - 1]];
        }
      }
      if Distinct(s) {
        assert s[|s| - 1] !in Elems(t);
      }
    }
  }

  /** The set {0, ..., n - 1}. */
  function RangeSet(n: nat): set<nat>
  {
    Elems(Range(n))
  }

  lemma RangeSetMembers(n: nat)
    ensures forall r: nat :: r in RangeSet(n) <==> r < n
  {
    forall r: nat | r < n ensures r in RangeSet(n) {
      assert Range(n)[r] == r;
    }
  }

  lemma RangeSetCard(n: nat)
    ensures |RangeSet(n)| == n
  {
    ElemsCard(Range(n));
  }

  /** A permutation of 0..n-1 contains every index below n (pigeonhole). */
  lemma {:induction false} PermutationCovers(p: seq<nat>, n: nat)
    requires IsPermutation(p, n)
    ensures Elems(p) == RangeSet(n)
    ensures forall r :: 0 <= r < n ==> r in p
  {
    ElemsCard(p);
    RangeSetCard(n);
    RangeSetMembers(n);
    var e := Elems(p);
    assert e <= RangeSet(n);
    assert |RangeSet(n) - e| == 0;
    assert RangeSet(n) - e == {};
    forall r | 0 <= r < n ensures r in p {
      assert r in RangeSet(n);
    }
  }

  lemma {:induction false} SumAppend(a: seq<real>, b: seq<real>)
    ensures Sum(a + b) == Sum(a) + Sum(b)
  {
    if |b| == 0 {
      assert a + b == a;
    } else {
      var b' := b[..|b| - 1];
      assert (a + b)[..|a + b| - 1] == a + b';
      SumAppend(a, b');
    }
  }

  /** Summing after dividing every element by c divides the sum by c. */
  lemma {:induction false} SumScale(s: seq<real>, c: real, t: seq<real>)
    requires c != 0.0
    requires |t| == |s|
    requires forall i :: 0 <= i < |s| ==> t[i] == s[i] / c
    ensures Sum(t) == Sum(s) / c
  {
    if |s| > 0 {
      SumScale(s[..|s| - 1], c, t[..|t| - 1]);
    }
  }

  /** A sum of numbers in [0, 1] lies in [0, |s|]. */
  lemma {:induction false} SumBounds(s: seq<real>)
    requires forall i :: 0 <= i < |s| ==> 0.0 <= s[i] <= 1.0
    ensures 0.0 <= Sum(s) <= |s| as real
  {
    if |s| > 0 {
      SumBounds(s[..|s| - 1]);
    }
  }

  /** A sum of numbers in [lo, hi] lies in [|s| * lo, |s| * hi]. */
  lemma {:induction false} SumWithin(s: seq<real>, lo: real, hi: real)
    requires forall i :: 0 <= i < |s| ==> lo <= s[i] <= hi
    ensures |s| as real * lo <= Sum(s) <= |s| as real * hi
  {
    if |s| > 0 {
      SumWithin(s[..|s| - 1], lo, hi);
    }
  }

  /** A sum of positive numbers is positive, once there is one. */
  lemma {:induction false} SumPositive(s: seq<real>)
    requires |s| > 0
    requires forall i :: 0 <= i < |s| ==> s[i] > 0.0
    ensures Sum(s) > 0.0
  {
    if |s| > 1 {
      SumPositive(s[..|s| - 1]);
    }
  }

  /** Sum of n copies of x. */
  lemma {:induction false} SumConstant(s: seq<real>, x: real)
    requires forall i :: 0 <= i < |s| ==> s[i] == x
    ensures Sum(s) == |s| as real * x
  {
    if |s| > 0 {
      SumConstant(s[..|s| - 1], x);
    }
  }

  /** The reversed sequence. */
  function Reversed<T>(s: seq<T>): (r: seq<T>)
    ensures |r| == |s|
  {
    if |s| == 0 then [] else [s[|s| - 1]] + Reversed(s[..|s| - 1])
  }

  lemma {:induction false} ReversedAt<T>(s: seq<T>, i: nat)
    requires i < |s|
    ensures Reversed(s)[i] == s[|s| - 1 - i]
  {
    if i > 0 {
      ReversedAt(s[..|s| - 1], i - 1);
    }
  }

  lemma ReversedPermutation(p: seq<nat>, n: nat)
    requires IsPermutation(p, n)
    ensures IsPermutation(Reversed(p), n)
  {
    var r := Reversed(p);
    forall i, j | 0 <= i < j < |r| ensures r[i] != r[j] {
      ReversedAt(p, i);
      ReversedAt(p, j);
    }
    forall i | 0 <= i < |r| ensures r[i] < n {
      ReversedAt(p, i);
    }
  }
}
