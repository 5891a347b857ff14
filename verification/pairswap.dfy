/** Exchanging disjoint adjacent pairs, shared by the perturbation of a
    ranking, the click feedback of the learning system and the checker
    count_swaps of lerot/tests/test_perturbation.py. Pairs are (i, i+1) for
    i = start, start + 2, ...; flag p says whether pair p is exchanged. */
module PairSwap {
  import opened Wrappers
  import opened Seqs

  /** The iterations of xrange(start, n - 1, 2). */
  function PairCount(n: int, start: nat): nat
  {
    if n - 1 > start then (n - start) / 2 else 0
  }

  /** The pairs cover [start, n) except for at most one trailing element. */
  lemma PairCountFits(n: int, start: nat)
    requires n >= start
    ensures start + 2 * PairCount(n, start) <= n <= start + 2 * PairCount(n, start) + 1
  {
  }

  /** The first start + 2|flags| elements of s, each flagged pair exchanged. */
  function SwapPrefix<T>(s: seq<T>, start: nat, flags: seq<bool>): (r: seq<T>)
    requires start + 2 * |flags| <= |s|
    ensures |r| == start + 2 * |flags|
  {
    if |flags| == 0 then s[..start]
    else
      var k := |flags| - 1;
      var i := start + 2 * k;
      SwapPrefix(s, start, flags[..k]) + Pair(s[i], s[i + 1], flags[k])
  }

  /** A pair of adjacent elements, exchanged or not. */
  function Pair<T>(a: T, b: T, swap: bool): (r: seq<T>)
    ensures |r| == 2
  {
    if swap then [b, a] else [a, b]
  }

  /** s with the flagged pairs exchanged. */
  function Swapped<T>(s: seq<T>, start: nat, flags: seq<bool>): (r: seq<T>)
    requires start + 2 * |flags| <= |s|
    ensures |r| == |s|
  {
    SwapPrefix(s, start, flags) + s[start + 2 * |flags|..]
  }

  /** Pair p of the result holds pair p of s, exchanged exactly when flagged. */
  lemma {:induction false} SwappedPair<T>(s: seq<T>, start: nat, flags: seq<bool>, p: nat)
    requires start + 2 * |flags| <= |s| && p < |flags|
    ensures var i := start + 2 * p;
      && Swapped(s, start, flags)[i] == (if flags[p] then s[i + 1] else s[i])
      && Swapped(s, start, flags)[i + 1] == (if flags[p] then s[i] else s[i + 1])
  {
    var k := |flags| - 1;
    if p < k {
      SwappedPair(s, start, flags[..k], p);
      assert flags[..k][p] == flags[p];
    }
  }

  /** Elements outside the exchanged pairs stay where they are. */
  lemma {:induction false} SwappedOutside<T>(s: seq<T>, start: nat, flags: seq<bool>, j: nat)
    requires start + 2 * |flags| <= |s| && j < |s|
    requires j < start || j >= start + 2 * |flags|
    ensures Swapped(s, start, flags)[j] == s[j]
  {
    if j < start && |flags| > 0 {
      var k := |flags| - 1;
      SwappedOutside(s, start, flags[..k], j);
    }
  }

  /** Exchanging pairs loses and adds nothing. */
  lemma {:induction false} SwappedPermutation<T>(s: seq<T>, start: nat, flags: seq<bool>)
    requires start + 2 * |flags| <= |s|
    ensures multiset(Swapped(s, start, flags)) == multiset(s)
  {
    SwapPrefixPermutation(s, start, flags);
    var m := start + 2 * |flags|;
    assert s == s[..m] + s[m..];
  }

  lemma SwapPrefixUnfold<T>(s: seq<T>, start: nat, flags: seq<bool>)
    requires start + 2 * |flags| <= |s| && |flags| > 0
    ensures var k := |flags| - 1;
      var i := start + 2 * k;
      SwapPrefix(s, start, flags) == SwapPrefix(s, start, flags[..k]) + Pair(s[i], s[i + 1], flags[k])
  {
  }

  lemma {:induction false} SwapPrefixPermutation<T>(s: seq<T>, start: nat, flags: seq<bool>)
    requires start + 2 * |flags| <= |s|
    ensures multiset(SwapPrefix(s, start, flags)) == multiset(s[..start + 2 * |flags|])
  {
    if |flags| == 0 {
      assert SwapPrefix(s, start, flags) == s[..start + 2 * |flags|];
    } else {
      var k := |flags| - 1;
      SwapPrefixPermutation(s, start, flags[..k]);
      assert |flags[..k]| == k;
      SwapPrefixPermutationStep(s, start, flags);
    }
  }

  /** One more pair keeps the multiset of the prefix. */
  lemma SwapPrefixPermutationStep<T>(s: seq<T>, start: nat, flags: seq<bool>)
    requires start + 2 * |flags| <= |s| && |flags| > 0
    requires multiset(SwapPrefix(s, start, flags[..|flags| - 1])) == multiset(s[..start + 2 * (|flags| - 1)])
    ensures multiset(SwapPrefix(s, start, flags)) == multiset(s[..start + 2 * |flags|])
  {
    var k := |flags| - 1;
    var i := start + 2 * k;
    var front := SwapPrefix(s, start, flags[..k]);
    var pair := Pair(s[i], s[i + 1], flags[k]);
    SwapPrefixUnfold(s, start, flags);
    PairMultiset(s[i], s[i + 1], flags[k]);
    PrefixStep(s, i);
    MultisetConcat(SwapPrefix(s, start, flags), front, pair, s[..i], [s[i], s[i + 1]], s[..i + 2]);
    assert s[..i + 2] == s[..start + 2 * |flags|];
  }

  /** Concatenating pieces with equal multisets. */
  lemma MultisetConcat<T>(whole: seq<T>, a: seq<T>, b: seq<T>, a': seq<T>, b': seq<T>, whole': seq<T>)
    requires whole == a + b
    requires multiset(a) == multiset(a') && multiset(b) == multiset(b')
    requires multiset(whole') == multiset(a') + multiset(b')
    ensures multiset(whole) == multiset(whole')
  {
  }

  lemma PairMultiset<T>(a: T, b: T, swap: bool)
    ensures multiset(Pair(a, b, swap)) == multiset([a, b])
  {
  }

  lemma PrefixStep<T>(s: seq<T>, i: nat)
    requires i + 2 <= |s|
    ensures multiset(s[..i + 2]) == multiset(s[..i]) + multiset([s[i], s[i + 1]])
  {
    assert s[..i + 2] == s[..i] + [s[i], s[i + 1]];
  }

  /** The number of exchanged pairs. */
  function TrueCount(flags: seq<bool>): nat
  {
    if |flags| == 0 then 0 else TrueCount(flags[..|flags| - 1]) + (if flags[|flags| - 1] then 1 else 0)
  }

  /** No pair flagged: s is unchanged. */
  lemma SwappedIdentity<T>(s: seq<T>, start: nat, flags: seq<bool>)
    requires start + 2 * |flags| <= |s|
    requires forall p :: 0 <= p < |flags| ==> !flags[p]
    ensures Swapped(s, start, flags) == s
  {
    forall j | 0 <= j < |s| ensures Swapped(s, start, flags)[j] == s[j] {
      if start <= j < start + 2 * |flags| {
        SwappedPair(s, start, flags, (j - start) / 2);
      } else {
        SwappedOutside(s, start, flags, j);
      }
    }
  }

  /** Why count_swaps rejects a pair of lists. */
  datatype SwapError = LengthMismatch | MissingFirst | FirstDiffers | LastDiffers | ImpossibleSwap

  /** The loop of count_swaps from pair start i on. */
  function CountPairsFrom<T(==)>(l1: seq<T>, l2: seq<T>, i: nat): Result<nat, SwapError>
    requires |l1| == |l2|
    decreases |l1| - i
  {
    if i + 1 >= |l1| then Success(0)
    else if l1[i] == l2[i + 1] && l2[i] == l1[i + 1] then
      match CountPairsFrom(l1, l2, i + 2)
      case Success(c) => Success(c + 1)
      case Failure(e) => Failure(e)
    else if l1[i] != l2[i] || l2[i + 1] != l1[i + 1] then Failure(ImpossibleSwap)
    else CountPairsFrom(l1, l2, i + 2)
  }

  /** count_swaps(single_start, list1, list2): how many pairs list1 has
      exchanged with respect to list2, or why it is no pairwise swap of it. */
  function CountSwaps<T(==)>(singleStart: bool, l1: seq<T>, l2: seq<T>): Result<nat, SwapError>
  {
    if |l1| != |l2| then Failure(LengthMismatch)
    else if singleStart && |l1| == 0 then Failure(MissingFirst)
    else if singleStart && l1[0] != l2[0] then Failure(FirstDiffers)
    else if singleStart != (|l1| % 2 == 1) && l1[|l1| - 1] != l2[|l2| - 1] then Failure(LastDiffers)
    else CountPairsFrom(l1, l2, if singleStart then 1 else 0)
  }

  /** Counting from pair p on finds exactly the flagged pairs from p on. */
  lemma {:induction false} CountPairsOfSwapped<T>(s: seq<T>, start: nat, flags: seq<bool>, p: nat)
    requires start <= |s|
    requires |flags| == PairCount(|s|, start) && p <= |flags|
    requires Distinct(s)
    ensures start + 2 * |flags| <= |s|
    ensures CountPairsFrom(Swapped(s, start, flags), s, start + 2 * p) == Success(TrueCount(flags[p..]))
    decreases |flags| - p
  {
    PairCountFits(|s|, start);
    if p == |flags| {
      assert flags[p..] == [];
    } else {
      CountPairsOfSwapped(s, start, flags, p + 1);
      SwappedPair(s, start, flags, p);
      assert flags[p..] == [flags[p]] + flags[p + 1..];
      TrueCountCons(flags[p], flags[p + 1..]);
    }
  }

  lemma {:induction false} TrueCountCons(b: bool, flags: seq<bool>)
    ensures TrueCount([b] + flags) == TrueCount(flags) + (if b then 1 else 0)
  {
    if |flags| > 0 {
      var f' := flags[..|flags| - 1];
      TrueCountCons(b, f');
      assert ([b] + flags)[..|flags|] == [b] + f';
    }
  }

  /** count_swaps accepts a swapped version of a list without repetitions
      and counts exactly the exchanged pairs. */
  lemma CountSwapsOfSwapped<T>(singleStart: bool, s: seq<T>, flags: seq<bool>)
    requires Distinct(s)
    requires singleStart ==> |s| > 0
    requires |flags| == PairCount(|s|, if singleStart then 1 else 0)
    ensures (if singleStart then 1 else 0) + 2 * |flags| <= |s|
    ensures CountSwaps(singleStart, Swapped(s, if singleStart then 1 else 0, flags), s) == Success(TrueCount(flags))
  {
    var start := if singleStart then 1 else 0;
    PairCountFits(|s|, start);
    var r := Swapped(s, start, flags);
    CountPairsOfSwapped(s, start, flags, 0);
    assert flags[0..] == flags;
    assert CountPairsFrom(r, s, start) == Success(TrueCount(flags));
    if singleStart {
      SwappedOutside(s, start, flags, 0);
    }
    if |s| > 0 && singleStart != (|s| % 2 == 1) {
      LastOutside(|s|, singleStart);
      SwappedOutside(s, start, flags, |s| - 1);
    }
  }

  /** When the single start and the parity of the length disagree, the last
      element lies in no pair. */
  lemma LastOutside(n: nat, singleStart: bool)
    requires n > 0 && singleStart != (n % 2 == 1)
    ensures var start := if singleStart then 1 else 0;
      start + 2 * PairCount(n, start) <= n - 1
  {
  }

  /** A list without repetitions compared with itself has no swapped pair. */
  lemma {:induction false} CountPairsIdentical<T>(s: seq<T>, i: nat)
    requires Distinct(s)
    ensures CountPairsFrom(s, s, i) == Success(0)
    decreases |s| - i
  {
    if i + 1 < |s| {
      CountPairsIdentical(s, i + 2);
    }
  }

  /** count_swaps of a list without repetitions against itself is 0. */
  lemma CountSwapsIdentical<T>(singleStart: bool, s: seq<T>)
    requires Distinct(s)
    requires singleStart ==> |s| > 0
    ensures CountSwaps(singleStart, s, s) == Success(0)
  {
    CountPairsIdentical(s, if singleStart then 1 else 0);
  }
}
