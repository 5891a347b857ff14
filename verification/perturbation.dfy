/** lerot/perturbation: AbstractProbabilisticPerturbator._perturb, which
    draws a ranking from a ranker and exchanges random disjoint adjacent
    pairs, and the DynamicProbabilisticPerturbator state that adapts the
    swap probability. The coin of randint(0, 1) and the draws of random()
    are inputs. */
module Perturbation {
  import opened Wrappers
  import opened Seqs
  import opened Rankers
  import opened PairSwap

  /** max_length after _perturb's adjustment: the document count, capped by
      the given maximum. */
  function EffectiveLength(count: nat, maxLength: Option<int>): (l: int)
    ensures l <= count
    ensures maxLength.None? ==> l == count
    ensures maxLength.Some? ==> l <= maxLength.value && (l == count || l == maxLength.value)
  {
    if maxLength.None? then count
    else if maxLength.value < count then maxLength.value else count
  }

  /** The number of documents _perturb emits: the length, but at least the
      single starting document. */
  function Emitted(length: int, singleStart: bool): nat
  {
    if singleStart && length < 1 then 1 else if length < 0 then 0 else length
  }

  function StartOf(singleStart: bool): nat
  {
    if singleStart then 1 else 0
  }

  /** Pair p is exchanged when random() drew below the swap probability. */
  function Flags(draws: seq<real>, swapProb: real, k: nat): (flags: seq<bool>)
    requires k <= |draws|
    ensures |flags| == k
    ensures forall p :: 0 <= p < k ==> flags[p] == (draws[p] < swapProb)
  {
    seq(k, p requires 0 <= p < k => draws[p] < swapProb)
  }

  /** What _perturb returns: None when a single start meets an empty
      ranking; otherwise the first Emitted documents of the ranking with
      the pairs whose draw fell below the swap probability exchanged, and
      the single-start flag. */
  function Perturbed(swapProb: real, ordering: seq<DocId>, maxLength: Option<int>, coin: bool, draws: seq<real>)
    : Option<(seq<DocId>, bool)>
    requires PairCount(EffectiveLength(|ordering|, maxLength), StartOf(!coin)) <= |draws|
  {
    var length := EffectiveLength(|ordering|, maxLength);
    var start := StartOf(!coin);
    var flags := Flags(draws, swapProb, PairCount(length, start));
    if !coin && |ordering| == 0 then None
    else
      assert start + 2 * |flags| <= Emitted(length, !coin) <= |ordering| by {
        if length >= start {
          PairCountFits(length, start);
        }
      }
      Some((Swapped(ordering[..Emitted(length, !coin)], start, flags), !coin))
  }

  /** _perturb(swap_prob, ranker, query, max_length), `ordering` being the
      ranking the ranker gives the query. A false coin starts with a single
      document; None when that document does not exist. */
  method PerturbRanking(swapProb: real, ranker: Ranker, ordering: seq<DocId>, maxLength: Option<int>,
                        coin: bool, draws: seq<real>)
    returns (res: Option<(seq<DocId>, bool)>)
    requires Distinct(ordering)
    requires PairCount(EffectiveLength(|ordering|, maxLength), StartOf(!coin)) <= |draws|
    modifies ranker
    ensures res == Perturbed(swapProb, ordering, maxLength, coin, draws)
    ensures ranker.Valid() && ranker.docids == ordering
    ensures res.Some? ==> ranker.Remaining() == ordering[Emitted(EffectiveLength(|ordering|, maxLength), !coin)..]
  {
    ranker.InitRanking(ordering);
    var length := EffectiveLength(ranker.DocumentCount(), maxLength);
    var newRanked: seq<DocId>;
    var singleStart: bool;
    if coin {
      newRanked, singleStart := [], false;
    } else {
      singleStart := true;
      var first := ranker.Next();
      if first.None? {
        return None;
      }
      newRanked := [first.value];
    }
    assert newRanked == ordering[..StartOf(singleStart)];
    assert ranker.Remaining() == ordering[StartOf(singleStart)..];
    newRanked := PerturbRest(ranker, ordering, newRanked, length, singleStart, draws, swapProb);
    return Some((newRanked, singleStart));
  }

  /** The pairs and the trailing document of _perturb. */
  method PerturbRest(ranker: Ranker, ordering: seq<DocId>, newRanked: seq<DocId>, length: int, singleStart: bool,
                     draws: seq<real>, swapProb: real)
    returns (r: seq<DocId>)
    requires length <= |ordering| && StartOf(singleStart) <= |ordering|
    requires PairCount(length, StartOf(singleStart)) <= |draws|
    requires ranker.Valid() && ranker.docids == ordering
    requires newRanked == ordering[..StartOf(singleStart)]
    requires ranker.Remaining() == ordering[StartOf(singleStart)..]
    modifies ranker
    ensures var flags := Flags(draws, swapProb, PairCount(length, StartOf(singleStart)));
      && StartOf(singleStart) + 2 * |flags| <= Emitted(length, singleStart) <= |ordering|
      && r == Swapped(ordering[..Emitted(length, singleStart)], StartOf(singleStart), flags)
    ensures ranker.Valid() && ranker.docids == ordering
    ensures ranker.Remaining() == ordering[Emitted(length, singleStart)..]
  {
    var start := StartOf(singleStart);
    var emitted := Emitted(length, singleStart);
    ghost var flags := Flags(draws, swapProb, PairCount(length, start));
    r := AddPairs(ranker, ordering, newRanked, length, start, draws, swapProb);
    AfterPairs(length, singleStart);
    PairCountEmitted(length, singleStart);
    r := AddTrailing(ranker, ordering, r, length, emitted);
    SwappedPrefixOf(ordering, emitted, start, flags);
  }

  /** The last document of _perturb, added when the pairs fell one short
      of the length. */
  method AddTrailing(ranker: Ranker, ordering: seq<DocId>, newRanked: seq<DocId>, length: int, emitted: nat)
    returns (r: seq<DocId>)
    requires ranker.Valid() && ranker.docids == ordering
    requires |newRanked| < length ==> |newRanked| + 1 == emitted
    requires |newRanked| >= length ==> |newRanked| == emitted
    requires emitted <= |ordering| && ranker.Remaining() == ordering[|newRanked|..]
    modifies ranker
    ensures ranker.Valid() && ranker.docids == ordering
    ensures ranker.Remaining() == ordering[emitted..]
    ensures r == newRanked + ordering[|newRanked|..emitted]
  {
    if |newRanked| < length {
      r := AddLast(ranker, ordering, newRanked);
    } else {
      r := newRanked;
      assert ordering[|newRanked|..emitted] == [];
    }
  }

  /** The loop of _perturb over the pairs. */
  method AddPairs(ranker: Ranker, ordering: seq<DocId>, newRanked: seq<DocId>, length: int, start: nat,
                  draws: seq<real>, swapProb: real)
    returns (r: seq<DocId>)
    requires length <= |ordering| && start <= |ordering|
    requires PairCount(length, start) <= |draws|
    requires ranker.Valid() && ranker.docids == ordering
    requires newRanked == ordering[..start]
    requires ranker.Remaining() == ordering[start..]
    modifies ranker
    ensures start + 2 * PairCount(length, start) <= |ordering|
    ensures r == SwapPrefix(ordering, start, Flags(draws, swapProb, PairCount(length, start)))
    ensures ranker.Valid() && ranker.docids == ordering && ranker.Remaining() == ordering[|r|..]
  {
    ghost var pairs := PairCount(length, start);
    PairsWithin(length, start, |ordering|);
    r := newRanked;
    var i, k := start, 0;
    while i < length - 1
      invariant k <= pairs && i == start + 2 * k
      invariant i <= |ordering|
      invariant r == SwapPrefix(ordering, start, Flags(draws, swapProb, k))
      invariant ranker.Valid() && ranker.docids == ordering && ranker.Remaining() == ordering[i..]
      decreases length - i
    {
      PairStep(length, start, k);
      r := AddPair(ranker, ordering, r, draws[k] < swapProb);
      FlagsStep(draws, swapProb, k);
      SwapPrefixUnfold(ordering, start, Flags(draws, swapProb, k + 1));
      i, k := i + 2, k + 1;
    }
    LoopEnd(length, start, k);
  }

  lemma PairsWithin(length: int, start: nat, n: nat)
    requires length <= n && start <= n
    ensures start + 2 * PairCount(length, start) <= n
  {
    if length >= start {
      PairCountFits(length, start);
    }
  }

  lemma FlagsStep(draws: seq<real>, swapProb: real, k: nat)
    requires k < |draws|
    ensures |Flags(draws, swapProb, k + 1)| == k + 1
    ensures Flags(draws, swapProb, k + 1)[..k] == Flags(draws, swapProb, k)
    ensures Flags(draws, swapProb, k + 1)[k] == (draws[k] < swapProb)
  {
  }

  /** The loop ends after the last pair. */
  lemma LoopEnd(length: int, start: nat, k: nat)
    requires k <= PairCount(length, start) && start + 2 * k >= length - 1
    ensures k == PairCount(length, start)
  {
  }

  /** One iteration of _perturb's loop: two documents drawn, the second
      inserted at index i (ahead of the first) when the pair is swapped. */
  method AddPair(ranker: Ranker, ordering: seq<DocId>, newRanked: seq<DocId>, swap: bool) returns (r: seq<DocId>)
    requires ranker.Valid() && ranker.docids == ordering
    requires |newRanked| + 1 < |ordering| && ranker.Remaining() == ordering[|newRanked|..]
    modifies ranker
    ensures ranker.Valid() && ranker.docids == ordering
    ensures ranker.Remaining() == ordering[|newRanked| + 2..]
    ensures r == newRanked + Pair(ordering[|newRanked|], ordering[|newRanked| + 1], swap)
  {
    var i := |newRanked|;
    assert ordering[i..][1..] == ordering[i + 1..];
    assert ordering[i + 1..][1..] == ordering[i + 2..];
    var a := ranker.Next();
    var b := ranker.Next();
    if swap {
      r := newRanked + [a.value];
      r := r[..i] + [b.value] + r[i..];
    } else {
      r := newRanked + [a.value];
      r := r + [b.value];
    }
  }

  /** The trailing document of _perturb. */
  method AddLast(ranker: Ranker, ordering: seq<DocId>, newRanked: seq<DocId>) returns (r: seq<DocId>)
    requires ranker.Valid() && ranker.docids == ordering
    requires |newRanked| < |ordering| && ranker.Remaining() == ordering[|newRanked|..]
    modifies ranker
    ensures ranker.Valid() && ranker.docids == ordering
    ensures ranker.Remaining() == ordering[|newRanked| + 1..]
    ensures r == newRanked + ordering[|newRanked|..|newRanked| + 1]
  {
    var i := |newRanked|;
    assert ordering[i..][1..] == ordering[i + 1..];
    var last := ranker.Next();
    r := newRanked + [last.value];
  }

  /** Another iteration of the loop is another pair. */
  lemma PairStep(length: int, start: nat, k: nat)
    requires start + 2 * k < length - 1
    ensures k < PairCount(length, start)
  {
  }

  /** Where _perturb's loop stops: after every pair, with at most the
      trailing document still to emit. */
  lemma AfterPairs(length: int, singleStart: bool)
    ensures var e := StartOf(singleStart) + 2 * PairCount(length, StartOf(singleStart));
      && (e < length ==> e + 1 == Emitted(length, singleStart))
      && (e >= length ==> e == Emitted(length, singleStart))
  {
    if length >= StartOf(singleStart) {
      PairCountFits(length, StartOf(singleStart));
    }
  }

  /** Exchanging pairs inside a prefix only needs the prefix. */
  lemma SwappedPrefixOf(s: seq<DocId>, m: nat, start: nat, flags: seq<bool>)
    requires start + 2 * |flags| <= m <= |s|
    requires m <= start + 2 * |flags| + 1
    ensures Swapped(s[..m], start, flags) == SwapPrefix(s, start, flags) + s[start + 2 * |flags|..m]
  {
    SwapPrefixOfPrefix(s, m, start, flags);
  }

  lemma {:induction false} SwapPrefixOfPrefix(s: seq<DocId>, m: nat, start: nat, flags: seq<bool>)
    requires start + 2 * |flags| <= m <= |s|
    ensures SwapPrefix(s[..m], start, flags) == SwapPrefix(s, start, flags)
  {
    if |flags| > 0 {
      SwapPrefixOfPrefix(s, m, start, flags[..|flags| - 1]);
    }
  }

  /** _perturb's list has Emitted documents, is a rearrangement of that
      prefix of the ranking, keeps the single starting document first, and
      keeps a trailing document outside every pair last. */
  lemma PerturbedShape(swapProb: real, ordering: seq<DocId>, maxLength: Option<int>, coin: bool, draws: seq<real>)
    requires PairCount(EffectiveLength(|ordering|, maxLength), StartOf(!coin)) <= |draws|
    requires Perturbed(swapProb, ordering, maxLength, coin, draws).Some?
    ensures var (list, singleStart) := Perturbed(swapProb, ordering, maxLength, coin, draws).value;
      var m := Emitted(EffectiveLength(|ordering|, maxLength), !coin);
      && singleStart == !coin
      && m <= |ordering| && |list| == m
      && (EffectiveLength(|ordering|, maxLength) >= 1 ==> |list| == EffectiveLength(|ordering|, maxLength))
      && multiset(list) == multiset(ordering[..m])
      && (singleStart ==> list[0] == ordering[0])
      && (m > 0 && (singleStart != (m % 2 == 1)) ==> list[m - 1] == ordering[m - 1])
  {
    var length := EffectiveLength(|ordering|, maxLength);
    var start := StartOf(!coin);
    var flags := Flags(draws, swapProb, PairCount(length, start));
    var m := Emitted(length, !coin);
    PairCountEmitted(length, !coin);
    var prefix := ordering[..m];
    var list := Swapped(prefix, start, flags);
    assert Perturbed(swapProb, ordering, maxLength, coin, draws).value == (list, !coin);
    SwappedPermutation(prefix, start, flags);
    SwappedEnds(prefix, !coin, flags);
  }

  /** Exchanging the pairs that start after the single start keeps the
      single starting element and an element after the last pair. */
  lemma SwappedEnds(s: seq<DocId>, singleStart: bool, flags: seq<bool>)
    requires |flags| == PairCount(|s|, StartOf(singleStart)) && StartOf(singleStart) <= |s|
    ensures StartOf(singleStart) + 2 * |flags| <= |s|
    ensures singleStart ==> Swapped(s, StartOf(singleStart), flags)[0] == s[0]
    ensures |s| > 0 && (singleStart != (|s| % 2 == 1)) ==> Swapped(s, StartOf(singleStart), flags)[|s| - 1] == s[|s| - 1]
  {
    var start := StartOf(singleStart);
    PairCountFits(|s|, start);
    if singleStart {
      SwappedOutside(s, start, flags, 0);
    }
    if |s| > 0 && (singleStart != (|s| % 2 == 1)) {
      LastOutside(|s|, singleStart);
      SwappedOutside(s, start, flags, |s| - 1);
    }
  }

  /** The pairs of a length are those of the emitted count. */
  lemma PairCountEmitted(length: int, singleStart: bool)
    ensures StartOf(singleStart) + 2 * PairCount(length, StartOf(singleStart)) <= Emitted(length, singleStart)
    ensures PairCount(length, StartOf(singleStart)) == PairCount(Emitted(length, singleStart), StartOf(singleStart))
  {
    if length >= StartOf(singleStart) {
      PairCountFits(length, StartOf(singleStart));
    }
  }

  /** With swap probability 0 (draws lie in [0, 1)), _perturb returns the
      unperturbed ranking. */
  lemma PerturbedProbZero(swapProb: real, ordering: seq<DocId>, maxLength: Option<int>, coin: bool, draws: seq<real>)
    requires PairCount(EffectiveLength(|ordering|, maxLength), StartOf(!coin)) <= |draws|
    requires swapProb <= 0.0 && forall p :: 0 <= p < |draws| ==> 0.0 <= draws[p]
    requires Perturbed(swapProb, ordering, maxLength, coin, draws).Some?
    ensures var m := Emitted(EffectiveLength(|ordering|, maxLength), !coin);
      m <= |ordering| && Perturbed(swapProb, ordering, maxLength, coin, draws).value.0 == ordering[..m]
  {
    var length := EffectiveLength(|ordering|, maxLength);
    var start := StartOf(!coin);
    var flags := Flags(draws, swapProb, PairCount(length, start));
    var m := Emitted(length, !coin);
    if length >= start {
      PairCountFits(length, start);
    }
    SwappedIdentity(ordering[..m], start, flags);
  }

  lemma {:induction false} TrueCountAll(flags: seq<bool>)
    requires forall p :: 0 <= p < |flags| ==> flags[p]
    ensures TrueCount(flags) == |flags|
  {
    if |flags| > 0 {
      TrueCountAll(flags[..|flags| - 1]);
    }
  }

  /** With swap probability 1 on a whole ranking without repetitions,
      count_swaps finds every one of the (n - single_start) // 2 pairs
      exchanged, and the list differs from the ranking when there is a pair. */
  lemma PerturbedProbOne(swapProb: real, ordering: seq<DocId>, coin: bool, draws: seq<real>)
    requires Distinct(ordering)
    requires PairCount(|ordering|, StartOf(!coin)) <= |draws|
    requires swapProb >= 1.0 && forall p :: 0 <= p < |draws| ==> draws[p] < 1.0
    requires Perturbed(swapProb, ordering, None, coin, draws).Some?
    ensures var list := Perturbed(swapProb, ordering, None, coin, draws).value.0;
      && CountSwaps(!coin, list, ordering) == Success(PairCount(|ordering|, StartOf(!coin)))
      && (PairCount(|ordering|, StartOf(!coin)) > 0 ==> list != ordering)
  {
    var start := StartOf(!coin);
    var flags := Flags(draws, swapProb, PairCount(|ordering|, start));
    assert Emitted(|ordering|, !coin) == |ordering|;
    assert ordering[..|ordering|] == ordering;
    TrueCountAll(flags);
    CountSwapsOfSwapped(!coin, ordering, flags);
    if |flags| > 0 {
      SwappedPair(ordering, start, flags, 0);
    }
  }

  /** The document count after ranker_to_list's adjustment, never negative. */
  function ListLength(count: nat, maxLength: Option<int>): (l: nat)
    ensures l <= count
    ensures maxLength.None? ==> l == count
    ensures maxLength.Some? && maxLength.value >= 0 ==> l == if maxLength.value < count then maxLength.value else count
  {
    var n := EffectiveLength(count, maxLength);
    if n < 0 then 0 else n
  }

  /** DynamicProbabilisticPerturbator: the swap probability starts at the
      configured value and then follows the average affirmativeness of past
      feedback, scaled by the largest affirmativeness one perturbation can
      reach. */
  class DynamicPerturbator {
    var delta: real
    var firstSwapProb: real
    var cumAffirm: real
    var t: nat
    /** The affirmativeness of every update so far, in order. */
    ghost var affirmations: seq<real>

    ghost predicate Valid()
      reads this
    {
      cumAffirm == Sum(affirmations) && t == |affirmations|
    }

    constructor (swapProb: real)
      ensures Valid() && delta == 0.0 && firstSwapProb == swapProb && affirmations == []
    {
      delta, firstSwapProb, cumAffirm, t := 0.0, swapProb, 0.0, 0;
      affirmations := [];
    }

    /** update: the affirmativeness of one piece of feedback is the score the
        weights give the feedback ranking minus the score of the perturbed
        ranking. The two scores are the inputs. */
    method Update(feedbackScore: real, perturbedScore: real)
      requires Valid()
      modifies this
      ensures Valid() && affirmations == old(affirmations) + [feedbackScore - perturbedScore]
      ensures delta == old(delta) && firstSwapProb == old(firstSwapProb)
    {
      var affirm := feedbackScore - perturbedScore;
      assert (affirmations + [affirm])[..|affirmations|] == affirmations;
      cumAffirm := cumAffirm + affirm;
      t := t + 1;
      affirmations := affirmations + [affirm];
    }

    /** get_swap_prob, `maxAffirm` being what _calc_max_affirm computes: the
        first swap probability before any update, afterwards delta minus the
        mean affirmativeness, divided by maxAffirm unless that is zero. */
    function GetSwapProb(maxAffirm: real): (p: real)
      reads this
      ensures t == 0 ==> p == firstSwapProb
      ensures Valid() && t > 0 && maxAffirm != 0.0 ==>
        p * maxAffirm == delta - Sum(affirmations) / (|affirmations| as real)
      ensures Valid() && t > 0 && maxAffirm == 0.0 ==>
        p == delta - Sum(affirmations) / (|affirmations| as real)
    {
      if t != 0 then
        var predicted := delta - cumAffirm / (t as real);
        if maxAffirm != 0.0 then predicted / maxAffirm else predicted
      else firstSwapProb
    }

    /** perturb: _perturb with the current swap probability. */
    method Perturb(ranker: Ranker, ordering: seq<DocId>, maxLength: Option<int>, maxAffirm: real,
                   coin: bool, draws: seq<real>)
      returns (res: Option<(seq<DocId>, bool)>)
      requires Distinct(ordering)
      requires PairCount(EffectiveLength(|ordering|, maxLength), StartOf(!coin)) <= |draws|
      modifies ranker
      ensures res == Perturbed(GetSwapProb(maxAffirm), ordering, maxLength, coin, draws)
      ensures ranker.Valid() && ranker.docids == ordering
      ensures res.Some? ==> ranker.Remaining() == ordering[Emitted(EffectiveLength(|ordering|, maxLength), !coin)..]
    {
      var swapProb := GetSwapProb(maxAffirm);
      res := PerturbRanking(swapProb, ranker, ordering, maxLength, coin, draws);
    }

    /** ranker_to_list: the next ListLength documents of the ranker, in
        order; None when the ranker runs out before that. */
    method RankerToList(ranker: Ranker, maxLength: Option<int>) returns (res: Option<seq<DocId>>)
      requires ranker.Valid()
      modifies ranker
      ensures ranker.Valid() && ranker.docids == old(ranker.docids)
      ensures var n := ListLength(|old(ranker.docids)|, maxLength);
        && (res.Some? <==> n <= |old(ranker.Remaining())|)
        && (res.Some? ==> res.value == old(ranker.Remaining())[..n]
                          && ranker.Remaining() == old(ranker.Remaining())[n..])
    {
      var n := ListLength(ranker.DocumentCount(), maxLength);
      ghost var initial := ranker.Remaining();
      var list := [];
      var i := 0;
      while i < n
        invariant 0 <= i <= n
        invariant ranker.Valid() && ranker.docids == old(ranker.docids)
        invariant i <= |initial| && list == initial[..i] && ranker.Remaining() == initial[i..]
      {
        var d := ranker.Next();
        if d.None? {
          return None;
        }
        assert initial[..i + 1] == initial[..i] + [initial[i]];
        list := list + [d.value];
        i := i + 1;
      }
      return Some(list);
    }
  }

  /** Right after init_ranking, ranker_to_list returns the first ListLength
      documents of the ranking. */
  lemma RankerToListFresh(ordering: seq<DocId>, maxLength: Option<int>)
    ensures ListLength(|ordering|, maxLength) <= |Unused(ordering, {})|
    ensures Unused(ordering, {})[..ListLength(|ordering|, maxLength)] == ordering[..ListLength(|ordering|, maxLength)]
  {
    UnusedNone(ordering);
  }
}
