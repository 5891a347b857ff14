/** lerot/retrieval_system/PerturbationLearningSystem.py: a retrieval
    system that shows a perturbed ranking, reads the clicks on it as
    preferences between the documents of each shown pair, and learns from
    the ranking those preferences imply. */
module LearningSystem {
  import opened Wrappers
  import opened Seqs
  import opened Rankers
  import opened PairSwap
  import opened Perturbation

  /** Pair p of a shown list of n documents is exchanged in the feedback
      ranking when its lower document was clicked and its upper one not. */
  function ClickFlags(clicks: seq<int>, start: nat, n: nat): (flags: seq<bool>)
    requires n <= |clicks|
    ensures |flags| == PairCount(n, start)
    ensures start + 2 * |flags| <= n || |flags| == 0
    ensures forall p :: 0 <= p < |flags| ==>
      start + 2 * p + 1 < n && flags[p] == (clicks[start + 2 * p + 1] != 0 && clicks[start + 2 * p] == 0)
  {
    var k := PairCount(n, start);
    assert start + 2 * k <= n || k == 0 by {
      if n >= start {
        PairCountFits(n, start);
      }
    }
    if k == 0 then [] else PairFlags(clicks, start, k)
  }

  /** The flags of the first k pairs from start on. */
  function PairFlags(clicks: seq<int>, start: nat, k: nat): (flags: seq<bool>)
    requires start + 2 * k <= |clicks|
    ensures |flags| == k
    ensures forall p :: 0 <= p < k ==> flags[p] == (clicks[start + 2 * p + 1] != 0 && clicks[start + 2 * p] == 0)
  {
    if k == 0 then []
    else
      var i := start + 2 * (k - 1);
      PairFlags(clicks, start, k - 1) + [clicks[i + 1] != 0 && clicks[i] == 0]
  }

  /** The ranking _get_feedback derives from the clicks on `shown`. */
  function Feedback(shown: seq<DocId>, singleStart: bool, clicks: seq<int>): seq<DocId>
    requires |shown| <= |clicks|
    requires singleStart ==> |shown| > 0
  {
    var start := StartOf(singleStart);
    PairCountFits(|shown|, start);
    Swapped(shown, start, ClickFlags(clicks, start, |shown|))
  }

  /** The feedback ranking rearranges the shown list, keeps a single
      starting document and a trailing document outside every pair in
      place, and exchanges exactly the pairs whose lower document alone
      was clicked. */
  lemma FeedbackShape(shown: seq<DocId>, singleStart: bool, clicks: seq<int>)
    requires |shown| <= |clicks|
    requires singleStart ==> |shown| > 0
    ensures var f := Feedback(shown, singleStart, clicks);
      && |f| == |shown|
      && multiset(f) == multiset(shown)
      && (singleStart ==> f[0] == shown[0])
      && (|shown| > 0 && singleStart != (|shown| % 2 == 1) ==> f[|shown| - 1] == shown[|shown| - 1])
  {
    var start := StartOf(singleStart);
    var flags := ClickFlags(clicks, start, |shown|);
    PairCountFits(|shown|, start);
    SwappedPermutation(shown, start, flags);
    SwappedEnds(shown, singleStart, flags);
  }

  lemma FeedbackPair(shown: seq<DocId>, singleStart: bool, clicks: seq<int>, p: nat)
    requires |shown| <= |clicks|
    requires singleStart ==> |shown| > 0
    requires p < PairCount(|shown|, StartOf(singleStart))
    ensures var i := StartOf(singleStart) + 2 * p;
      var f := Feedback(shown, singleStart, clicks);
      var swap := clicks[i + 1] != 0 && clicks[i] == 0;
      && i + 1 < |shown|
      && f[i] == (if swap then shown[i + 1] else shown[i])
      && f[i + 1] == (if swap then shown[i] else shown[i + 1])
  {
    var start := StartOf(singleStart);
    PairCountFits(|shown|, start);
    SwappedPair(shown, start, ClickFlags(clicks, start, |shown|), p);
  }

  /** Without clicks the feedback ranking is the shown list. */
  lemma FeedbackNoClicks(shown: seq<DocId>, singleStart: bool, clicks: seq<int>)
    requires |shown| <= |clicks|
    requires singleStart ==> |shown| > 0
    requires forall x :: 0 <= x < |clicks| ==> clicks[x] == 0
    ensures Feedback(shown, singleStart, clicks) == shown
  {
    var start := StartOf(singleStart);
    PairCountFits(|shown|, start);
    SwappedIdentity(shown, start, ClickFlags(clicks, start, |shown|));
  }

  /** The clicks after p passes of update_solution's loop. */
  function Decremented(clicks: seq<int>, p: nat): (r: seq<int>)
    ensures |r| == |clicks|
    ensures forall x :: 0 <= x < |clicks| ==> r[x] == if clicks[x] > p then clicks[x] - p else 0
  {
    seq(|clicks|, x requires 0 <= x < |clicks| => if clicks[x] > p then clicks[x] - p else 0)
  }

  /** For clicks that are not negative, some click is left after p passes
      exactly when p is below the largest click count. */
  lemma DecrementedNonzero(clicks: seq<int>, p: nat)
    requires forall x :: 0 <= x < |clicks| ==> clicks[x] >= 0
    ensures (exists x :: 0 <= x < |clicks| && Decremented(clicks, p)[x] != 0) <==> p < Max(clicks)
  {
    if p < Max(clicks) {
      var x :| 0 <= x < |clicks| && clicks[x] == Max(clicks);
      assert Decremented(clicks, p)[x] != 0;
    }
  }

  /** update_solution's loop goes on while passes are below the largest
      click count. */
  lemma ClicksLeft(clicks: seq<int>, p: nat)
    requires forall x :: 0 <= x < |clicks| ==> clicks[x] >= 0
    ensures CountNonzero(Decremented(clicks, p)) > 0 <==> p < Max(clicks)
  {
    DecrementedNonzero(clicks, p);
  }

  /** When no click is left after k passes, k is the largest click count
      and every count is zero. */
  lemma Drained(clicks: seq<int>, k: nat)
    requires forall x :: 0 <= x < |clicks| ==> clicks[x] >= 0
    requires k <= Max(clicks)
    requires CountNonzero(Decremented(clicks, k)) == 0
    ensures k == Max(clicks)
    ensures forall x :: 0 <= x < |clicks| ==> Decremented(clicks, k)[x] == 0
  {
    DecrementedNonzero(clicks, k);
  }

  /** numpy.count_nonzero. */
  function CountNonzero(s: seq<int>): (c: nat)
    ensures c <= |s|
    ensures c > 0 <==> exists x :: 0 <= x < |s| && s[x] != 0
  {
    if |s| == 0 then 0
    else
      var c := CountNonzero(s[..|s| - 1]);
      assert forall x :: 0 <= x < |s| - 1 ==> s[..|s| - 1][x] == s[x];
      c + (if s[|s| - 1] != 0 then 1 else 0)
  }

  /** The affirmativeness of each pass, from the two scores of the pass. */
  function Affirmations(scores: seq<(real, real)>): (a: seq<real>)
    ensures |a| == |scores|
    ensures forall i :: 0 <= i < |scores| ==> a[i] == scores[i].0 - scores[i].1
  {
    seq(|scores|, i requires 0 <= i < |scores| => scores[i].0 - scores[i].1)
  }

  class PerturbationLearningSystem {
    var ranker: Ranker
    var perturbator: DynamicPerturbator
    /** max_results; None stands for the default of infinity. */
    var maxResults: Option<int>
    var currentRanking: seq<DocId>
    var currentSingleStart: bool
    var currentQuery: nat
    /** Whether get_ranked_list has set the current ranking. */
    var presented: bool

    ghost predicate Valid()
      reads this, perturbator
    {
      perturbator.Valid() && (currentSingleStart ==> |currentRanking| > 0)
    }

    constructor (swapProb: real, maxResults: Option<int>)
      ensures Valid() && fresh(ranker) && fresh(perturbator)
      ensures ranker.Valid() && perturbator.firstSwapProb == swapProb && perturbator.affirmations == []
      ensures this.maxResults == maxResults && !presented
    {
      ranker := new Ranker();
      perturbator := new DynamicPerturbator(swapProb);
      this.maxResults := maxResults;
      currentRanking, currentSingleStart, currentQuery := [], false, 0;
      presented := false;
    }

    /** get_ranked_list(query): perturb the ranker's ranking of the query,
        `ordering`, and remember what was shown. None when the ranking is
        empty and a single start was drawn. */
    method GetRankedList(query: nat, ordering: seq<DocId>, maxAffirm: real, coin: bool, draws: seq<real>)
      returns (list: Option<seq<DocId>>)
      requires Valid() && Distinct(ordering)
      requires PairCount(EffectiveLength(|ordering|, maxResults), StartOf(!coin)) <= |draws|
      modifies this, ranker
      ensures Valid() && ranker == old(ranker) && perturbator == old(perturbator) && maxResults == old(maxResults)
      ensures ranker.Valid() && ranker.docids == ordering
      ensures var r := Perturbed(perturbator.GetSwapProb(maxAffirm), ordering, maxResults, coin, draws);
        && (list.None? <==> r.None?)
        && (r.Some? ==> list == Some(r.value.0) && currentRanking == r.value.0
                        && currentSingleStart == r.value.1 && currentQuery == query && presented)
        && (r.None? ==> currentRanking == old(currentRanking) && currentSingleStart == old(currentSingleStart)
                        && currentQuery == old(currentQuery) && presented == old(presented))
    {
      ghost var swapProb := perturbator.GetSwapProb(maxAffirm);
      var res := perturbator.Perturb(ranker, ordering, maxResults, maxAffirm, coin, draws);
      if res.None? {
        return None;
      }
      PerturbedShape(swapProb, ordering, maxResults, coin, draws);
      Present(res.value.0, res.value.1, query);
      return Some(currentRanking);
    }

    /** Remember the shown ranking, its single-start flag and its query. */
    method Present(list: seq<DocId>, singleStart: bool, query: nat)
      requires Valid() && (singleStart ==> |list| > 0)
      modifies this
      ensures Valid() && ranker == old(ranker) && perturbator == old(perturbator) && maxResults == old(maxResults)
      ensures currentRanking == list && currentSingleStart == singleStart && currentQuery == query && presented
    {
      currentRanking, currentSingleStart, currentQuery := list, singleStart, query;
      presented := true;
    }

    /** _get_feedback(clicks): the shown pairs in order, each exchanged when
        only its lower document was clicked, then the trailing document. */
    method GetFeedback(clicks: seq<int>) returns (newRanking: seq<DocId>)
      requires Valid() && presented && |clicks| >= |currentRanking|
      ensures newRanking == Feedback(currentRanking, currentSingleStart, clicks)
    {
      newRanking := ComputeFeedback(currentRanking, currentSingleStart, clicks);
    }

    /** update_solution_once(clicks): derive the feedback ranking and feed
        the affirmativeness of the pass to the perturbator. The scores the
        ranker's weights give the feedback and the shown ranking are inputs. */
    method UpdateSolutionOnce(clicks: seq<int>, feedbackScore: real, shownScore: real)
      returns (newRanking: seq<DocId>)
      requires Valid() && presented && |clicks| >= |currentRanking|
      modifies perturbator
      ensures Valid()
      ensures newRanking == Feedback(currentRanking, currentSingleStart, clicks)
      ensures perturbator.affirmations == old(perturbator.affirmations) + [feedbackScore - shownScore]
    {
      newRanking := GetFeedback(clicks);
      perturbator.Update(feedbackScore, shownScore);
    }

    /** One pass of update_solution's loop. */
    method Pass(clicks: array<int>, score: (real, real)) returns (feedback: seq<DocId>)
      requires Valid() && presented && clicks.Length >= |currentRanking|
      modifies clicks, perturbator
      ensures Valid()
      ensures feedback == Feedback(currentRanking, currentSingleStart, old(clicks[..]))
      ensures clicks[..] == DecrementAll(old(clicks[..]))
      ensures perturbator.affirmations == old(perturbator.affirmations) + [score.0 - score.1]
    {
      var current := clicks[..];
      feedback := UpdateSolutionOnce(current, score.0, score.1);
      assert clicks[..] == current;
      DecrementClicks(clicks);
    }

    /** Pass number `passes` of update_solution, while clicks are left. */
    method NextPass(clicks: array<int>, scores: seq<(real, real)>, ghost initial: seq<int>, ghost history: seq<real>, passes: nat)
      requires Valid() && presented && clicks.Length >= |currentRanking|
      requires forall x :: 0 <= x < |initial| ==> initial[x] >= 0
      requires passes <= Max(initial) <= |scores|
      requires clicks[..] == Decremented(initial, passes)
      requires perturbator.affirmations == history + Affirmations(scores[..passes])
      requires CountNonzero(clicks[..]) > 0
      modifies clicks, perturbator
      ensures Valid() && passes < Max(initial)
      ensures clicks[..] == Decremented(initial, passes + 1)
      ensures perturbator.affirmations == history + Affirmations(scores[..passes + 1])
    {
      ghost var before := clicks[..];
      ClicksLeft(initial, passes);
      var feedback := Pass(clicks, scores[passes]);
      assert clicks[..] == DecrementAll(before);
      AffirmationsStep(scores, passes);
      DecrementedStep(initial, passes);
    }

    /** update_solution(clicks): one pass per click still left on some
        document, each pass learning from the clicks left and then taking
        one click off every clicked document. The scores of pass p are
        scores[p]; returns the number of passes. */
    method UpdateSolution(clicks: array<int>, scores: seq<(real, real)>) returns (passes: nat)
      requires Valid() && presented && clicks.Length >= |currentRanking|
      requires forall x :: 0 <= x < clicks.Length ==> clicks[x] >= 0
      requires |scores| >= Max(clicks[..])
      modifies clicks, perturbator
      ensures Valid()
      ensures passes == Max(old(clicks[..]))
      ensures forall x :: 0 <= x < clicks.Length ==> clicks[x] == 0
      ensures perturbator.affirmations == old(perturbator.affirmations) + Affirmations(scores[..passes])
    {
      ghost var initial := clicks[..];
      ghost var history := perturbator.affirmations;
      passes := 0;
      assert clicks[..] == Decremented(initial, 0);
      while CountNonzero(clicks[..]) > 0
        invariant Valid() && passes <= Max(initial)
        invariant clicks[..] == Decremented(initial, passes)
        invariant perturbator.affirmations == history + Affirmations(scores[..passes])
        decreases Max(initial) - passes
      {
        NextPass(clicks, scores, initial, history, passes);
        passes := passes + 1;
      }
      ClicksLeft(initial, passes);
      Drained(initial, passes);
      ghost var after := clicks[..];
      assert forall x :: 0 <= x < clicks.Length ==> clicks[x] == after[x];
    }
  }

  lemma AffirmationsStep(scores: seq<(real, real)>, p: nat)
    requires p < |scores|
    ensures Affirmations(scores[..p + 1]) == Affirmations(scores[..p]) + [scores[p].0 - scores[p].1]
  {
  }

  /** One click off every clicked document. */
  function DecrementAll(clicks: seq<int>): (r: seq<int>)
    ensures |r| == |clicks|
    ensures forall x :: 0 <= x < |clicks| ==> r[x] == if clicks[x] != 0 then clicks[x] - 1 else 0
  {
    seq(|clicks|, x requires 0 <= x < |clicks| => if clicks[x] != 0 then clicks[x] - 1 else 0)
  }

  /** A pass of update_solution takes the clicks from p passes to p + 1. */
  lemma DecrementedStep(clicks: seq<int>, p: nat)
    requires forall x :: 0 <= x < |clicks| ==> clicks[x] >= 0
    ensures DecrementAll(Decremented(clicks, p)) == Decremented(clicks, p + 1)
  {
  }

  /** The inner loop of update_solution: one click off every clicked document. */
  method DecrementClicks(clicks: array<int>)
    modifies clicks
    ensures clicks[..] == DecrementAll(old(clicks[..]))
  {
    var x := 0;
    while x < clicks.Length
      invariant 0 <= x <= clicks.Length
      invariant forall y :: 0 <= y < x ==> clicks[y] == if old(clicks[y]) != 0 then old(clicks[y]) - 1 else 0
      invariant forall y :: x <= y < clicks.Length ==> clicks[y] == old(clicks[y])
    {
      if clicks[x] != 0 {
        clicks[x] := clicks[x] - 1;
      }
      x := x + 1;
    }
  }

  /** The body of _get_feedback on the shown list. */
  method ComputeFeedback(shown: seq<DocId>, singleStart: bool, clicks: seq<int>) returns (newRanking: seq<DocId>)
    requires |shown| <= |clicks|
    requires singleStart ==> |shown| > 0
    ensures newRanking == Feedback(shown, singleStart, clicks)
  {
    var n := |shown|;
    var start := StartOf(singleStart);
    if singleStart {
      newRanking := [shown[0]];
    } else {
      newRanking := [];
    }
    assert newRanking == shown[..start];
    ghost var flags := ClickFlags(clicks, start, n);
    PairCountFits(n, start);
    newRanking := FeedbackPairs(shown, start, clicks, newRanking);
    ghost var front := newRanking;
    if |newRanking| < n {
      newRanking := newRanking + [shown[n - 1]];
    }
    Trailing(shown, front, newRanking, start + 2 * |flags|);
  }

  /** The trailing document completes the pairs to the whole list. */
  lemma Trailing(shown: seq<DocId>, front: seq<DocId>, r: seq<DocId>, e: nat)
    requires e <= |shown| <= e + 1 && |front| == e
    requires |front| < |shown| ==> r == front + [shown[|shown| - 1]]
    requires |front| >= |shown| ==> r == front
    ensures r == front + shown[e..]
  {
    if |front| < |shown| {
      assert shown[e..] == [shown[|shown| - 1]];
    } else {
      assert shown[e..] == [];
    }
  }

  /** The first k pairs of _get_feedback's loop, each exchanged when only
      its lower document was clicked. */
  function FeedbackPrefix(shown: seq<DocId>, start: nat, clicks: seq<int>, k: nat): (r: seq<DocId>)
    requires start + 2 * k <= |shown| <= |clicks|
    ensures |r| == start + 2 * k
  {
    if k == 0 then shown[..start]
    else
      var i := start + 2 * (k - 1);
      FeedbackPrefix(shown, start, clicks, k - 1) + Pair(shown[i], shown[i + 1], clicks[i + 1] != 0 && clicks[i] == 0)
  }

  /** The loop's prefix is the swapped prefix under the click flags. */
  lemma {:induction false} FeedbackPrefixFlags(shown: seq<DocId>, start: nat, clicks: seq<int>, k: nat)
    requires start + 2 * k <= |shown| <= |clicks|
    ensures FeedbackPrefix(shown, start, clicks, k) == SwapPrefix(shown, start, PairFlags(clicks, start, k))
  {
    if k > 0 {
      FeedbackPrefixFlags(shown, start, clicks, k - 1);
      var i := start + 2 * (k - 1);
      var front, last := PairFlags(clicks, start, k - 1), clicks[i + 1] != 0 && clicks[i] == 0;
      var flags := front + [last];
      assert flags == PairFlags(clicks, start, k);
      assert flags[..k - 1] == front && flags[k - 1] == last;
      SwapPrefixUnfold(shown, start, flags);
    }
  }

  /** The click flags of every pair are those of the pairs the loop visits. */
  lemma ClickFlagsAll(clicks: seq<int>, start: nat, n: nat)
    requires n <= |clicks| && start + 2 * PairCount(n, start) <= n
    ensures ClickFlags(clicks, start, n) == PairFlags(clicks, start, PairCount(n, start))
  {
  }

  /** The loop of _get_feedback over the shown pairs. */
  method FeedbackPairs(shown: seq<DocId>, start: nat, clicks: seq<int>, first: seq<DocId>) returns (r: seq<DocId>)
    requires start <= |shown| <= |clicks|
    requires first == shown[..start]
    ensures start + 2 * PairCount(|shown|, start) <= |shown|
    ensures r == SwapPrefix(shown, start, ClickFlags(clicks, start, |shown|))
  {
    var n := |shown|;
    PairCountFits(n, start);
    r := first;
    var i, k := start, 0;
    while i < n - 1
      invariant k <= PairCount(n, start) && i == start + 2 * k
      invariant r == FeedbackPrefix(shown, start, clicks, k)
      decreases n - i
    {
      PairStep(n, start, k);
      r := r + Pair(shown[i], shown[i + 1], clicks[i + 1] != 0 && clicks[i] == 0);
      i, k := i + 2, k + 1;
    }
    LoopEnd(n, start, k);
    FeedbackPrefixFlags(shown, start, clicks, k);
    ClickFlagsAll(clicks, start, n);
  }
}
