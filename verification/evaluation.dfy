/** The shared part of the evaluation metrics, lerot/evaluation/AbstractEval.py:
    ranking documents by score with a tie-breaking rule, and evaluating a
    solution over a set of queries. */
module Evaluation {
  import opened Wrappers
  import opened Seqs
  import opened KeySort

  datatype SortError = UnknownTies(ties: string)

  /** The second component of the sorted tuples: reversed(range(n)) for
      "first", range(n) for "last", the sample for "random". */
  function TieKeys(ties: string, n: nat, sample: seq<nat>): (keys: Result<seq<int>, SortError>)
    requires ties == "random" ==> |sample| == n
    ensures keys.Failure? <==> ties != "first" && ties != "last" && ties != "random"
    ensures keys.Success? ==> |keys.value| == n
  {
    if ties == "first" then Success(seq(n, i => n - 1 - i))
    else if ties == "last" then Success(seq(n, i => i))
    else if ties == "random" then Success(sample)
    else Failure(UnknownTies(ties))
  }

  /** Scores never increase along `order`. */
  predicate ScoresDescend(order: seq<nat>, scores: seq<real>)
  {
    forall p, q :: 0 <= p < q < |order| && order[q] < |scores| && order[p] < |scores| ==>
      scores[order[p]] >= scores[order[q]]
  }

  /** Among equal scores, the key of an earlier position is larger. */
  predicate TiesByKey(order: seq<nat>, scores: seq<real>, key: seq<int>)
  {
    forall p, q :: 0 <= p < q < |order| && order[q] < |scores| && order[p] < |scores| &&
                   order[q] < |key| && order[p] < |key| && scores[order[p]] == scores[order[q]] ==>
      key[order[p]] > key[order[q]]
  }

  /** Among equal scores, documents keep their input order. */
  predicate TiesKeepOrder(order: seq<nat>, scores: seq<real>)
  {
    forall p, q :: 0 <= p < q < |order| && order[q] < |scores| && order[p] < |scores| &&
                   scores[order[p]] == scores[order[q]] ==>
      order[p] < order[q]
  }

  /** Among equal scores, documents come in reverse input order. */
  predicate TiesReverseOrder(order: seq<nat>, scores: seq<real>)
  {
    forall p, q :: 0 <= p < q < |order| && order[q] < |scores| && order[p] < |scores| &&
                   scores[order[p]] == scores[order[q]] ==>
      order[p] > order[q]
  }

  /** The positions of the zipped tuples, in the order of
      sort(reverse=True): scores descending, tie keys descending among
      equal scores. zip stops at the shorter of scores and docids. */
  function SortOrder(ties: string, scores: seq<real>, n: nat, sample: seq<nat>): (r: Result<seq<nat>, SortError>)
    requires ties == "random" ==> IsPermutation(sample, n)
    ensures r.Failure? <==> ties != "first" && ties != "last" && ties != "random"
    ensures r.Success? ==> IsPermutation(r.value, if |scores| < n then |scores| else n)
    ensures r.Success? ==> ScoresDescend(r.value, scores)
    ensures r.Success? && ties == "first" ==> TiesKeepOrder(r.value, scores)
    ensures r.Success? && ties == "last" ==> TiesReverseOrder(r.value, scores)
    ensures r.Success? && ties == "random" ==> TiesByKey(r.value, scores, sample)
  {
    var m := if |scores| < n then |scores| else n;
    match TieKeys(ties, n, sample)
    case Failure(e) => Failure(e)
    case Success(keys) =>
      var primary, secondary := scores[..m], keys[..m];
      var order := SortIndices(primary, secondary, m);
      SortIndicesDescending(primary, secondary, m);
      SortIndicesPermutation(primary, secondary, m);
      TieKeysDistinct(ties, n, sample);
      DescendingOrder(order, scores, keys, m);
      TieOrder(ties, keys, n, sample, order, scores, m);
      Success(order)
  }

  /** Every mode gives each position its own tie key. */
  lemma TieKeysDistinct(ties: string, n: nat, sample: seq<nat>)
    requires ties == "random" ==> IsPermutation(sample, n)
    requires TieKeys(ties, n, sample).Success?
    ensures Distinct(TieKeys(ties, n, sample).value)
  {
  }

  /** A descending sort of the first m positions on (score, key). */
  lemma DescendingOrder(order: seq<nat>, scores: seq<real>, keys: seq<int>, m: nat)
    requires m <= |scores| && m <= |keys|
    requires Descending(order, scores[..m], keys[..m]) && IsPermutation(order, m)
    requires Distinct(keys)
    ensures ScoresDescend(order, scores) && TiesByKey(order, scores, keys)
  {
    var primary, secondary := scores[..m], keys[..m];
    forall p, q | 0 <= p < q < |order|
      ensures scores[order[p]] >= scores[order[q]]
      ensures scores[order[p]] == scores[order[q]] ==> keys[order[p]] > keys[order[q]]
    {
      assert !Ahead(primary, secondary, order[q], order[p]);
      assert order[p] != order[q];
    }
  }

  /** The tie keys of each mode turn the key order into an index order. */
  lemma TieOrder(ties: string, keys: seq<int>, n: nat, sample: seq<nat>, order: seq<nat>, scores: seq<real>, m: nat)
    requires ties == "random" ==> IsPermutation(sample, n)
    requires TieKeys(ties, n, sample) == Success(keys)
    requires m <= n && IsPermutation(order, m)
    requires TiesByKey(order, scores, keys)
    ensures ties == "first" ==> TiesKeepOrder(order, scores)
    ensures ties == "last" ==> TiesReverseOrder(order, scores)
    ensures ties == "random" ==> TiesByKey(order, scores, sample)
  {
  }

  /** _sort_docids_by_score(docids, scores, ties): the documents in the
      order of their scores, ties broken by `ties`; any other mode is an
      error. `sample` is the permutation random.sample draws. */
  function SortDocidsByScore<D>(docids: seq<D>, scores: seq<real>, ties: string, sample: seq<nat>)
    : (r: Result<seq<D>, SortError>)
    requires ties == "random" ==> IsPermutation(sample, |docids|)
    ensures r.Failure? <==> ties != "first" && ties != "last" && ties != "random"
    ensures r.Success? ==> var m := if |scores| < |docids| then |scores| else |docids|;
      && |r.value| == m
      && multiset(r.value) == multiset(docids[..m])
      && forall p :: 0 <= p < m ==> r.value[p] == docids[SortOrder(ties, scores, |docids|, sample).value[p]]
  {
    match SortOrder(ties, scores, |docids|, sample)
    case Failure(e) => Failure(e)
    case Success(order) =>
      var m := if |scores| < |docids| then |scores| else |docids|;
      var keys := TieKeys(ties, |docids|, sample).value;
      SortApply(docids[..m], scores[..m], keys[..m], m);
      assert docids[..m][..m] == docids[..m];
      var r := Apply(docids[..m], order);
      assert forall p :: 0 <= p < m ==> r[p] == docids[order[p]];
      Success(r)
  }

  /** numpy.mean: the average, NaN for no values. */
  datatype Score = NaN | Score(value: real)

  function Mean(outcomes: seq<real>): (r: Score)
    ensures r.NaN? <==> |outcomes| == 0
  {
    if |outcomes| == 0 then NaN else Score(Sum(outcomes) / |outcomes| as real)
  }

  /** The mean lies within any bounds of the values. */
  lemma MeanWithin(outcomes: seq<real>, lo: real, hi: real)
    requires |outcomes| > 0
    requires forall i :: 0 <= i < |outcomes| ==> lo <= outcomes[i] <= hi
    ensures lo <= Mean(outcomes).value <= hi
  {
    var n := |outcomes| as real;
    SumWithin(outcomes, lo, hi);
    assert n * lo / n == lo && n * hi / n == hi;
  }

  /** The mean of equal values is that value. */
  lemma MeanConstant(outcomes: seq<real>, x: real)
    requires |outcomes| > 0
    requires forall i :: 0 <= i < |outcomes| ==> outcomes[i] == x
    ensures Mean(outcomes) == Score(x)
  {
    MeanWithin(outcomes, x, x);
  }

  /** The evaluator's memory of its last evaluation. */
  class Evaluator {
    var prevSolutionW: Option<seq<real>>
    var prevScore: Option<Score>

    constructor ()
      ensures prevSolutionW == None && prevScore == None
    {
      prevSolutionW, prevScore := None, None;
    }

    /** evaluate_all(solution, queries): the mean of the per-query outcomes
        (`evaluateOne`, the metric of a derived class), remembered together
        with the solution's weights `w`. */
    method EvaluateAll<Q>(w: seq<real>, queries: seq<Q>, evaluateOne: Q -> real) returns (score: Score)
      modifies this
      ensures score == Mean(seq(|queries|, i requires 0 <= i < |queries| => evaluateOne(queries[i])))
      ensures prevScore == Some(score) && prevSolutionW == Some(w)
    {
      var outcomes: seq<real> := [];
      for k := 0 to |queries|
        invariant outcomes == seq(k, i requires 0 <= i < k => evaluateOne(queries[i]))
      {
        outcomes := outcomes + [evaluateOne(queries[k])];
      }
      score := Mean(outcomes);
      prevSolutionW := Some(w);
      prevScore := Some(score);
    }
  }
}
