/** The arithmetic of ProbabilisticMultileave.infer_outcome: ranks of the
    shown documents in each ranker, the per-click probability that each
    ranker produced the clicked document, the per-ranker credits and the
    competition ranking of the credits. The decay n / k^0.3 of the source
    is the parameter `decay(n, k)`. */
module Inference {
  import opened Wrappers
  import opened Seqs
  import opened Rankers
  import opened KeySort

  /** Why probability_of_list yields no matrix: no ranker to take n from,
      a clicked or earlier document that a ranker does not rank, a zero
      denominator, or a row whose entries sum to zero. */
  datatype InferenceError = NoRankers | MissingRank | ZeroDenominator | ZeroRowSum

  /** list.index: the position of the first occurrence of d. */
  function IndexOf(docids: seq<DocId>, d: DocId): (k: nat)
    requires d in docids
    ensures k < |docids| && docids[k] == d && d !in docids[..k]
  {
    if docids[0] == d then 0
    else
      var k := IndexOf(docids[1..], d);
      assert docids[..k + 1] == [docids[0]] + docids[1..][..k];
      k + 1
  }

  /** get_rank for one document: its index in `docids` plus one, None when
      the ranker does not rank it. */
  function RankOf(docids: seq<DocId>, d: DocId): (r: Option<nat>)
    ensures r.None? <==> d !in docids
    ensures r.Some? ==> 1 <= r.value <= |docids| && docids[r.value - 1] == d && d !in docids[..r.value - 1]
  {
    if d in docids then Some(IndexOf(docids, d) + 1) else None
  }

  /** np.where(clicks == 1): the positions clicked exactly once, in order. */
  function ClickIds(clicks: seq<int>): (ids: seq<nat>)
    ensures forall k :: k in ids <==> 0 <= k < |clicks| && clicks[k] == 1
    ensures forall a :: 0 <= a < |ids| ==> ids[a] < |clicks|
    ensures forall a, b :: 0 <= a < b < |ids| ==> ids[a] < ids[b]
  {
    if |clicks| == 0 then []
    else
      var ids := ClickIds(clicks[..|clicks| - 1]);
      assert forall k :: 0 <= k < |clicks| - 1 ==> clicks[..|clicks| - 1][k] == clicks[k];
      if clicks[|clicks| - 1] == 1 then ids + [|clicks| - 1] else ids
  }

  /** get_rank(ranker, documents). */
  function Ranks(docids: seq<DocId>, documents: seq<DocId>): (r: seq<Option<nat>>)
    ensures |r| == |documents|
    ensures forall i :: 0 <= i < |documents| ==> r[i] == RankOf(docids, documents[i])
  {
    seq(|documents|, i requires 0 <= i < |documents| => RankOf(docids, documents[i]))
  }

  predicate AllRanked(ranks: seq<Option<nat>>)
  {
    forall k :: 0 <= k < |ranks| ==> ranks[k].Some?
  }

  /** sum(n / (arange(n) + 1) ** tau): decay over the ranks 1..m. */
  function DecayTotal(n: nat, decay: (nat, nat) -> real, m: nat): real
  {
    if m == 0 then 0.0 else DecayTotal(n, decay, m - 1) + decay(n, m)
  }

  /** sum(n / ranks ** tau) over ranks that are all present. */
  function DecaySum(n: nat, decay: (nat, nat) -> real, ranks: seq<Option<nat>>): real
    requires AllRanked(ranks)
  {
    if |ranks| == 0 then 0.0
    else DecaySum(n, decay, ranks[..|ranks| - 1]) + decay(n, ranks[|ranks| - 1].value)
  }

  /** sigmas[j, i] for the ranker with ranks `ranks` and the click at
      position `click`: the click's rank over the decay left after the
      documents above it. */
  function Sigma(ranks: seq<Option<nat>>, click: nat, n: nat, decay: (nat, nat) -> real): Result<real, InferenceError>
    requires click < |ranks|
  {
    if !AllRanked(ranks[..click + 1]) then Failure(MissingRank)
    else
      var denominator := DecayTotal(n, decay, n) - DecaySum(n, decay, ranks[..click]);
      if denominator == 0.0 then Failure(ZeroDenominator)
      else Success(ranks[click].value as real / denominator)
  }

  /** The click positions index the shown list. */
  predicate ClicksIn(clicks: seq<nat>, l: seq<DocId>)
  {
    forall j :: 0 <= j < |clicks| ==> clicks[j] < |l|
  }

  /** The entry of ranker i for click j, before row normalisation. */
  function Entry(lists: seq<seq<DocId>>, l: seq<DocId>, clicks: seq<nat>, decay: (nat, nat) -> real, i: nat, j: nat)
    : Result<real, InferenceError>
    requires i < |lists| && j < |clicks| && ClicksIn(clicks, l)
  {
    Sigma(Ranks(lists[i], l), clicks[j], |lists[0]|, decay)
  }

  /** The values of a sequence of results in order, up to the first
      failure, which ends the scan with its error: the order in which
      probability_of_list fills sigmas. */
  function Scan<T>(results: seq<Result<T, InferenceError>>): (r: Result<seq<T>, InferenceError>)
    ensures r.Success? ==> |r.value| == |results|
  {
    if |results| == 0 then Success([])
    else
      match Scan(results[..|results| - 1])
      case Failure(e) => Failure(e)
      case Success(values) =>
        match results[|results| - 1]
        case Failure(e) => Failure(e)
        case Success(v) => Success(values + [v])
  }

  /** Scanning one more result. */
  lemma ScanStep<T>(results: seq<Result<T, InferenceError>>, j: nat)
    requires j < |results|
    ensures Scan(results[..j + 1]) ==
      match Scan(results[..j])
      case Failure(e) => Failure(e)
      case Success(values) =>
        match results[j]
        case Failure(e) => Failure(e)
        case Success(v) => Success(values + [v])
  {
    assert results[..j + 1][..j] == results[..j];
  }

  /** A successful scan holds every result's value. */
  lemma {:induction false} ScanSuccess<T>(results: seq<Result<T, InferenceError>>, k: nat)
    requires Scan(results).Success? && k < |results|
    ensures results[k] == Success(Scan(results).value[k])
  {
    var front := results[..|results| - 1];
    if k < |results| - 1 {
      ScanSuccess(front, k);
      assert front[k] == results[k];
    }
  }

  /** A failed scan reports the error of the first failing result. */
  lemma {:induction false} ScanFailure<T>(results: seq<Result<T, InferenceError>>)
    requires Scan(results).Failure?
    ensures exists f :: && 0 <= f < |results|
                        && results[f] == Failure(Scan(results).error)
                        && forall g :: 0 <= g < f ==> results[g].Success?
  {
    var front := results[..|results| - 1];
    if Scan(front).Failure? {
      ScanFailure(front);
      var f :| && 0 <= f < |front|
               && front[f] == Failure(Scan(front).error)
               && forall g :: 0 <= g < f ==> front[g].Success?;
      assert results[f] == front[f];
      assert forall g :: 0 <= g < f ==> results[g] == front[g];
    } else {
      forall g | 0 <= g < |front| ensures results[g].Success? {
        ScanSuccess(front, g);
        assert front[g] == results[g];
      }
    }
  }

  /** Once a scan fails, scanning further results keeps its error. */
  lemma {:induction false} ScanSticks<T>(results: seq<Result<T, InferenceError>>, j: nat)
    requires j <= |results| && Scan(results[..j]).Failure?
    ensures Scan(results) == Scan(results[..j])
    decreases |results| - j
  {
    if j < |results| {
      ScanStep(results, j);
      ScanSticks(results, j + 1);
    } else {
      assert results[..j] == results;
    }
  }

  /** The entries of ranker i, one per click. */
  function ColumnEntries(lists: seq<seq<DocId>>, l: seq<DocId>, clicks: seq<nat>, decay: (nat, nat) -> real, i: nat)
    : (r: seq<Result<real, InferenceError>>)
    requires ClicksIn(clicks, l) && i < |lists|
    ensures |r| == |clicks|
    ensures forall j :: 0 <= j < |clicks| ==> r[j] == Entry(lists, l, clicks, decay, i, j)
  {
    seq(|clicks|, j requires 0 <= j < |clicks| => Entry(lists, l, clicks, decay, i, j))
  }

  /** Column i of sigmas, or the error of its first failing entry. */
  function Column(lists: seq<seq<DocId>>, l: seq<DocId>, clicks: seq<nat>, decay: (nat, nat) -> real, i: nat)
    : (r: Result<seq<real>, InferenceError>)
    requires ClicksIn(clicks, l) && i < |lists|
    ensures r.Success? ==> |r.value| == |clicks|
  {
    Scan(ColumnEntries(lists, l, clicks, decay, i))
  }

  /** The columns of every ranker, in ranker order. */
  function ColumnResults(lists: seq<seq<DocId>>, l: seq<DocId>, clicks: seq<nat>, decay: (nat, nat) -> real)
    : (r: seq<Result<seq<real>, InferenceError>>)
    requires ClicksIn(clicks, l)
    ensures |r| == |lists|
    ensures forall k :: 0 <= k < |lists| ==> r[k] == Column(lists, l, clicks, decay, k)
  {
    seq(|lists|, k requires 0 <= k < |lists| => Column(lists, l, clicks, decay, k))
  }

  /** Every column of the rankers' scan has one entry per click. */
  lemma ColumnsRectangular(lists: seq<seq<DocId>>, l: seq<DocId>, clicks: seq<nat>, decay: (nat, nat) -> real)
    requires ClicksIn(clicks, l)
    requires Scan(ColumnResults(lists, l, clicks, decay)).Success?
    ensures Rectangular(Scan(ColumnResults(lists, l, clicks, decay)).value, |clicks|)
  {
    var results := ColumnResults(lists, l, clicks, decay);
    forall k | 0 <= k < |lists| ensures |Scan(results).value[k]| == |clicks| {
      ScanSuccess(results, k);
    }
  }

  /** Every entry of a successful scan of the rankers is the entry of its
      ranker and click. */
  lemma ColumnsEntries(lists: seq<seq<DocId>>, l: seq<DocId>, clicks: seq<nat>, decay: (nat, nat) -> real, k: nat, j: nat)
    requires ClicksIn(clicks, l) && k < |lists| && j < |clicks|
    requires Scan(ColumnResults(lists, l, clicks, decay)).Success?
    ensures |Scan(ColumnResults(lists, l, clicks, decay)).value[k]| == |clicks|
    ensures Entry(lists, l, clicks, decay, k, j) == Success(Scan(ColumnResults(lists, l, clicks, decay)).value[k][j])
  {
    var results := ColumnResults(lists, l, clicks, decay);
    ScanSuccess(results, k);
    ScanSuccess(ColumnEntries(lists, l, clicks, decay, k), j);
  }

  /** A failed scan of the rankers reports the error of the first failing
      entry of the first ranker whose column fails; every entry of the
      rankers before it succeeds. */
  lemma ColumnsFailure(lists: seq<seq<DocId>>, l: seq<DocId>, clicks: seq<nat>, decay: (nat, nat) -> real)
    requires ClicksIn(clicks, l)
    requires Scan(ColumnResults(lists, l, clicks, decay)).Failure?
    ensures exists k, f :: && 0 <= k < |lists| && 0 <= f < |clicks|
                           && Entry(lists, l, clicks, decay, k, f) == Failure(Scan(ColumnResults(lists, l, clicks, decay)).error)
                           && (forall g :: 0 <= g < f ==> Entry(lists, l, clicks, decay, k, g).Success?)
                           && (forall k', g :: 0 <= k' < k && 0 <= g < |clicks| ==> Entry(lists, l, clicks, decay, k', g).Success?)
  {
    var results := ColumnResults(lists, l, clicks, decay);
    ScanFailure(results);
    var k :| && 0 <= k < |results|
             && results[k] == Failure(Scan(results).error)
             && forall k' :: 0 <= k' < k ==> results[k'].Success?;
    var entries := ColumnEntries(lists, l, clicks, decay, k);
    ScanFailure(entries);
    var f :| && 0 <= f < |entries|
             && entries[f] == Failure(Scan(entries).error)
             && forall g :: 0 <= g < f ==> entries[g].Success?;
    EarlierColumnsSucceed(lists, l, clicks, decay, k);
    assert Entry(lists, l, clicks, decay, k, f) == Failure(Scan(results).error);
  }

  /** The rankers whose columns succeed have every entry defined. */
  lemma EarlierColumnsSucceed(lists: seq<seq<DocId>>, l: seq<DocId>, clicks: seq<nat>, decay: (nat, nat) -> real, k: nat)
    requires ClicksIn(clicks, l) && k <= |lists|
    requires forall k' :: 0 <= k' < k ==> Column(lists, l, clicks, decay, k').Success?
    ensures forall k', g :: 0 <= k' < k && 0 <= g < |clicks| ==> Entry(lists, l, clicks, decay, k', g).Success?
  {
    forall k', g | 0 <= k' < k && 0 <= g < |clicks|
      ensures Entry(lists, l, clicks, decay, k', g).Success?
    {
      var entries := ColumnEntries(lists, l, clicks, decay, k');
      assert Column(lists, l, clicks, decay, k') == Scan(entries);
      ScanSuccess(entries, g);
    }
  }

  /** Row j of the matrix before normalisation: entry j of every column. */
  function Row(cols: seq<seq<real>>, j: nat): (row: seq<real>)
    requires forall k :: 0 <= k < |cols| ==> j < |cols[k]|
    ensures |row| == |cols|
    ensures forall k :: 0 <= k < |cols| ==> row[k] == cols[k][j]
  {
    seq(|cols|, k requires 0 <= k < |cols| => cols[k][j])
  }

  /** Row j divided by its sum. */
  function Normalised(row: seq<real>): (r: seq<real>)
    requires Sum(row) != 0.0
    ensures |r| == |row|
    ensures forall i :: 0 <= i < |row| ==> r[i] == row[i] / Sum(row)
  {
    seq(|row|, i requires 0 <= i < |row| => row[i] / Sum(row))
  }

  lemma NormalisedSumsToOne(row: seq<real>)
    requires Sum(row) != 0.0
    ensures Sum(Normalised(row)) == 1.0
  {
    var total := Sum(row);
    SumScale(row, total, Normalised(row));
    assert total / total == 1.0;
  }

  /** Every column has m entries. */
  predicate Rectangular(cols: seq<seq<real>>, m: nat)
  {
    forall k :: 0 <= k < |cols| ==> |cols[k]| == m
  }

  /** probability_of_list(l, rankers, clicks), `lists[i]` being the ranking
      of ranker i: the columns filled ranker by ranker, then one row per
      click, one entry per ranker, each row divided by its sum. */
  function Probabilities(lists: seq<seq<DocId>>, l: seq<DocId>, clicks: seq<nat>, decay: (nat, nat) -> real)
    : Result<seq<seq<real>>, InferenceError>
    requires ClicksIn(clicks, l)
  {
    if |lists| == 0 then Failure(NoRankers)
    else
      match Scan(ColumnResults(lists, l, clicks, decay))
      case Failure(e) => Failure(e)
      case Success(cols) =>
        ColumnsRectangular(lists, l, clicks, decay);
        if exists j :: 0 <= j < |clicks| && Sum(Row(cols, j)) == 0.0 then Failure(ZeroRowSum)
        else Success(NormalisedRows(cols, |clicks|))
  }

  /** Once every ranker's column succeeds, only the row sums decide. */
  lemma SucceedingColumns(lists: seq<seq<DocId>>, l: seq<DocId>, clicks: seq<nat>, decay: (nat, nat) -> real)
    requires ClicksIn(clicks, l) && |lists| > 0
    requires Scan(ColumnResults(lists, l, clicks, decay)).Success?
    ensures var cols := Scan(ColumnResults(lists, l, clicks, decay)).value;
      && Rectangular(cols, |clicks|)
      && Probabilities(lists, l, clicks, decay) ==
         if exists j :: 0 <= j < |clicks| && Sum(Row(cols, j)) == 0.0 then Failure(ZeroRowSum)
         else Success(NormalisedRows(cols, |clicks|))
  {
    ColumnsRectangular(lists, l, clicks, decay);
  }

  /** Every row divided by its sum. */
  function NormalisedRows(cols: seq<seq<real>>, m: nat): (p: seq<seq<real>>)
    requires Rectangular(cols, m)
    requires forall j :: 0 <= j < m ==> Sum(Row(cols, j)) != 0.0
    ensures |p| == m
    ensures forall j :: 0 <= j < m ==> p[j] == Normalised(Row(cols, j))
  {
    seq(m, j requires 0 <= j < m => Normalised(Row(cols, j)))
  }

  /** Each row of a successful probability_of_list has one entry per
      ranker and sums to 1; there is one row per click. */
  lemma ProbabilityRowsSumToOne(lists: seq<seq<DocId>>, l: seq<DocId>, clicks: seq<nat>, decay: (nat, nat) -> real)
    requires ClicksIn(clicks, l)
    requires Probabilities(lists, l, clicks, decay).Success?
    ensures |Probabilities(lists, l, clicks, decay).value| == |clicks|
    ensures forall j :: 0 <= j < |clicks| ==>
      |Probabilities(lists, l, clicks, decay).value[j]| == |lists| &&
      Sum(Probabilities(lists, l, clicks, decay).value[j]) == 1.0
  {
    var cols := Scan(ColumnResults(lists, l, clicks, decay)).value;
    ColumnsRectangular(lists, l, clicks, decay);
    var p := Probabilities(lists, l, clicks, decay).value;
    assert p == NormalisedRows(cols, |clicks|);
    forall j | 0 <= j < |clicks|
      ensures |p[j]| == |lists| && Sum(p[j]) == 1.0
    {
      NormalisedSumsToOne(Row(cols, j));
    }
  }

  /** A successful probability_of_list divides every entry by the sum of
      its row. */
  lemma ProbabilityEntries(lists: seq<seq<DocId>>, l: seq<DocId>, clicks: seq<nat>, decay: (nat, nat) -> real, j: nat, k: nat)
    requires ClicksIn(clicks, l) && j < |clicks| && k < |lists|
    requires Probabilities(lists, l, clicks, decay).Success?
    ensures Entry(lists, l, clicks, decay, k, j).Success?
    ensures var cols := Scan(ColumnResults(lists, l, clicks, decay)).value;
      Rectangular(cols, |clicks|) &&
      Probabilities(lists, l, clicks, decay).value[j][k] == Entry(lists, l, clicks, decay, k, j).value / Sum(Row(cols, j))
  {
    ColumnsRectangular(lists, l, clicks, decay);
    ColumnsEntries(lists, l, clicks, decay, k, j);
  }

  /** The columns of p, as far as its shortest row (zip(*p)). */
  function Width(p: seq<seq<real>>): (w: nat)
    ensures forall j :: 0 <= j < |p| ==> w <= |p[j]|
    ensures |p| > 0 ==> exists j :: 0 <= j < |p| && w == |p[j]|
    ensures |p| == 0 ==> w == 0
  {
    if |p| == 0 then 0
    else if |p| == 1 then |p[0]|
    else
      var w' := Width(p[..|p| - 1]);
      assert forall j :: 0 <= j < |p| - 1 ==> p[..|p| - 1][j] == p[j];
      if |p[|p| - 1]| < w' then |p[|p| - 1]| else w'
  }

  /** Sum of column i over the rows of p. */
  function ColumnSum(p: seq<seq<real>>, i: nat): real
    requires forall j :: 0 <= j < |p| ==> i < |p[j]|
  {
    if |p| == 0 then 0.0 else ColumnSum(p[..|p| - 1], i) + p[|p| - 1][i]
  }

  /** credits_of_list(p): the average of each column. */
  function CreditsOfList(p: seq<seq<real>>): (creds: seq<real>)
    ensures |creds| == Width(p)
    ensures forall i :: 0 <= i < |creds| ==> creds[i] == ColumnSum(p, i) / |p| as real
  {
    seq(Width(p), i requires 0 <= i < Width(p) => ColumnSum(p, i) / |p| as real)
  }

  /** The column sums, one per column of a matrix of width w. */
  function ColumnSums(p: seq<seq<real>>, w: nat): (r: seq<real>)
    requires forall j :: 0 <= j < |p| ==> |p[j]| == w
    ensures |r| == w
    ensures forall i :: 0 <= i < w ==> r[i] == ColumnSum(p, i)
  {
    seq(w, i requires 0 <= i < w => ColumnSum(p, i))
  }

  lemma {:induction false} SumPointwise(a: seq<real>, b: seq<real>, c: seq<real>)
    requires |a| == |b| == |c|
    requires forall i :: 0 <= i < |c| ==> c[i] == a[i] + b[i]
    ensures Sum(c) == Sum(a) + Sum(b)
  {
    if |c| > 0 {
      SumPointwise(a[..|a| - 1], b[..|b| - 1], c[..|c| - 1]);
    }
  }

  /** The sum of each row. */
  function RowSums(p: seq<seq<real>>): (r: seq<real>)
    ensures |r| == |p|
    ensures forall j :: 0 <= j < |p| ==> r[j] == Sum(p[j])
  {
    seq(|p|, j requires 0 <= j < |p| => Sum(p[j]))
  }

  /** Adding up by columns and by rows gives the same total. */
  lemma {:induction false} ColumnsThenRows(p: seq<seq<real>>, w: nat)
    requires forall j :: 0 <= j < |p| ==> |p[j]| == w
    ensures Sum(ColumnSums(p, w)) == Sum(RowSums(p))
  {
    if |p| > 0 {
      var p' := p[..|p| - 1];
      ColumnsThenRows(p', w);
      forall i | 0 <= i < w
        ensures ColumnSums(p, w)[i] == ColumnSums(p', w)[i] + p[|p| - 1][i]
      {
        assert ColumnSum(p, i) == ColumnSum(p', i) + p[|p| - 1][i];
      }
      SumPointwise(ColumnSums(p', w), p[|p| - 1], ColumnSums(p, w));
      assert RowSums(p)[..|p| - 1] == RowSums(p');
      calc {
        Sum(RowSums(p));
        Sum(RowSums(p)[..|p| - 1]) + RowSums(p)[|p| - 1];
        Sum(RowSums(p')) + Sum(p[|p| - 1]);
        Sum(ColumnSums(p', w)) + Sum(p[|p| - 1]);
        Sum(ColumnSums(p, w));
      }
    } else {
      SumConstant(ColumnSums(p, w), 0.0);
    }
  }

  /** When every row has one entry per ranker and sums to 1, the credits
      sum to 1. */
  lemma CreditsSumToOne(p: seq<seq<real>>, n: nat)
    requires |p| > 0
    requires forall j :: 0 <= j < |p| ==> |p[j]| == n && Sum(p[j]) == 1.0
    ensures |CreditsOfList(p)| == n
    ensures Sum(CreditsOfList(p)) == 1.0
  {
    var creds := CreditsOfList(p);
    var cols := ColumnSums(p, n);
    assert Width(p) == n;
    ColumnsThenRows(p, n);
    SumConstant(RowSums(p), 1.0);
    SumScale(cols, |p| as real, creds);
    DivideSelf(|p|);
  }

  lemma DivideSelf(m: nat)
    requires m > 0
    ensures (m as real * 1.0) / m as real == 1.0
  {
  }

  /** The rankers whose credit is strictly greater than x. */
  function Greater(creds: seq<real>, x: real): set<nat>
  {
    set s: nat | s < |creds| && creds[s] > x
  }

  /** Competition ("1224") rank of ranker r: one more than the number of
      rankers with strictly greater credit. */
  function CompetitionRank(creds: seq<real>, r: nat): (rank: nat)
    requires r < |creds|
  {
    1 + |Greater(creds, creds[r])|
  }

  /** Ranks lie in 1..N; the best credit gets rank 1. */
  lemma CompetitionRankBounds(creds: seq<real>, r: nat)
    requires r < |creds|
    ensures 1 <= CompetitionRank(creds, r) <= |creds|
    ensures (forall s :: 0 <= s < |creds| ==> creds[s] <= creds[r]) ==> CompetitionRank(creds, r) == 1
  {
    var g := Greater(creds, creds[r]);
    RangeSetMembers(|creds|);
    RangeSetCard(|creds|);
    var others := RangeSet(|creds|) - {r};
    assert g <= others;
    assert |others| == |creds| - 1;
    assert |others| == |g| + |others - g|;
    if forall s :: 0 <= s < |creds| ==> creds[s] <= creds[r] {
      assert g == {};
    }
  }

  /** A strictly greater credit earns a strictly better rank. */
  lemma CompetitionRankMonotone(creds: seq<real>, r: nat, s: nat)
    requires r < |creds| && s < |creds|
    requires creds[r] > creds[s]
    ensures CompetitionRank(creds, r) < CompetitionRank(creds, s)
  {
    var gr, gs := Greater(creds, creds[r]), Greater(creds, creds[s]);
    assert gr <= gs;
    assert r in gs - gr;
    assert |gs| == |gr| + |gs - gr|;
  }

  /** The secondary sort key of credits_to_outcome: Python's sort is
      stable, so among equal credits the lower ranker index comes first. */
  function IndexKeys(n: nat): (keys: seq<int>)
    ensures |keys| == n
    ensures forall i :: 0 <= i < n ==> keys[i] == -i
  {
    seq(n, i requires 0 <= i < n => -i)
  }

  /** In a descending order of credits, the rankers placed before the first
      of a group of equal credits are exactly those with greater credit. */
  lemma {:induction false} GroupStart(creds: seq<real>, order: seq<nat>, p: nat)
    requires IsPermutation(order, |creds|)
    requires Descending(order, creds, IndexKeys(|creds|))
    requires p < |order|
    requires p == 0 || creds[order[p - 1]] != creds[order[p]]
    ensures CompetitionRank(creds, order[p]) == p + 1
  {
    var c := creds[order[p]];
    var keys := IndexKeys(|creds|);
    PermutationCovers(order, |creds|);
    forall s | s in Greater(creds, c)
      ensures s in Elems(order[..p])
    {
      assert s in order;
      var q :| 0 <= q < |order| && order[q] == s;
      if q >= p {
        assert false;
      }
      assert order[..p][q] == s;
    }
    forall s | s in Elems(order[..p])
      ensures s in Greater(creds, c)
    {
      var q :| 0 <= q < p && order[..p][q] == s;
      assert !Ahead(creds, keys, order[p - 1], order[q]) || q == p - 1;
      assert !Ahead(creds, keys, order[p], order[p - 1]);
    }
    assert Greater(creds, c) == Elems(order[..p]);
    ElemsCard(order[..p]);
  }

  /** The result of infer_outcome: credits (credits mode) or ranks. */
  datatype Outcome = Credits(credits: seq<real>) | Ranking(ranks: seq<nat>)

  /** infer_outcome without a click of value 1: a tie. Credits mode gives
      each of the n rankers 1/n, which divides by zero when n == 0. */
  function TieOutcome(credits: bool, n: nat): (o: Result<Outcome, InferenceError>)
  {
    if credits then
      if n == 0 then Failure(NoRankers)
      else Success(Credits(seq(n, _ => 1.0 / n as real)))
    else Success(Ranking(seq(n, _ => 1)))
  }

  /** credits_to_outcome as a specification: the competition rank of each
      ranker. */
  function Outcomes(creds: seq<real>): (ranks: seq<nat>)
    ensures |ranks| == |creds|
    ensures forall r :: 0 <= r < |creds| ==> ranks[r] == CompetitionRank(creds, r)
  {
    seq(|creds|, r requires 0 <= r < |creds| => CompetitionRank(creds, r))
  }

  /** infer_outcome with at least one click, after every ranker is
      re-initialised to `lists`. */
  function ClickOutcome(credits: bool, lists: seq<seq<DocId>>, l: seq<DocId>, clicks: seq<nat>, decay: (nat, nat) -> real)
    : Result<Outcome, InferenceError>
    requires ClicksIn(clicks, l)
  {
    match Probabilities(lists, l, clicks, decay)
    case Failure(e) => Failure(e)
    case Success(p) =>
      var creds := CreditsOfList(p);
      if credits then Success(Credits(creds)) else Success(Ranking(Outcomes(creds)))
  }

  /** A tie gives every ranker the same share (summing to 1) or rank 1. */
  lemma TieOutcomeEqual(credits: bool, n: nat)
    requires n > 0
    ensures credits ==> TieOutcome(credits, n).Success? && Sum(TieOutcome(credits, n).value.credits) == 1.0
    ensures !credits ==> TieOutcome(credits, n) == Success(Ranking(seq(n, _ => 1)))
  {
    if credits {
      SumConstant(TieOutcome(credits, n).value.credits, 1.0 / n as real);
    }
  }

  /** With clicks, the credits infer_outcome reports have one entry per
      ranker and sum to 1; in ranking mode every rank lies in 1..N. */
  lemma ClickOutcomeShape(credits: bool, lists: seq<seq<DocId>>, l: seq<DocId>, clicks: seq<nat>, decay: (nat, nat) -> real)
    requires ClicksIn(clicks, l) && |clicks| > 0
    requires ClickOutcome(credits, lists, l, clicks, decay).Success?
    ensures credits ==>
      var creds := ClickOutcome(credits, lists, l, clicks, decay).value.credits;
      |creds| == |lists| && Sum(creds) == 1.0
    ensures !credits ==>
      var ranks := ClickOutcome(credits, lists, l, clicks, decay).value.ranks;
      |ranks| == |lists| && forall r :: 0 <= r < |ranks| ==> 1 <= ranks[r] <= |lists|
  {
    ProbabilityRowsSumToOne(lists, l, clicks, decay);
    var p := Probabilities(lists, l, clicks, decay).value;
    CreditsSumToOne(p, |lists|);
    var creds := CreditsOfList(p);
    forall r | 0 <= r < |creds| ensures 1 <= CompetitionRank(creds, r) <= |creds| {
      CompetitionRankBounds(creds, r);
    }
  }
}
