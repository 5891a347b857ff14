/** lerot/comparison/ProbabilisticMultileave.py: the comparison object with
    its configuration, multileave (list construction) and infer_outcome
    (credit assignment). The arithmetic of the inference lives in module
    Inference, the draw schedule in module Schedule. */
module Comparison {
  import opened Wrappers
  import opened Seqs
  import opened Rankers
  import opened Schedule
  import opened KeySort
  import opened Inference

  /** The result of multileave: the list `l` and, per position, the index
      of the ranker that contributed it (`a`). */
  datatype Multileaved = Multileaved(list: seq<DocId>, assignment: seq<nat>)

  /** The number of documents of each ranking. */
  function Counts(orderings: seq<seq<DocId>>): (c: seq<nat>)
    ensures |c| == |orderings|
    ensures forall i :: 0 <= i < |c| ==> c[i] == |orderings[i]|
  {
    seq(|orderings|, i requires 0 <= i < |orderings| => |orderings[i]|)
  }

  /** min([length] + counts): the smallest of the requested length and the
      counts, which is one of them. */
  function MinLength(length: int, counts: seq<nat>): (m: int)
    ensures m <= length
    ensures forall i :: 0 <= i < |counts| ==> m <= counts[i]
    ensures m == length || exists i :: 0 <= i < |counts| && m == counts[i]
  {
    if |counts| == 0 then length
    else
      var m' := MinLength(length, counts[..|counts| - 1]);
      assert forall i :: 0 <= i < |counts| - 1 ==> counts[..|counts| - 1][i] == counts[i];
      if counts[|counts| - 1] < m' then counts[|counts| - 1] else m'
  }

  /** The number of draws multileave makes (a negative minimum draws nothing). */
  function ListLength(length: int, orderings: seq<seq<DocId>>): nat
  {
    var m := MinLength(length, Counts(orderings));
    if m < 0 then 0 else m
  }

  /** `d` is what a ranker with ranking `ordering` returns from next() once
      every document in `shown` has been emitted by it or removed from it. */
  predicate NextAfter(ordering: seq<DocId>, shown: seq<DocId>, d: DocId)
  {
    var available := Unused(ordering, Elems(shown));
    available != [] && available[0] == d
  }

  class ProbabilisticMultileave {
    var aggregate: string
    var detInterleave: bool
    var compareTd: bool
    var credits: bool

    /** The defaults of __init__ for options that are absent or false;
        parsing the argument string is not modelled. */
    constructor (aggregate: Option<string>, detInterleave: bool, compareTd: bool, credits: bool)
      ensures this.aggregate == if aggregate.Some? && aggregate.value != "" then aggregate.value else "expectation"
      ensures this.detInterleave == detInterleave && this.compareTd == compareTd && this.credits == credits
    {
      this.aggregate := if aggregate.Some? && aggregate.value != "" then aggregate.value else "expectation";
      this.detInterleave := detInterleave;
      this.compareTd := compareTd;
      this.credits := credits;
    }

    /** multileave(rankers, query, length). `orderings[i]` is the ranking
        rankers[i] gives the query; `shuffles` are the successive shuffled
        pools. Each draw asks the scheduled ranker for its next document and
        removes that document from every other ranker. With no rankers and a
        positive length, pop() on the empty pool fails (None). */
    method Multileave(rankers: seq<Ranker>, orderings: seq<seq<DocId>>, length: int, shuffles: seq<seq<nat>>)
      returns (res: Option<Multileaved>)
      requires |orderings| == |rankers|
      requires forall i :: 0 <= i < |orderings| ==> Distinct(orderings[i])
      requires Distinct(rankers)
      requires AllPermutations(shuffles, |rankers|)
      requires |rankers| > 0 ==> MinLength(length, Counts(orderings)) <= |shuffles| * |rankers|
      modifies set r | r in rankers
      ensures res.None? <==> |rankers| == 0 && length > 0
      ensures forall j :: 0 <= j < |rankers| ==> rankers[j].Valid() && rankers[j].docids == orderings[j]
      ensures res.Some? ==>
        var l, a := res.value.list, res.value.assignment;
        && |l| == |a| == ListLength(length, orderings)
        && |a| <= |DrawSchedule(shuffles)|
        && a == DrawSchedule(shuffles)[..|a|]
        && (forall i :: 0 <= i < |a| ==> a[i] < |rankers| && NextAfter(orderings[a[i]], l[..i], l[i]))
        && Distinct(l)
        && (forall j :: 0 <= j < |rankers| ==> rankers[j].removed == Elems(l) * Elems(orderings[j]))
    {
      var n := |rankers|;
      InitAll(rankers, orderings);
      var counts := seq(n, i requires 0 <= i < n reads rankers => rankers[i].DocumentCount());
      assert counts == Counts(orderings);
      var target := MinLength(length, counts);
      var schedule := BuildSchedule(n, target, shuffles);
      if schedule.None? {
        return None;
      }
      var a := schedule.value;
      forall p | 0 <= p < |a|
        ensures a[p] < n
      {
        DrawScheduleLength(shuffles, n);
        DrawScheduleMember(shuffles, n, p);
      }
      var l := Interleave(rankers, orderings, a);
      return Some(Multileaved(l, a));
    }

    /** infer_outcome(l, rankers, clicks, query): only clicks equal to 1
        count. Without such a click the rankers tie and are left untouched;
        otherwise every ranker is re-initialised with its ranking of the
        query (`orderings`) and the credits (credits mode) or their ranking
        is returned. */
    method InferOutcome(l: seq<DocId>, rankers: seq<Ranker>, clicks: seq<int>, orderings: seq<seq<DocId>>,
                        decay: (nat, nat) -> real)
      returns (outcome: Result<Outcome, InferenceError>)
      requires |orderings| == |rankers| && Distinct(rankers)
      requires forall i :: 0 <= i < |orderings| ==> Distinct(orderings[i])
      requires |clicks| <= |l|
      modifies set r | r in rankers
      ensures ClickIds(clicks) == [] ==> outcome == TieOutcome(credits, |rankers|)
      ensures ClickIds(clicks) == [] ==> forall i :: 0 <= i < |rankers| ==>
        rankers[i].docids == old(rankers[i].docids) && rankers[i].removed == old(rankers[i].removed)
      ensures ClickIds(clicks) != [] ==>
        Lists(rankers) == orderings && outcome == ClickOutcome(credits, orderings, l, ClickIds(clicks), decay)
    {
      var clickIds := ClickIds(clicks);
      if |clickIds| == 0 {
        if credits {
          if |rankers| == 0 {
            return Failure(NoRankers);
          }
          return Success(Credits(seq(|rankers|, _ => 1.0 / |rankers| as real)));
        }
        return Success(Ranking(seq(|rankers|, _ => 1)));
      }
      InitAll(rankers, orderings);
      assert Lists(rankers) == orderings;
      var p := ProbabilityOfList(l, rankers, clickIds, decay);
      if p.Failure? {
        return Failure(p.error);
      }
      var creds := CreditsOfList(p.value);
      if credits {
        return Success(Credits(creds));
      }
      var ranks := CreditsToOutcome(creds);
      return Success(Ranking(ranks));
    }

    /** get_rank(ranker, documents): for each document its rank in the
        ranker's ranking, None when the ranker does not rank it. */
    method GetRank(ranker: Ranker, documents: seq<DocId>) returns (ranks: seq<Option<nat>>)
      ensures ranks == Ranks(ranker.docids, documents)
    {
      var found := new Option<nat>[|documents|](_ => None);
      var docsInRanker := ranker.docids;
      for i := 0 to |documents|
        invariant forall k :: 0 <= k < i ==> found[k] == RankOf(docsInRanker, documents[k])
        invariant forall k :: i <= k < |documents| ==> found[k] == None
      {
        if documents[i] in docsInRanker {
          found[i] := Some(IndexOf(docsInRanker, documents[i]) + 1);
        }
      }
      ranks := found[..];
    }

    /** probability_of_list(result_list, rankers, clicked_docs): the matrix
        sigmas filled ranker by ranker, then normalised row by row. */
    method ProbabilityOfList(resultList: seq<DocId>, rankers: seq<Ranker>, clickedDocs: seq<nat>, decay: (nat, nat) -> real)
      returns (p: Result<seq<seq<real>>, InferenceError>)
      requires ClicksIn(clickedDocs, resultList)
      ensures p == Probabilities(Lists(rankers), resultList, clickedDocs, decay)
    {
      if |rankers| == 0 {
        return Failure(NoRankers);
      }
      ghost var lists := Lists(rankers);
      var n := |rankers[0].docids|;
      var sigmas := new real[|clickedDocs|, |rankers|];
      var failure, cols := FillColumns(sigmas, rankers, lists, resultList, clickedDocs, decay, n);
      if failure.Some? {
        return Failure(failure.value);
      }
      SucceedingColumns(lists, resultList, clickedDocs, decay);
      p := NormaliseColumns(sigmas, cols, |clickedDocs|);
    }

    /** The loop of probability_of_list over the rankers: column i of sigmas
        receives ranker i's entries, until the first failing entry. */
    method FillColumns(sigmas: array2<real>, rankers: seq<Ranker>, ghost lists: seq<seq<DocId>>, l: seq<DocId>,
                       clicks: seq<nat>, decay: (nat, nat) -> real, n: nat)
      returns (failure: Option<InferenceError>, ghost cols: seq<seq<real>>)
      requires lists == Lists(rankers) && |rankers| > 0 && n == |lists[0]|
      requires ClicksIn(clicks, l)
      requires sigmas.Length0 == |clicks| && sigmas.Length1 == |rankers|
      modifies sigmas
      ensures failure.Some? ==> Scan(ColumnResults(lists, l, clicks, decay)) == Failure(failure.value)
      ensures failure.None? ==> Scan(ColumnResults(lists, l, clicks, decay)) == Success(cols)
      ensures failure.None? ==> |cols| == |rankers|
      ensures failure.None? ==>
        forall j, k :: 0 <= j < |clicks| && 0 <= k < |rankers| ==> |cols[k]| == |clicks| && sigmas[j, k] == cols[k][j]
    {
      ghost var results := ColumnResults(lists, l, clicks, decay);
      cols := [];
      for i := 0 to |rankers|
        invariant Scan(results[..i]) == Success(cols) && |cols| == i
        invariant forall k :: 0 <= k < i ==> |cols[k]| == |clicks|
        invariant forall j, k :: 0 <= j < |clicks| && 0 <= k < i ==> sigmas[j, k] == cols[k][j]
      {
        var ranks := GetRank(rankers[i], l);
        ghost var column: seq<real>;
        failure, column := FillColumn(sigmas, lists, l, clicks, decay, i, ranks, n);
        ScanStep(results, i);
        if failure.Some? {
          ScanSticks(results, i + 1);
          return;
        }
        cols := cols + [column];
      }
      assert results[..|rankers|] == results;
      return None, cols;
    }

    /** credits_to_outcome(creds): walk the rankers by descending credit,
        giving each the running rank unless its credit equals the previous
        one, in which case it shares that one's rank. */
    method CreditsToOutcome(creds: seq<real>) returns (rankedCredits: seq<nat>)
      ensures rankedCredits == Outcomes(creds)
    {
      var n := |creds|;
      var order := SortIndices(creds, IndexKeys(n), n);
      SortIndicesDescending(creds, IndexKeys(n), n);
      SortIndicesPermutation(creds, IndexKeys(n), n);
      var ranked := new nat[n](_ => 0);
      var lastC: Option<real> := None;
      var lastRank := 0;
      var rank := 0;
      for p := 0 to n
        invariant rank == p
        invariant p == 0 ==> lastC == None
        invariant p > 0 ==> lastC == Some(creds[order[p - 1]]) && lastRank == CompetitionRank(creds, order[p - 1])
        invariant forall q :: 0 <= q < p ==> ranked[order[q]] == CompetitionRank(creds, order[q])
      {
        var r, c := order[p], creds[order[p]];
        rank := rank + 1;
        if lastC != Some(c) {
          GroupStart(creds, order, p);
          ranked[r] := rank;
          lastRank := rank;
        } else {
          ranked[r] := lastRank;
        }
        lastC := Some(c);
      }
      PermutationCovers(order, n);
      forall r | 0 <= r < n ensures ranked[r] == CompetitionRank(creds, r) {
        assert r in order;
        var q :| 0 <= q < n && order[q] == r;
      }
      rankedCredits := ranked[..];
    }
  }

  /** The second loop of probability_of_list: every row of sigmas divided by
      its sum, the matrix returned as rows. */
  method NormaliseColumns(sigmas: array2<real>, ghost cols: seq<seq<real>>, m: nat) returns (p: Result<seq<seq<real>>, InferenceError>)
    requires Rectangular(cols, m) && sigmas.Length0 == m && sigmas.Length1 == |cols|
    requires forall j, k :: 0 <= j < m && 0 <= k < |cols| ==> sigmas[j, k] == cols[k][j]
    modifies sigmas
    ensures p == if exists j :: 0 <= j < m && Sum(Row(cols, j)) == 0.0 then Failure(ZeroRowSum)
                 else Success(NormalisedRows(cols, m))
  {
    ghost var unnormalised := seq(m, j requires 0 <= j < m => Row(cols, j));
    var ok := NormaliseRows(sigmas, unnormalised);
    if !ok {
      assert exists j :: 0 <= j < m && Sum(Row(cols, j)) == 0.0 by {
        var j :| 0 <= j < m && Sum(unnormalised[j]) == 0.0;
        assert unnormalised[j] == Row(cols, j);
      }
      return Failure(ZeroRowSum);
    }
    var rows := seq(m, j reads sigmas requires 0 <= j < m =>
      seq(sigmas.Length1, i reads sigmas requires 0 <= i < sigmas.Length1 => sigmas[j, i]));
    forall j | 0 <= j < m
      ensures rows[j] == NormalisedRows(cols, m)[j]
    {
      assert unnormalised[j] == Row(cols, j);
    }
    assert rows == NormalisedRows(cols, m);
    return Success(rows);
  }

  /** Fill column i of sigmas with the entries of ranker i, stopping at the
      first failing one. */
  method FillColumn(sigmas: array2<real>, ghost lists: seq<seq<DocId>>, l: seq<DocId>, clicks: seq<nat>,
                    decay: (nat, nat) -> real, i: nat, ranks: seq<Option<nat>>, n: nat)
    returns (failure: Option<InferenceError>, ghost column: seq<real>)
    requires ClicksIn(clicks, l) && i < |lists| && n == |lists[0]|
    requires ranks == Ranks(lists[i], l)
    requires sigmas.Length0 == |clicks| && sigmas.Length1 == |lists|
    modifies sigmas
    ensures failure.Some? ==> Column(lists, l, clicks, decay, i) == Failure(failure.value)
    ensures failure.None? ==> Column(lists, l, clicks, decay, i) == Success(column) && |column| == |clicks|
    ensures failure.None? ==> forall j :: 0 <= j < |clicks| ==> sigmas[j, i] == column[j]
    ensures forall j, k :: 0 <= j < |clicks| && 0 <= k < |lists| && k != i ==> sigmas[j, k] == old(sigmas[j, k])
  {
    ghost var entries := ColumnEntries(lists, l, clicks, decay, i);
    column := [];
    for j := 0 to |clicks|
      invariant Scan(entries[..j]) == Success(column)
      invariant forall j' :: 0 <= j' < j ==> sigmas[j', i] == column[j']
      invariant forall j', k :: 0 <= j' < |clicks| && 0 <= k < |lists| && k != i ==> sigmas[j', k] == old(sigmas[j', k])
    {
      failure := FillEntry(sigmas, lists, l, clicks, decay, i, j, ranks, n);
      ScanStep(entries, j);
      if failure.Some? {
        ScanSticks(entries, j + 1);
        return;
      }
      column := column + [sigmas[j, i]];
    }
    assert entries[..|clicks|] == entries;
    return None, column;
  }

  /** sigmas[j, i] for one click, or the entry's failure. */
  method FillEntry(sigmas: array2<real>, ghost lists: seq<seq<DocId>>, l: seq<DocId>, clicks: seq<nat>,
                   decay: (nat, nat) -> real, i: nat, j: nat, ranks: seq<Option<nat>>, n: nat)
    returns (failure: Option<InferenceError>)
    requires ClicksIn(clicks, l) && i < |lists| && j < |clicks| && n == |lists[0]|
    requires ranks == Ranks(lists[i], l)
    requires sigmas.Length0 == |clicks| && sigmas.Length1 == |lists|
    modifies sigmas
    ensures failure.Some? ==> Entry(lists, l, clicks, decay, i, j) == Failure(failure.value)
    ensures failure.None? ==> Entry(lists, l, clicks, decay, i, j) == Success(sigmas[j, i])
    ensures forall j', k :: 0 <= j' < |clicks| && 0 <= k < |lists| && (j', k) != (j, i) ==> sigmas[j', k] == old(sigmas[j', k])
  {
    var entry := Sigma(ranks, clicks[j], n, decay);
    assert entry == Entry(lists, l, clicks, decay, i, j);
    if entry.Failure? {
      return Some(entry.error);
    }
    sigmas[j, i] := entry.value;
    return None;
  }

  /** Divide every row of sigmas, which holds `rows`, by its sum; false
      when some row sums to 0. */
  method NormaliseRows(sigmas: array2<real>, ghost rows: seq<seq<real>>) returns (ok: bool)
    requires |rows| == sigmas.Length0
    requires forall j :: 0 <= j < |rows| ==> |rows[j]| == sigmas.Length1
    requires forall j, i :: 0 <= j < sigmas.Length0 && 0 <= i < sigmas.Length1 ==> sigmas[j, i] == rows[j][i]
    modifies sigmas
    ensures ok <==> forall j :: 0 <= j < |rows| ==> Sum(rows[j]) != 0.0
    ensures ok ==> forall j, i :: 0 <= j < sigmas.Length0 && 0 <= i < sigmas.Length1 ==>
      sigmas[j, i] == Normalised(rows[j])[i]
  {
    for j := 0 to sigmas.Length0
      invariant forall j' :: 0 <= j' < j ==> Sum(rows[j']) != 0.0
      invariant forall j', i :: 0 <= j' < j && 0 <= i < sigmas.Length1 ==> sigmas[j', i] == Normalised(rows[j'])[i]
      invariant forall j', i :: j <= j' < sigmas.Length0 && 0 <= i < sigmas.Length1 ==> sigmas[j', i] == rows[j'][i]
    {
      var row := seq(sigmas.Length1, i reads sigmas requires 0 <= i < sigmas.Length1 => sigmas[j, i]);
      assert row == rows[j];
      var total := Sum(row);
      if total == 0.0 {
        return false;
      }
      DivideRow(sigmas, j, total);
    }
    return true;
  }

  /** sigmas[j, :] = sigmas[j, :] / total */
  method DivideRow(sigmas: array2<real>, j: nat, total: real)
    requires j < sigmas.Length0 && total != 0.0
    modifies sigmas
    ensures forall i :: 0 <= i < sigmas.Length1 ==> sigmas[j, i] == old(sigmas[j, i]) / total
    ensures forall j', i :: 0 <= j' < sigmas.Length0 && j' != j && 0 <= i < sigmas.Length1 ==>
      sigmas[j', i] == old(sigmas[j', i])
  {
    for i := 0 to sigmas.Length1
      invariant forall i' :: 0 <= i' < i ==> sigmas[j, i'] == old(sigmas[j, i']) / total
      invariant forall i' :: i <= i' < sigmas.Length1 ==> sigmas[j, i'] == old(sigmas[j, i'])
      invariant forall j', i' :: 0 <= j' < sigmas.Length0 && j' != j && 0 <= i' < sigmas.Length1 ==>
        sigmas[j', i'] == old(sigmas[j', i'])
    {
      sigmas[j, i] := sigmas[j, i] / total;
    }
  }

  /** One draw of multileave, with its effect on every ranker. */
  method Step(rankers: seq<Ranker>, orderings: seq<seq<DocId>>, sel: nat, l: seq<DocId>, target: int)
    returns (pick: DocId)
    requires |orderings| == |rankers| && Distinct(rankers) && sel < |rankers|
    requires forall i :: 0 <= i < |orderings| ==> Distinct(orderings[i])
    requires Distinct(l) && |l| < target <= |orderings[sel]|
    requires forall j :: 0 <= j < |rankers| ==>
      rankers[j].docids == orderings[j] && rankers[j].removed == Elems(l) * Elems(orderings[j])
    modifies set r | r in rankers
    ensures NextAfter(orderings[sel], l, pick)
    ensures Distinct(l + [pick])
    ensures forall j :: 0 <= j < |rankers| ==>
      rankers[j].docids == orderings[j] && rankers[j].removed == Elems(l + [pick]) * Elems(orderings[j])
  {
    pick := Draw(rankers[sel], orderings[sel], l, target);
    RemoveFromOthers(rankers, orderings, sel, l, pick);
  }

  /** The draw loop of multileave: for each entry of the schedule, the
      selected ranker's next document, removed from every other ranker. */
  method Interleave(rankers: seq<Ranker>, orderings: seq<seq<DocId>>, a: seq<nat>) returns (l: seq<DocId>)
    requires |orderings| == |rankers| && Distinct(rankers)
    requires forall i :: 0 <= i < |orderings| ==> Distinct(orderings[i])
    requires forall p :: 0 <= p < |a| ==> a[p] < |rankers|
    requires forall j :: 0 <= j < |rankers| ==> |a| <= |orderings[j]|
    requires forall j :: 0 <= j < |rankers| ==> rankers[j].docids == orderings[j] && rankers[j].removed == {}
    modifies set r | r in rankers
    ensures |l| == |a| && Distinct(l)
    ensures forall i :: 0 <= i < |a| ==> NextAfter(orderings[a[i]], l[..i], l[i])
    ensures forall j :: 0 <= j < |rankers| ==>
      rankers[j].docids == orderings[j] && rankers[j].removed == Elems(l) * Elems(orderings[j])
  {
    l := [];
    for p := 0 to |a|
      invariant |l| == p
      invariant Distinct(l)
      invariant forall i :: 0 <= i < p ==> a[i] < |orderings| && NextAfter(orderings[a[i]], l[..i], l[i])
      invariant forall j :: 0 <= j < |rankers| ==>
        rankers[j].docids == orderings[j] && rankers[j].removed == Elems(l) * Elems(orderings[j])
    {
      var pick := Step(rankers, orderings, a[p], l, |a|);
      ExtendPrefixes(orderings, a, l, pick);
      l := l + [pick];
    }
  }

  /** Appending a draw keeps the earlier draws' characterisation. */
  lemma ExtendPrefixes(orderings: seq<seq<DocId>>, a: seq<nat>, l: seq<DocId>, pick: DocId)
    requires |l| < |a|
    requires forall i :: 0 <= i < |l| ==> a[i] < |orderings| && NextAfter(orderings[a[i]], l[..i], l[i])
    requires a[|l|] < |orderings| && NextAfter(orderings[a[|l|]], l, pick)
    ensures forall i :: 0 <= i <= |l| ==>
      a[i] < |orderings| && NextAfter(orderings[a[i]], (l + [pick])[..i], (l + [pick])[i])
  {
    assert (l + [pick])[..|l|] == l;
    forall i | 0 <= i < |l|
      ensures (l + [pick])[..i] == l[..i]
    {
    }
  }

  /** init_ranking on every ranker. */
  method InitAll(rankers: seq<Ranker>, orderings: seq<seq<DocId>>)
    requires |orderings| == |rankers| && Distinct(rankers)
    requires forall i :: 0 <= i < |orderings| ==> Distinct(orderings[i])
    modifies set r | r in rankers
    ensures forall j :: 0 <= j < |rankers| ==> rankers[j].docids == orderings[j] && rankers[j].removed == {}
  {
    for i := 0 to |rankers|
      invariant forall j :: 0 <= j < i ==> rankers[j].docids == orderings[j] && rankers[j].removed == {}
    {
      rankers[i].InitRanking(orderings[i]);
    }
  }

  /** rm_document(pick) on every ranker except the selected one. */
  method RemoveFromOthers(rankers: seq<Ranker>, orderings: seq<seq<DocId>>, sel: nat, shown: seq<DocId>, pick: DocId)
    requires |orderings| == |rankers| && Distinct(rankers) && sel < |rankers|
    requires forall i :: 0 <= i < |orderings| ==> Distinct(orderings[i])
    requires rankers[sel].docids == orderings[sel]
    requires rankers[sel].removed == Elems(shown + [pick]) * Elems(orderings[sel])
    requires forall k :: 0 <= k < |rankers| && k != sel ==>
      rankers[k].docids == orderings[k] && rankers[k].removed == Elems(shown) * Elems(orderings[k])
    modifies set r | r in rankers
    ensures forall k :: 0 <= k < |rankers| ==>
      rankers[k].docids == orderings[k] && rankers[k].removed == Elems(shown + [pick]) * Elems(orderings[k])
  {
    var l := shown + [pick];
    assert Elems(l) == Elems(shown) + {pick};
    for j := 0 to |rankers|
      invariant forall k :: 0 <= k < |rankers| && (k < j || k == sel) ==>
        rankers[k].docids == orderings[k] && rankers[k].removed == Elems(l) * Elems(orderings[k])
      invariant forall k :: j <= k < |rankers| && k != sel ==>
        rankers[k].docids == orderings[k] && rankers[k].removed == Elems(shown) * Elems(orderings[k])
    {
      if j != sel {
        rankers[j].RmDocument(pick);
      }
    }
  }

  /** Every scheduled index is a ranker index. */
  lemma DrawScheduleMember(shuffles: seq<seq<nat>>, n: nat, p: nat)
    requires AllPermutations(shuffles, n)
    requires p < |DrawSchedule(shuffles)|
    ensures DrawSchedule(shuffles)[p] < n
  {
    var last := |shuffles| - 1;
    var s' := shuffles[..last];
    if p < |DrawSchedule(s')| {
      DrawScheduleMember(s', n, p);
    } else {
      var q := p - |DrawSchedule(s')|;
      ReversedAt(shuffles[last], q);
    }
  }

  /** One draw of multileave: next() on the selected ranker, which still has
      a document because fewer than `target` documents have been shown. */
  method Draw(r: Ranker, ordering: seq<DocId>, shown: seq<DocId>, target: int) returns (pick: DocId)
    requires Distinct(shown)
    requires r.docids == ordering && Distinct(ordering)
    requires r.removed == Elems(shown) * Elems(ordering)
    requires |shown| < target <= |ordering|
    modifies r
    ensures r.docids == ordering && r.removed == Elems(shown + [pick]) * Elems(ordering)
    ensures NextAfter(ordering, shown, pick)
    ensures Distinct(shown + [pick])
  {
    Available(ordering, shown);
    var d := r.Next();
    pick := d.value;
    Drawn(ordering, shown, pick);
  }

  /** Fewer documents shown than the ranking holds: next() still has one,
      the same as if every shown document had been removed. */
  lemma Available(ordering: seq<DocId>, shown: seq<DocId>)
    requires Distinct(shown) && Distinct(ordering) && |shown| < |ordering|
    ensures Unused(ordering, Elems(shown) * Elems(ordering)) != []
    ensures Unused(ordering, Elems(shown) * Elems(ordering)) == Unused(ordering, Elems(shown))
  {
    var seen := Elems(shown);
    var removed := seen * Elems(ordering);
    assert |removed| <= |seen| by {
      assert |seen - Elems(ordering)| + |removed| == |seen|;
    }
    ElemsCard(shown);
    UnusedCount(ordering, removed);
    UnusedRestrict(ordering, removed, seen);
  }

  /** A drawn document is new and is one of the ranking's documents. */
  lemma Drawn(ordering: seq<DocId>, shown: seq<DocId>, pick: DocId)
    requires Distinct(shown) && pick in ordering && pick !in Elems(shown) * Elems(ordering)
    ensures Distinct(shown + [pick])
    ensures Elems(shown + [pick]) * Elems(ordering) == Elems(shown) * Elems(ordering) + {pick}
  {
    assert Elems(shown + [pick]) == Elems(shown) + {pick};
    assert pick !in shown;
  }
}
