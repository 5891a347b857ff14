/** The ranker capability the comparison and perturbation code drive:
    init_ranking, next, rm_document and document_count of
    src/python/ranker/AbstractRankingFunction.py. A ranker holds its
    ranking of the current query (`docids`) and the documents it may no
    longer return (`removed`: those it emitted and those removed by others). */
module Rankers {
  import opened Wrappers
  import opened Seqs

  type DocId = nat

  /** The documents of `docids` not in `removed`, in ranking order. */
  function Unused(docids: seq<DocId>, removed: set<DocId>): (r: seq<DocId>)
    ensures |r| <= |docids|
    ensures forall d :: d in r <==> d in docids && d !in removed
  {
    if |docids| == 0 then []
    else if docids[0] in removed then Unused(docids[1..], removed)
    else [docids[0]] + Unused(docids[1..], removed)
  }

  /** Only the removed documents that occur in the ranking matter. */
  lemma {:induction false} UnusedRestrict(docids: seq<DocId>, r1: set<DocId>, r2: set<DocId>)
    requires forall d :: d in docids ==> (d in r1 <==> d in r2)
    ensures Unused(docids, r1) == Unused(docids, r2)
  {
    if |docids| > 0 {
      UnusedRestrict(docids[1..], r1, r2);
    }
  }

  /** Nothing removed: the whole ranking is available. */
  lemma {:induction false} UnusedNone(docids: seq<DocId>)
    ensures Unused(docids, {}) == docids
  {
    if |docids| > 0 {
      UnusedNone(docids[1..]);
    }
  }

  /** Removing the first available document advances the ranking by one. */
  lemma {:induction false} UnusedAdvance(docids: seq<DocId>, removed: set<DocId>)
    requires Distinct(docids)
    requires Unused(docids, removed) != []
    ensures Unused(docids, removed + {Unused(docids, removed)[0]}) == Unused(docids, removed)[1..]
  {
    var first := Unused(docids, removed)[0];
    if docids[0] in removed {
      UnusedAdvance(docids[1..], removed);
      UnusedRestrict(docids[1..], removed + {first}, removed + {Unused(docids[1..], removed)[0]});
    } else {
      assert first == docids[0];
      assert first !in docids[1..];
      UnusedRestrict(docids[1..], removed + {first}, removed);
    }
  }

  /** In a ranking without repetitions, the available documents are those
      not removed: |Unused| == |docids| - |removed| when removed lies in it. */
  lemma {:induction false} UnusedCount(docids: seq<DocId>, removed: set<DocId>)
    requires Distinct(docids)
    requires removed <= Elems(docids)
    ensures |Unused(docids, removed)| == |docids| - |removed|
  {
    if |docids| > 0 {
      var d, rest := docids[0], docids[1..];
      assert Elems(docids) == {d} + Elems(rest);
      assert d !in rest;
      var removed' := removed - {d};
      assert removed' <= Elems(rest);
      UnusedCount(rest, removed');
      UnusedRestrict(rest, removed, removed');
      if d in removed {
        assert |removed| == |removed'| + 1;
      } else {
        assert removed' == removed;
      }
    } else {
      assert removed == {};
    }
  }

  class Ranker {
    var docids: seq<DocId>
    var removed: set<DocId>

    /** A ranking lists each document once, and only its own documents are removed. */
    ghost predicate Valid()
      reads this
    {
      Distinct(docids) && removed <= Elems(docids)
    }

    /** What `next` still returns, in order. */
    ghost function Remaining(): seq<DocId>
      reads this
    {
      Unused(docids, removed)
    }

    constructor ()
      ensures Valid() && docids == [] && removed == {}
    {
      docids, removed := [], {};
    }

    /** init_ranking(query): install the ranking this ranker gives the query. */
    method InitRanking(ordering: seq<DocId>)
      requires Distinct(ordering)
      modifies this
      ensures Valid() && docids == ordering && removed == {}
      ensures Remaining() == ordering
    {
      docids, removed := ordering, {};
      UnusedNone(ordering);
    }

    /** next(): the first document neither removed nor already emitted;
        None once the ranking is exhausted. */
    method Next() returns (d: Option<DocId>)
      requires Valid()
      modifies this
      ensures Valid() && docids == old(docids)
      ensures d.None? <==> old(Remaining()) == []
      ensures d.None? ==> removed == old(removed)
      ensures d.Some? ==> d.value == old(Remaining())[0] && d.value in docids && d.value !in old(removed)
      ensures d.Some? ==> removed == old(removed) + {d.value}
      ensures Remaining() == if d.None? then old(Remaining()) else old(Remaining())[1..]
    {
      var available := Unused(docids, removed);
      if available == [] {
        d := None;
      } else {
        d := Some(available[0]);
        UnusedAdvance(docids, removed);
        removed := removed + {available[0]};
      }
    }

    /** rm_document(docid): a document this ranker does not rank is ignored. */
    method RmDocument(d: DocId)
      requires Valid()
      modifies this
      ensures Valid() && docids == old(docids)
      ensures removed == if d in docids then old(removed) + {d} else old(removed)
      ensures d !in Remaining()
      ensures forall x :: x in old(Remaining()) && x != d ==> x in Remaining()
    {
      if d in docids {
        removed := removed + {d};
      }
    }

    /** document_count(): the number of documents ranked for the query. */
    function DocumentCount(): nat
      reads this
    {
      |docids|
    }
  }

  /** The rankings currently held by a sequence of rankers. */
  function Lists(rankers: seq<Ranker>): (lists: seq<seq<DocId>>)
    reads rankers
    ensures |lists| == |rankers|
    ensures forall i :: 0 <= i < |rankers| ==> lists[i] == rankers[i].docids
  {
    seq(|rankers|, i reads rankers requires 0 <= i < |rankers| => rankers[i].docids)
  }
}
