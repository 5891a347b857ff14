/** The vertical-aware metrics of lerot/evaluation: precision at k per
    vertical (PAKEval), the per-vertical precision that ignores Web results
    (ISEval), and vertical selection precision and recall (VSEval, VDEval). */
module Verticals {
  import opened Wrappers
  import opened Seqs

  /** A document of a ranking: its id, which indexes the query's labels,
      and its vertical type. */
  datatype Document = Document(id: nat, vertical: string)

  const Web: string := "Web"

  /** The counters kept per vertical. */
  datatype Stats = Stats(total: nat, rel: nat)

  /** ranking[:c] with Python's slice semantics: the first c documents,
      all of them when c is past the end, and for a negative c all but the
      last -c (nothing when -c covers the whole ranking). */
  function Head(ranking: seq<Document>, c: int): (r: seq<Document>)
    ensures |r| <= |ranking| && r == ranking[..|r|]
    ensures c >= 0 ==> (|r| == c || r == ranking) && |r| <= c
    ensures c < 0 ==> |r| == if |ranking| + c > 0 then |ranking| + c else 0
  {
    if c >= |ranking| then ranking
    else if c >= 0 then ranking[..c]
    else if |ranking| + c > 0 then ranking[..|ranking| + c]
    else []
  }

  /** The documents whose labels the metrics read have one. */
  predicate Labelled(docs: seq<Document>, labels: seq<int>)
  {
    forall i :: 0 <= i < |docs| ==> docs[i].id < |labels|
  }

  /** The documents that are not Web results, in order. */
  function NonWeb(docs: seq<Document>): (r: seq<Document>)
    ensures |r| <= |docs|
    ensures forall i :: 0 <= i < |r| ==> r[i].vertical != Web && r[i] in docs
  {
    if |docs| == 0 then []
    else
      var front := NonWeb(docs[..|docs| - 1]);
      assert forall i :: 0 <= i < |front| ==> front[i] in docs[..|docs| - 1];
      if docs[|docs| - 1].vertical == Web then front else front + [docs[|docs| - 1]]
  }

  /** Every document the counting loop counts has a label. */
  predicate CountedLabelled(docs: seq<Document>, labels: seq<int>, skipWeb: bool)
  {
    forall i :: 0 <= i < |docs| && !(skipWeb && docs[i].vertical == Web) ==> docs[i].id < |labels|
  }

  /** The documents the counting loop looks at. */
  function Kept(docs: seq<Document>, skipWeb: bool): seq<Document>
  {
    if skipWeb then NonWeb(docs) else docs
  }

  /** The number of documents of vertical v. */
  function Total(docs: seq<Document>, v: string): nat
  {
    if |docs| == 0 then 0
    else Total(docs[..|docs| - 1], v) + (if docs[|docs| - 1].vertical == v then 1 else 0)
  }

  /** The number of documents of vertical v with a positive label. */
  function Relevant(docs: seq<Document>, labels: seq<int>, v: string): (r: nat)
    requires Labelled(docs, labels)
    ensures r <= Total(docs, v)
  {
    if |docs| == 0 then 0
    else
      var d := docs[|docs| - 1];
      Relevant(docs[..|docs| - 1], labels, v) + (if d.vertical == v && labels[d.id] > 0 then 1 else 0)
  }

  /** The verticals present, each once, in order of first appearance. */
  function VerticalsOf(docs: seq<Document>): (vs: seq<string>)
    ensures Distinct(vs)
    ensures forall v :: v in vs <==> Total(docs, v) > 0
  {
    if |docs| == 0 then []
    else
      var vs' := VerticalsOf(docs[..|docs| - 1]);
      var v := docs[|docs| - 1].vertical;
      if v in vs' then vs' else vs' + [v]
  }

  /** The precision of each vertical present: its relevant documents over
      its documents. */
  function Precisions(docs: seq<Document>, labels: seq<int>): (ps: seq<real>)
    requires Labelled(docs, labels)
    ensures |ps| == |VerticalsOf(docs)|
    ensures forall k :: 0 <= k < |ps| ==> 0.0 <= ps[k] <= 1.0
    ensures forall k :: 0 <= k < |ps| ==>
      (ps[k] == 1.0 <==> Relevant(docs, labels, VerticalsOf(docs)[k]) == Total(docs, VerticalsOf(docs)[k]))
    ensures forall k :: 0 <= k < |ps| ==> (ps[k] == 0.0 <==> Relevant(docs, labels, VerticalsOf(docs)[k]) == 0)
  {
    var vs := VerticalsOf(docs);
    assert forall k :: 0 <= k < |vs| ==> Total(docs, vs[k]) > 0 by {
      forall k | 0 <= k < |vs| ensures Total(docs, vs[k]) > 0 {
        assert vs[k] in vs;
      }
    }
    var ps := seq(|vs|, k requires 0 <= k < |vs| => Relevant(docs, labels, vs[k]) as real / Total(docs, vs[k]) as real);
    forall k | 0 <= k < |vs|
      ensures 0.0 <= ps[k] <= 1.0
      ensures ps[k] == 1.0 <==> Relevant(docs, labels, vs[k]) == Total(docs, vs[k])
      ensures ps[k] == 0.0 <==> Relevant(docs, labels, vs[k]) == 0
    {
      Ratio(Relevant(docs, labels, vs[k]) as real, Total(docs, vs[k]) as real);
    }
    ps
  }

  /** A share of a positive whole lies in [0, 1]. */
  lemma Ratio(part: real, whole: real)
    requires 0.0 <= part <= whole && whole > 0.0
    ensures 0.0 <= part / whole <= 1.0
    ensures part / whole == 1.0 <==> part == whole
    ensures part / whole == 0.0 <==> part == 0.0
  {
  }

  /** The mean of some numbers, 0 for none. */
  function Average(ps: seq<real>): (r: real)
  {
    if |ps| == 0 then 0.0 else Sum(ps) / |ps| as real
  }

  /** The mean of numbers in [0, 1] is in [0, 1]. */
  lemma AverageWithin(ps: seq<real>)
    requires forall k :: 0 <= k < |ps| ==> 0.0 <= ps[k] <= 1.0
    ensures 0.0 <= Average(ps) <= 1.0
  {
    if |ps| > 0 {
      SumWithin(ps, 0.0, 1.0);
      Ratio(Sum(ps), |ps| as real);
    }
  }

  /** The mean of copies of x is x. */
  lemma AverageConstant(ps: seq<real>, x: real)
    requires |ps| > 0
    requires forall k :: 0 <= k < |ps| ==> ps[k] == x
    ensures Average(ps) == x
  {
    SumConstant(ps, x);
  }

  /** The mean over the verticals present of their precision; 0 when
      there are none. */
  function MeanPrecision(docs: seq<Document>, labels: seq<int>): (r: real)
    requires Labelled(docs, labels)
    ensures 0.0 <= r <= 1.0
    ensures |docs| == 0 ==> r == 0.0
  {
    var ps := Precisions(docs, labels);
    AverageWithin(ps);
    Average(ps)
  }

  /** Every document relevant: each vertical, and so the mean, scores 1. */
  lemma MeanPrecisionAllRelevant(docs: seq<Document>, labels: seq<int>)
    requires Labelled(docs, labels) && |docs| > 0
    requires forall i :: 0 <= i < |docs| ==> labels[docs[i].id] > 0
    ensures MeanPrecision(docs, labels) == 1.0
  {
    var vs := VerticalsOf(docs);
    var ps := Precisions(docs, labels);
    assert docs[0].vertical in vs by {
      TotalPositive(docs, 0);
    }
    forall k | 0 <= k < |ps| ensures ps[k] == 1.0 {
      AllRelevantCounts(docs, labels, vs[k]);
    }
    AverageConstant(ps, 1.0);
  }

  /** No document relevant: the mean scores 0. */
  lemma MeanPrecisionNoneRelevant(docs: seq<Document>, labels: seq<int>)
    requires Labelled(docs, labels)
    requires forall i :: 0 <= i < |docs| ==> labels[docs[i].id] <= 0
    ensures MeanPrecision(docs, labels) == 0.0
  {
    var vs := VerticalsOf(docs);
    var ps := Precisions(docs, labels);
    forall k | 0 <= k < |ps| ensures ps[k] == 0.0 {
      NoneRelevantCounts(docs, labels, vs[k]);
    }
    if |ps| > 0 {
      AverageConstant(ps, 0.0);
    }
  }

  lemma {:induction false} AllRelevantCounts(docs: seq<Document>, labels: seq<int>, v: string)
    requires Labelled(docs, labels)
    requires forall i :: 0 <= i < |docs| ==> labels[docs[i].id] > 0
    ensures Relevant(docs, labels, v) == Total(docs, v)
  {
    if |docs| > 0 {
      AllRelevantCounts(docs[..|docs| - 1], labels, v);
    }
  }

  lemma {:induction false} NoneRelevantCounts(docs: seq<Document>, labels: seq<int>, v: string)
    requires Labelled(docs, labels)
    requires forall i :: 0 <= i < |docs| ==> labels[docs[i].id] <= 0
    ensures Relevant(docs, labels, v) == 0
  {
    if |docs| > 0 {
      NoneRelevantCounts(docs[..|docs| - 1], labels, v);
    }
  }

  lemma {:induction false} TotalPositive(docs: seq<Document>, i: nat)
    requires i < |docs|
    ensures Total(docs, docs[i].vertical) > 0
  {
    if i < |docs| - 1 {
      TotalPositive(docs[..|docs| - 1], i);
    }
  }

  /** The dictionary `stats` with keys `verts` holds the counters of the
      documents `kept`. */
  ghost predicate Counted(kept: seq<Document>, labels: seq<int>, verts: seq<string>, stats: map<string, Stats>)
  {
    && Labelled(kept, labels)
    && verts == VerticalsOf(kept)
    && (forall v :: v in stats <==> v in verts)
    && forall v :: v in stats ==> stats[v] == Stats(Total(kept, v), Relevant(kept, labels, v))
  }

  /** The counting loop of PAKEval and ISEval: per vertical, the number of
      documents and of relevant ones; with `skipWeb`, Web results are
      passed over. `verts` lists the dictionary's keys. */
  method CountByVertical(docs: seq<Document>, labels: seq<int>, skipWeb: bool)
    returns (verts: seq<string>, stats: map<string, Stats>)
    requires CountedLabelled(docs, labels, skipWeb)
    ensures Counted(Kept(docs, skipWeb), labels, verts, stats)
  {
    verts, stats := [], map[];
    for i := 0 to |docs|
      invariant Counted(Kept(docs[..i], skipWeb), labels, verts, stats)
    {
      verts, stats := CountStep(docs, labels, skipWeb, i, verts, stats);
    }
    assert docs[..|docs|] == docs;
  }

  /** One turn of the counting loop: a Web result passed over, or a
      document counted. */
  method CountStep(docs: seq<Document>, labels: seq<int>, skipWeb: bool, i: nat,
                   verts: seq<string>, stats: map<string, Stats>)
    returns (verts': seq<string>, stats': map<string, Stats>)
    requires i < |docs| && CountedLabelled(docs, labels, skipWeb)
    requires Counted(Kept(docs[..i], skipWeb), labels, verts, stats)
    ensures Counted(Kept(docs[..i + 1], skipWeb), labels, verts', stats')
  {
    ghost var kept := Kept(docs[..i], skipWeb);
    KeptStep(docs, skipWeb, i);
    if skipWeb && docs[i].vertical == Web {
      assert Kept(docs[..i + 1], skipWeb) == kept;
      return verts, stats;
    }
    assert Labelled(kept + [docs[i]], labels) by {
      assert forall j :: 0 <= j < |kept| ==> (kept + [docs[i]])[j] == kept[j];
    }
    verts', stats' := CountOne(kept, labels, docs[i], verts, stats);
  }

  /** The body of the counting loop for a document that is counted: its
      vertical's entry is created when missing, then its counters raised. */
  method CountOne(ghost kept: seq<Document>, labels: seq<int>, d: Document, verts: seq<string>, stats: map<string, Stats>)
    returns (verts': seq<string>, stats': map<string, Stats>)
    requires Labelled(kept + [d], labels)
    requires Counted(kept, labels, verts, stats)
    ensures Counted(kept + [d], labels, verts', stats')
  {
    ghost var all := kept + [d];
    assert all[..|all| - 1] == kept;
    assert all[|kept|] == d;
    verts', stats' := verts, stats;
    var v := d.vertical;
    if v !in stats' {
      verts' := verts' + [v];
      stats' := stats'[v := Stats(0, 0)];
    }
    var st := stats'[v];
    st := st.(total := st.total + 1);
    if labels[d.id] > 0 {
      st := st.(rel := st.rel + 1);
    }
    stats' := stats'[v := st];
  }

  /** One more document of the loop: it is kept, or passed over. */
  lemma KeptStep(docs: seq<Document>, skipWeb: bool, i: nat)
    requires i < |docs|
    ensures Kept(docs[..i + 1], skipWeb) ==
      Kept(docs[..i], skipWeb) + (if skipWeb && docs[i].vertical == Web then [] else [docs[i]])
  {
    assert docs[..i + 1][..i] == docs[..i];
  }

  /** The final average of the counters: rel / total per vertical. */
  method AveragePrecision(verts: seq<string>, stats: map<string, Stats>) returns (r: real)
    requires forall v :: v in verts ==> v in stats && stats[v].total > 0
    ensures |verts| == 0 ==> r == 0.0
    ensures |verts| > 0 ==> r == Sum(seq(|verts|, k requires 0 <= k < |verts| =>
      stats[verts[k]].rel as real / stats[verts[k]].total as real)) / |verts| as real
  {
    var precisions := seq(|verts|, k requires 0 <= k < |verts| =>
      stats[verts[k]].rel as real / stats[verts[k]].total as real);
    if |precisions| == 0 {
      return 0.0;
    }
    return Sum(precisions) / |precisions| as real;
  }

  /** PAKEval.evaluate_ranking(ranking, query, cutoff): the mean per-vertical
      precision of ranking[:cutoff], where -1 or a cutoff past the end keeps
      the whole ranking. */
  method PrecisionAtK(ranking: seq<Document>, labels: seq<int>, cutoff: int) returns (r: real)
    requires CountedLabelled(Head(ranking, PakCutoff(cutoff, |ranking|)), labels, false)
    ensures r == MeanPrecision(Head(ranking, PakCutoff(cutoff, |ranking|)), labels)
  {
    var c := cutoff;
    if c == -1 || c > |ranking| {
      c := |ranking|;
    }
    var docs := Head(ranking, c);
    var verts, stats := CountByVertical(docs, labels, false);
    r := Summarise(docs, labels, verts, stats);
  }

  /** The cutoff PAKEval counts to. */
  function PakCutoff(cutoff: int, n: nat): (c: int)
    ensures c <= n
    ensures c == n <==> cutoff == -1 || cutoff >= n
    ensures c != n ==> c == cutoff
  {
    if cutoff == -1 || cutoff > n then n else cutoff
  }

  /** ISEval.get_value(ranking, labels, orientations, cutoff): the mean
      per-vertical precision of the non-Web documents of ranking[:cutoff],
      where -1 stands for the number of labels. */
  method VerticalPrecision(ranking: seq<Document>, labels: seq<int>, cutoff: int) returns (r: real)
    requires CountedLabelled(Head(ranking, IsCutoff(cutoff, labels)), labels, true)
    ensures r == MeanPrecision(NonWeb(Head(ranking, IsCutoff(cutoff, labels))), labels)
  {
    var c := cutoff;
    if c == -1 {
      c := |labels|;
    }
    var docs := Head(ranking, c);
    var verts, stats := CountByVertical(docs, labels, true);
    r := Summarise(NonWeb(docs), labels, verts, stats);
  }

  /** The cutoff ISEval slices at: -1 stands for the number of labels. */
  function IsCutoff(cutoff: int, labels: seq<int>): int
  {
    if cutoff == -1 then |labels| else cutoff
  }

  /** The average of the counters is the mean precision of the counted documents. */
  method Summarise(kept: seq<Document>, labels: seq<int>, verts: seq<string>, stats: map<string, Stats>)
    returns (r: real)
    requires Counted(kept, labels, verts, stats)
    ensures r == MeanPrecision(kept, labels)
  {
    forall v | v in verts ensures v in stats && stats[v].total > 0 {
    }
    r := AveragePrecision(verts, stats);
    var ps := seq(|verts|, k requires 0 <= k < |verts| =>
      stats[verts[k]].rel as real / stats[verts[k]].total as real);
    assert ps == Precisions(kept, labels);
  }

  /** The distinct non-Web verticals of some documents. */
  function Retrieved(docs: seq<Document>): (vs: set<string>)
    ensures forall v :: v in vs ==> v != Web
  {
    set i | 0 <= i < |docs| && docs[i].vertical != Web :: docs[i].vertical
  }

  /** The verticals among vs whose orientation exceeds 0.5. */
  function Oriented(vs: set<string>, orientations: map<string, real>): (r: set<string>)
    requires vs <= orientations.Keys
    ensures r <= vs
  {
    set v | v in vs && orientations[v] > 0.5
  }

  /** The cutoff VSEval and VDEval slice at: -1 stands for the whole ranking. */
  function RankingCutoff(cutoff: int, ranking: seq<Document>): int
  {
    if cutoff == -1 then |ranking| else cutoff
  }

  /** VSEval.get_value(ranking, labels, orientations, cutoff): the share of
      the verticals retrieved in ranking[:cutoff] that are
      oriented; 0 when none is retrieved, None where a retrieved vertical
      has no orientation (KeyError). */
  function SelectionPrecision(ranking: seq<Document>, orientations: map<string, real>, cutoff: int)
    : (r: Option<real>)
    ensures var retrieved := Retrieved(Head(ranking, RankingCutoff(cutoff, ranking)));
      && (r.None? <==> retrieved != {} && !(retrieved <= orientations.Keys))
      && (retrieved == {} ==> r == Some(0.0))
      && (r.Some? ==> 0.0 <= r.value <= 1.0)
  {
    var retrieved := Retrieved(Head(ranking, RankingCutoff(cutoff, ranking)));
    if |retrieved| == 0 then Some(0.0)
    else if !(retrieved <= orientations.Keys) then None
    else
      var relevant := Oriented(retrieved, orientations);
      SubsetCard(relevant, retrieved);
      Ratio(|relevant| as real, |retrieved| as real);
      Some(|relevant| as real / |retrieved| as real)
  }

  /** VS is 1 exactly when every retrieved vertical is oriented. */
  lemma SelectionPrecisionOne(ranking: seq<Document>, orientations: map<string, real>, cutoff: int)
    requires var retrieved := Retrieved(Head(ranking, RankingCutoff(cutoff, ranking)));
      retrieved != {} && retrieved <= orientations.Keys
    ensures var retrieved := Retrieved(Head(ranking, RankingCutoff(cutoff, ranking)));
      SelectionPrecision(ranking, orientations, cutoff) == Some(1.0) <==>
      forall v :: v in retrieved ==> orientations[v] > 0.5
  {
    var retrieved := Retrieved(Head(ranking, RankingCutoff(cutoff, ranking)));
    var relevant := Oriented(retrieved, orientations);
    SubsetCard(relevant, retrieved);
    Ratio(|relevant| as real, |retrieved| as real);
    assert SelectionPrecision(ranking, orientations, cutoff) == Some(|relevant| as real / |retrieved| as real);
    if forall v :: v in retrieved ==> orientations[v] > 0.5 {
      assert retrieved <= relevant;
      assert relevant == retrieved;
    }
    if |relevant| == |retrieved| {
      assert relevant == retrieved;
      assert forall v :: v in retrieved ==> v in relevant;
    }
  }

  /** VDEval.get_value(ranking, labels, orientations, cutoff): the share of
      the oriented verticals that are retrieved in
      ranking[:cutoff]; 0 when no vertical is oriented, None where a retrieved
      vertical has no orientation (KeyError). */
  function SelectionRecall(ranking: seq<Document>, orientations: map<string, real>, cutoff: int)
    : (r: Option<real>)
    ensures var retrieved := Retrieved(Head(ranking, RankingCutoff(cutoff, ranking)));
      && (r.None? <==> Oriented(orientations.Keys, orientations) != {} && !(retrieved <= orientations.Keys))
      && (Oriented(orientations.Keys, orientations) == {} ==> r == Some(0.0))
      && (r.Some? ==> 0.0 <= r.value <= 1.0)
  {
    var relevantVerts := Oriented(orientations.Keys, orientations);
    if |relevantVerts| == 0 then Some(0.0)
    else
      var retrieved := Retrieved(Head(ranking, RankingCutoff(cutoff, ranking)));
      if !(retrieved <= orientations.Keys) then None
      else
        var found := Oriented(retrieved, orientations);
        assert found <= relevantVerts;
        SubsetCard(found, relevantVerts);
        Ratio(|found| as real, |relevantVerts| as real);
        Some(|found| as real / |relevantVerts| as real)
  }

  /** VD is 1 exactly when every oriented vertical is retrieved. */
  lemma SelectionRecallOne(ranking: seq<Document>, orientations: map<string, real>, cutoff: int)
    requires Oriented(orientations.Keys, orientations) != {}
    requires Retrieved(Head(ranking, RankingCutoff(cutoff, ranking))) <= orientations.Keys
    ensures SelectionRecall(ranking, orientations, cutoff) == Some(1.0) <==>
      Oriented(orientations.Keys, orientations) <= Retrieved(Head(ranking, RankingCutoff(cutoff, ranking)))
  {
    var retrieved := Retrieved(Head(ranking, RankingCutoff(cutoff, ranking)));
    var relevantVerts := Oriented(orientations.Keys, orientations);
    var found := Oriented(retrieved, orientations);
    assert found <= relevantVerts;
    SubsetCard(found, relevantVerts);
    Ratio(|found| as real, |relevantVerts| as real);
    assert SelectionRecall(ranking, orientations, cutoff) == Some(|found| as real / |relevantVerts| as real);
    if relevantVerts <= retrieved {
      assert relevantVerts <= found;
      assert found == relevantVerts;
    }
    if |found| == |relevantVerts| {
      assert found == relevantVerts;
    }
  }

  /** A subset is no larger, and equally large only when equal. */
  lemma SubsetCard<T>(a: set<T>, b: set<T>)
    requires a <= b
    ensures |a| <= |b|
    ensures |a| == |b| ==> a == b
  {
    if b != {} {
      var x :| x in b;
      SubsetCard(a - {x}, b - {x});
    }
  }
}
