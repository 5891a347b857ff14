/** The win/loss ledger of lerot/evaluation/LivingLabsEval.py: each
    comparison outcome is a pair (credit of the current ranker, credit of
    the other); the performance is the share of wins among decided
    comparisons. */
module LivingLabs {
  import opened Wrappers

  /** One comparison: (score of the ranker under test, score of its opponent). */
  type Outcome = (real, real)

  predicate IsWin(o: Outcome) { o.0 > o.1 }
  predicate IsLoss(o: Outcome) { o.0 < o.1 }

  /** Number of won comparisons in a ledger. */
  function Wins(ledger: seq<Outcome>): (w: nat)
    ensures w <= |ledger|
    ensures w == 0 <==> forall i :: 0 <= i < |ledger| ==> !IsWin(ledger[i])
  {
    if |ledger| == 0 then 0
    else Wins(ledger[..|ledger| - 1]) + (if IsWin(ledger[|ledger| - 1]) then 1 else 0)
  }

  /** Number of lost comparisons in a ledger. */
  function Losses(ledger: seq<Outcome>): (l: nat)
    ensures l <= |ledger|
    ensures l == 0 <==> forall i :: 0 <= i < |ledger| ==> !IsLoss(ledger[i])
  {
    if |ledger| == 0 then 0
    else Losses(ledger[..|ledger| - 1]) + (if IsLoss(ledger[|ledger| - 1]) then 1 else 0)
  }

  /** Ties count neither as a win nor as a loss. */
  lemma {:induction false} WinsAndLosses(ledger: seq<Outcome>)
    ensures Wins(ledger) + Losses(ledger) + |Tied(ledger)| == |ledger|
  {
    if |ledger| > 0 {
      var front := ledger[..|ledger| - 1];
      WinsAndLosses(front);
      assert Tied(ledger) == Tied(front) + (if ledger[|ledger| - 1].0 == ledger[|ledger| - 1].1 then [ledger[|ledger| - 1]] else []);
    }
  }

  /** The tied comparisons of a ledger, in order. */
  function Tied(ledger: seq<Outcome>): (t: seq<Outcome>)
    ensures forall o :: o in t <==> o in ledger && o.0 == o.1
  {
    if |ledger| == 0 then []
    else Tied(ledger[..|ledger| - 1]) + (if ledger[|ledger| - 1].0 == ledger[|ledger| - 1].1 then [ledger[|ledger| - 1]] else [])
  }

  /** get_performance: wins / (wins + losses) once something was won;
      None (the implicit Python return) while nothing was won, even after losses. */
  function Performance(ledger: seq<Outcome>): (r: Option<real>)
    ensures r.None? <==> Wins(ledger) == 0
    ensures r.Some? ==> 0.0 < r.value <= 1.0
    ensures r.Some? ==> (r.value == 1.0 <==> Losses(ledger) == 0)
    ensures r.Some? ==> r.value * (Wins(ledger) as real + Losses(ledger) as real) == Wins(ledger) as real
  {
    var w, l := Wins(ledger), Losses(ledger);
    if w > 0 then Some(WinShare(w, l)) else None
  }

  /** The share of w wins among w + l decided comparisons. */
  function WinShare(w: nat, l: nat): (r: real)
    requires w > 0
    ensures 0.0 < r <= 1.0
    ensures r == 1.0 <==> l == 0
    ensures r * (w as real + l as real) == w as real
  {
    Share(w as real, l as real);
    w as real / (w as real + l as real)
  }

  /** The share w / (w + l) of w wins among w + l decided comparisons. */
  lemma Share(w: real, l: real)
    requires w > 0.0 && l >= 0.0
    ensures 0.0 < w / (w + l) <= 1.0
    ensures w / (w + l) == 1.0 <==> l == 0.0
    ensures w / (w + l) * (w + l) == w
  {
    var r := w / (w + l);
    assert r * (w + l) == w;
  }

  /** One more win does not lower the share; one more loss lowers it. */
  lemma ShareSteps(w: real, l: real)
    requires w > 0.0 && l >= 0.0
    ensures (w + 1.0) / (w + 1.0 + l) >= w / (w + l)
    ensures w / (w + l + 1.0) < w / (w + l)
  {
    var a, b, c := w / (w + l), (w + 1.0) / (w + 1.0 + l), w / (w + l + 1.0);
    assert a * (w + l) == w;
    assert b * (w + 1.0 + l) == w + 1.0;
    assert c * (w + l + 1.0) == w;
    Share(w, l);
  }

  /** Recording a tie leaves the performance as it was. */
  lemma TieKeepsPerformance(ledger: seq<Outcome>, o: Outcome)
    requires o.0 == o.1
    ensures Performance(ledger + [o]) == Performance(ledger)
  {
    assert (ledger + [o])[..|ledger|] == ledger;
  }

  /** Recording a win never lowers the performance, and makes it defined. */
  lemma WinRaisesPerformance(ledger: seq<Outcome>, o: Outcome)
    requires IsWin(o)
    ensures Performance(ledger + [o]).Some?
    ensures Performance(ledger).Some? ==> Performance(ledger + [o]).value >= Performance(ledger).value
  {
    var ledger' := ledger + [o];
    assert ledger'[..|ledger|] == ledger;
    assert Wins(ledger') == Wins(ledger) + 1;
    assert Losses(ledger') == Losses(ledger);
    if Performance(ledger).Some? {
      ShareSteps(Wins(ledger) as real, Losses(ledger) as real);
    }
  }

  /** Recording a loss never raises the performance, and cannot make it defined. */
  lemma LossLowersPerformance(ledger: seq<Outcome>, o: Outcome)
    requires IsLoss(o)
    ensures Performance(ledger + [o]).Some? <==> Performance(ledger).Some?
    ensures Performance(ledger).Some? ==> Performance(ledger + [o]).value < Performance(ledger).value
  {
    var ledger' := ledger + [o];
    assert ledger'[..|ledger|] == ledger;
    assert Wins(ledger') == Wins(ledger);
    assert Losses(ledger') == Losses(ledger) + 1;
    if Performance(ledger).Some? {
      ShareSteps(Wins(ledger) as real, Losses(ledger) as real);
    }
  }

  class LivingLabsEval {
    /** __wins_list__: every outcome recorded so far, oldest first. */
    var winsList: seq<Outcome>

    constructor ()
      ensures winsList == []
    {
      winsList := [];
    }

    /** update_score: append one outcome at the end. */
    method UpdateScore(wins: Outcome)
      modifies this
      ensures winsList == old(winsList) + [wins]
    {
      winsList := winsList + [wins];
    }

    /** get_win: the most recent outcome; the Python list index fails on
        an empty ledger, which is None here. */
    method GetWin() returns (r: Option<Outcome>)
      ensures r.None? <==> |winsList| == 0
      ensures r.Some? ==> r.value == winsList[|winsList| - 1] && r.value in winsList
    {
      if |winsList| == 0 {
        r := None;
      } else {
        r := Some(winsList[|winsList| - 1]);
      }
    }

    /** get_performance: count wins and losses in one pass. */
    method GetPerformance() returns (r: Option<real>)
      ensures r == Performance(winsList)
    {
      var totalWins, totalLosses := 0, 0;
      for i := 0 to |winsList|
        invariant totalWins == Wins(winsList[..i])
        invariant totalLosses == Losses(winsList[..i])
      {
        assert winsList[..i + 1][..i] == winsList[..i];
        if winsList[i].0 > winsList[i].1 {
          totalWins := totalWins + 1;
        }
        if winsList[i].0 < winsList[i].1 {
          totalLosses := totalLosses + 1;
        }
      }
      assert winsList[..|winsList|] == winsList;
      if totalWins > 0 {
        r := Some(WinShare(totalWins, totalLosses));
      } else {
        r := None;
      }
    }
  }
}
