/** The dueling-bandit bookkeeping of lerot/sampler/BaselineSampler.py:
    a table of how often each ordered pair of arms was played, a wins matrix
    and a step counter. The nested plays dictionary is keyed here by the
    pair (arm1, arm2); its iteration order, ascending arm1 and then
    ascending arm2, is the order of small integer keys in a dictionary. */
module Sampler {
  import opened Wrappers

  /** The pairs the plays table holds: every ordered pair of distinct arms,
      or, when the champion is an arm, only the pairs whose second arm is
      the champion. */
  function PlayPairs(n: nat, champ: int): set<(nat, nat)>
  {
    set a1: nat, a2: nat | a1 < n && a2 < n && a1 != a2 && (0 <= champ < n ==> a2 == champ) :: (a1, a2)
  }

  /** No arm is paired with itself, both arms are arms, and the champion,
      when it is one, is always the second arm. */
  lemma PlayPairsShape(n: nat, champ: int, p: (nat, nat))
    requires p in PlayPairs(n, champ)
    ensures p.0 != p.1 && p.0 < n && p.1 < n
    ensures 0 <= champ < n ==> p.1 == champ
  {
  }

  lemma PlayPairsBounded(n: nat, champ: int)
    ensures forall q :: q in PlayPairs(n, champ) ==> q.0 < n && q.1 < n && q.0 != q.1
  {
  }

  /** The table has a pair to offer exactly when there are two arms. */
  lemma PlayPairsNonEmpty(n: nat, champ: int)
    ensures PlayPairs(n, champ) != {} <==> n >= 2
  {
    if n >= 2 {
      if 0 <= champ < n {
        var other: nat := if champ == 0 then 1 else 0;
        assert (other, champ as nat) in PlayPairs(n, champ);
      } else {
        assert (0, 1) in PlayPairs(n, champ);
      }
    } else if PlayPairs(n, champ) != {} {
      var p :| p in PlayPairs(n, champ);
      PlayPairsShape(n, champ, p);
    }
  }

  /** p comes before q when the table is scanned. */
  predicate Before(p: (nat, nat), q: (nat, nat))
  {
    p.0 < q.0 || (p.0 == q.0 && p.1 < q.1)
  }

  /** The pair get_arms picks: its play count is minimal, and since the scan
      replaces the candidate on `<=`, every other pair with that count is
      scanned before it. */
  ghost predicate LeastPlayed(plays: map<(nat, nat), nat>, p: (nat, nat))
  {
    && p in plays
    && forall q :: q in plays ==> plays[p] <= plays[q] && (plays[q] == plays[p] ==> q == p || Before(q, p))
  }

  /** At most one pair is the least played one: get_arms is deterministic. */
  lemma LeastPlayedUnique(plays: map<(nat, nat), nat>, p: (nat, nat), q: (nat, nat))
    requires LeastPlayed(plays, p) && LeastPlayed(plays, q)
    ensures p == q
  {
    assert plays[p] == plays[q];
  }

  /** dict(zip(arms, range(n))): an arm listed twice keeps its last index. */
  function IndexMap<Arm>(arms: seq<Arm>): (m: map<Arm, nat>)
    ensures forall a :: a in arms ==> a in m
    ensures forall a :: a in m ==> m[a] < |arms| && arms[m[a]] == a
    ensures forall a, j :: a in m && m[a] < j < |arms| ==> arms[j] != a
  {
    if |arms| == 0 then map[]
    else
      var front := arms[..|arms| - 1];
      assert forall j :: 0 <= j < |front| ==> front[j] == arms[j];
      IndexMap(front)[arms[|arms| - 1] := |arms| - 1]
  }

  /** Sum of row i of m over its first k columns. */
  function RowSum(m: array2<real>, i: nat, k: nat): real
    requires i < m.Length0 && k <= m.Length1
    reads m
  {
    if k == 0 then 0.0 else RowSum(m, i, k - 1) + m[i, k - 1]
  }

  /** The largest of a nonempty sequence of reals. */
  function Largest(s: seq<real>): (top: real)
    requires |s| > 0
    ensures forall i :: 0 <= i < |s| ==> s[i] <= top
    ensures exists i :: 0 <= i < |s| && s[i] == top
  {
    if |s| == 1 then s[0]
    else
      var t := Largest(s[..|s| - 1]);
      assert forall i :: 0 <= i < |s| - 1 ==> s[..|s| - 1][i] == s[i];
      if s[|s| - 1] > t then s[|s| - 1] else t
  }

  /** The indices whose entry equals `top`, ascending: numpy's nonzero(s == top). */
  function IndicesOf(s: seq<real>, top: real): (r: seq<nat>)
    ensures forall i :: i in r <==> 0 <= i < |s| && s[i] == top
    ensures forall p, q :: 0 <= p < q < |r| ==> r[p] < r[q]
  {
    if |s| == 0 then []
    else
      var front := s[..|s| - 1];
      var r' := IndicesOf(front, top);
      assert forall i :: 0 <= i < |front| ==> front[i] == s[i];
      assert forall p :: 0 <= p < |r'| ==> r'[p] in r';
      if s[|s| - 1] == top then r' + [|s| - 1] else r'
  }

  /** The arm get_winner returns: the tied leaders in ascending order, of
      which the shuffle puts the one at `tieBreak` first. Its row sum is
      the highest. */
  function WinnerIndex(s: seq<real>, tieBreak: nat): (w: nat)
    requires |s| > 0
    ensures w < |s| && s[w] == Largest(s)
    ensures forall k :: 0 <= k < |s| ==> s[k] <= s[w]
  {
    var tops := IndicesOf(s, Largest(s));
    var v :| 0 <= v < |s| && s[v] == Largest(s);
    assert v in tops;
    assert tops[tieBreak % |tops|] in tops;
    tops[tieBreak % |tops|]
  }

  class BaselineSampler<Arm(==)> {
    const arms: seq<Arm>
    const indexOf: map<Arm, nat>
    const realWins: array2<real>
    const champ: int
    var plays: map<(nat, nat), nat>
    var t: nat

    ghost predicate Valid()
      reads this
    {
      && indexOf == IndexMap(arms)
      && realWins.Length0 == realWins.Length1 == |arms|
      && plays.Keys == PlayPairs(|arms|, champ)
    }

    /** The sampler over `arms` with the champion option `champion`
        (-1 unless given): all wins 1, every play count 0, t = 1. */
    constructor (arms: seq<Arm>, champion: int)
      ensures Valid() && fresh(realWins)
      ensures this.arms == arms && champ == champion && t == 1
      ensures forall i, j :: 0 <= i < |arms| && 0 <= j < |arms| ==> realWins[i, j] == 1.0
      ensures forall p :: p in plays ==> plays[p] == 0
    {
      this.arms := arms;
      indexOf := IndexMap(arms);
      realWins := new real[|arms|, |arms|]((i, j) => 1.0);
      var pairs := PlayPairs(|arms|, champion);
      plays := map p | p in pairs :: 0;
      champ := champion;
      t := 1;
    }

    /** get_arms(): the least played pair, last in scan order among equals,
        whose count goes up by one. */
    method GetArms() returns (arm1: Arm, arm2: Arm, i1: nat, i2: nat)
      requires Valid() && |arms| >= 2
      modifies this
      ensures Valid() && t == old(t)
      ensures LeastPlayed(old(plays), (i1, i2))
      ensures plays == old(plays)[(i1, i2) := old(plays)[(i1, i2)] + 1]
      ensures i1 != i2 && i1 < |arms| && i2 < |arms| && arm1 == arms[i1] && arm2 == arms[i2]
    {
      var n := |arms|;
      PlayPairsNonEmpty(n, champ);
      PlayPairsBounded(n, champ);
      assert |plays| > 0 by {
        var q :| q in plays.Keys;
      }
      var least := LeastPlayedPair(plays, n);
      i1, i2 := least.0, least.1;
      var updated := plays[least := plays[least] + 1];
      assert updated.Keys == plays.Keys;
      plays := updated;
      return arms[i1], arms[i2], i1, i2;
    }

    /** update_scores(winner, loser, score): the score is credited to the
        winner against the loser, t advances, and the winner's index is
        returned. */
    method UpdateScores(winner: Arm, loser: Arm, score: real) returns (w: nat)
      requires Valid() && winner in arms && loser in arms
      modifies this, realWins
      ensures Valid() && plays == old(plays) && t == old(t) + 1
      ensures w < |arms| && arms[w] == winner
      ensures forall i, j :: 0 <= i < |arms| && 0 <= j < |arms| ==>
        realWins[i, j] == if i == w && j == indexOf[loser] then old(realWins[i, j]) + score else old(realWins[i, j])
    {
      w := indexOf[winner];
      var l := indexOf[loser];
      realWins[w, l] := realWins[w, l] + score;
      t := t + 1;
    }

    /** get_winner(): an arm whose row of wins sums highest; the shuffle of
        the tied arms is given as the position `tieBreak` of the one taken.
        With no arms, `sort(scores)[-1]` raises IndexError: that is None. */
    method GetWinner(tieBreak: nat) returns (winner: Option<Arm>)
      requires Valid()
      ensures winner.None? <==> |arms| == 0
      ensures winner.Some? ==> winner.value == arms[WinnerIndex(RowSums(realWins), tieBreak)]
    {
      if |arms| == 0 {
        return None;
      }
      var w := WinnerOf(realWins, tieBreak);
      winner := Some(arms[w]);
    }
  }

  /** The row sums of a square matrix. */
  ghost function RowSums(m: array2<real>): (s: seq<real>)
    requires m.Length0 == m.Length1
    reads m
    ensures |s| == m.Length0
  {
    seq(m.Length0, i reads m requires 0 <= i < m.Length0 => RowSum(m, i, m.Length1))
  }

  /** The body of get_winner on the wins matrix: the index of the arm. */
  method WinnerOf(m: array2<real>, tieBreak: nat) returns (w: nat)
    requires m.Length0 == m.Length1 > 0
    ensures w == WinnerIndex(RowSums(m), tieBreak)
  {
    var scores := RowTotals(m);
    assert scores == RowSums(m);
    var top := Top(scores);
    var inds := Ties(scores, top);
    assert |inds| > 0 by {
      var v :| 0 <= v < |scores| && scores[v] == top;
      assert v in inds;
    }
    w := inds[tieBreak % |inds|];
  }

  /** sort(scores)[-1]: the largest score. */
  method Top(scores: seq<real>) returns (top: real)
    requires |scores| > 0
    ensures top == Largest(scores)
  {
    top := scores[0];
    for i := 1 to |scores|
      invariant top == Largest(scores[..i])
    {
      assert scores[..i + 1][..i] == scores[..i];
      if scores[i] > top {
        top := scores[i];
      }
    }
    assert scores[..|scores|] == scores;
  }

  /** nonzero(scores == top)[0]: the positions holding `top`, ascending. */
  method Ties(scores: seq<real>, top: real) returns (inds: seq<nat>)
    ensures inds == IndicesOf(scores, top)
  {
    inds := [];
    for i := 0 to |scores|
      invariant inds == IndicesOf(scores[..i], top)
    {
      assert scores[..i + 1][..i] == scores[..i];
      if scores[i] == top {
        inds := inds + [i];
      }
    }
    assert scores[..|scores|] == scores;
  }

  /** rWins.sum(axis=1): the row sums of a square matrix. */
  method RowTotals(m: array2<real>) returns (scores: seq<real>)
    requires m.Length0 == m.Length1
    ensures |scores| == m.Length0
    ensures forall i :: 0 <= i < m.Length0 ==> scores[i] == RowSum(m, i, m.Length1)
  {
    scores := [];
    for i := 0 to m.Length0
      invariant |scores| == i
      invariant forall k :: 0 <= k < i ==> scores[k] == RowSum(m, k, m.Length1)
    {
      var s := 0.0;
      for j := 0 to m.Length1
        invariant s == RowSum(m, i, j)
      {
        s := s + m[i, j];
      }
      scores := scores + [s];
    }
  }

  /** The scan of get_arms over the plays table, pair by pair in scan order;
      the candidate is replaced whenever a count is at most the current one. */
  method LeastPlayedPair(plays: map<(nat, nat), nat>, n: nat) returns (least: (nat, nat))
    requires |plays| > 0
    requires forall q :: q in plays ==> q.0 < n && q.1 < n
    ensures LeastPlayed(plays, least)
  {
    var best: Option<(nat, nat)> := None;
    for a1 := 0 to n
      invariant best.None? ==> forall q :: q in plays ==> !Before(q, (a1, 0))
      invariant best.Some? ==> Scanned(plays, best.value, (a1, 0))
    {
      best := ScanRow(plays, n, a1, best);
    }
    assert best.Some? by {
      var q :| q in plays;
      assert Before(q, (n, 0));
    }
    least := best.value;
    forall q | q in plays
      ensures Before(q, (n, 0))
    {
    }
  }

  /** The inner loop of get_arms: the pairs (a1, 0), ..., (a1, n - 1). */
  method ScanRow(plays: map<(nat, nat), nat>, n: nat, a1: nat, best: Option<(nat, nat)>)
    returns (next: Option<(nat, nat)>)
    requires forall q :: q in plays ==> q.1 < n
    requires best.None? ==> forall q :: q in plays ==> !Before(q, (a1, 0))
    requires best.Some? ==> Scanned(plays, best.value, (a1, 0))
    ensures next.None? ==> forall q :: q in plays ==> !Before(q, (a1 + 1, 0))
    ensures next.Some? ==> Scanned(plays, next.value, (a1 + 1, 0))
  {
    next := best;
    for a2 := 0 to n
      invariant next.None? ==> forall q :: q in plays ==> !Before(q, (a1, a2))
      invariant next.Some? ==> Scanned(plays, next.value, (a1, a2))
    {
      if (a1, a2) in plays && (next.None? || plays[(a1, a2)] <= plays[next.value]) {
        next := Some((a1, a2));
      }
    }
  }

  /** The scan has visited every pair before `upTo`, the candidate is among
      them, and it is the last visited pair of minimal count. */
  ghost predicate Scanned(plays: map<(nat, nat), nat>, cand: (nat, nat), upTo: (nat, nat))
  {
    && cand in plays && Before(cand, upTo)
    && forall q :: q in plays && Before(q, upTo) ==>
         plays[cand] <= plays[q] && (plays[q] == plays[cand] ==> q == cand || Before(q, cand))
  }
}
