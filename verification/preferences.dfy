/** Experiment.preferencesFromCredits of
    lerot/comparison/test/script_ProbabilisticMultileave.py: the credits
    a multileaved comparison gave each ranker become a matrix whose entry
    (i, j) is 1 when ranker i won against ranker j, 0 when it lost and
    0.5 on a tie. */
module Preferences {

  /** The preference of a ranker with credit a over one with credit b. */
  function Pref(a: real, b: real): (r: real)
    ensures r == 1.0 <==> a > b
    ensures r == 0.0 <==> a < b
    ensures r == 0.5 <==> a == b
  {
    if a > b then 1.0 else if a < b then 0.0 else 0.5
  }

  /** The two preferences of a pair add up to one. */
  lemma PrefComplement(a: real, b: real)
    ensures Pref(a, b) + Pref(b, a) == 1.0
  {
  }

  /** Entry (a, b) is written once the row loop has passed max(a, b),
      or, within row max(a, b), once the column loop has passed min(a, b). */
  ghost predicate Written(m: array2<real>, creds: seq<real>, n: nat, row: nat, col: nat)
    reads m
    requires m.Length0 == n && m.Length1 == n && n <= |creds|
  {
    forall a, b :: 0 <= a < n && 0 <= b < n &&
                   ((a < row && b < row) || (a == row && b < col) || (b == row && a < col)) ==>
      m[a, b] == Pref(creds[a], creds[b])
  }

  class Experiment {
    /** n_rankers: the number of rankers compared. */
    const nRankers: nat

    constructor (n: nat)
      ensures nRankers == n
    {
      nRankers := n;
    }

    /** preferencesFromCredits: the full n x n matrix of pairwise preferences. */
    method PreferencesFromCredits(creds: seq<real>) returns (prefs: array2<real>)
      requires |creds| >= nRankers
      ensures fresh(prefs) && prefs.Length0 == nRankers && prefs.Length1 == nRankers
      ensures forall i, j :: 0 <= i < nRankers && 0 <= j < nRankers ==>
        prefs[i, j] == Pref(creds[i], creds[j])
      ensures forall i, j :: 0 <= i < nRankers && 0 <= j < nRankers ==> prefs[i, j] + prefs[j, i] == 1.0
      ensures forall i :: 0 <= i < nRankers ==> prefs[i, i] == 0.5
    {
      prefs := new real[nRankers, nRankers]((_, _) => 0.0);
      for i := 0 to nRankers
        invariant Written(prefs, creds, nRankers, i, 0)
      {
        FillRow(prefs, creds, nRankers, i);
      }
      forall i, j | 0 <= i < nRankers && 0 <= j < nRankers
        ensures prefs[i, j] + prefs[j, i] == 1.0
      {
        PrefComplement(creds[i], creds[j]);
      }
    }
  }

  /** One pass of the inner loop: columns 0..i of row i and their mirrors. */
  method FillRow(prefs: array2<real>, creds: seq<real>, n: nat, i: nat)
    requires prefs.Length0 == n && prefs.Length1 == n && n <= |creds| && i < n
    requires Written(prefs, creds, n, i, 0)
    modifies prefs
    ensures Written(prefs, creds, n, i + 1, 0)
  {
    for j := 0 to i + 1
      invariant Written(prefs, creds, n, i, j)
    {
      var pref := if creds[i] > creds[j] then 1.0 else if creds[i] < creds[j] then 0.0 else 0.5;
      prefs[i, j] := pref;
      prefs[j, i] := 1.0 - pref;
      PrefComplement(creds[i], creds[j]);
    }
  }
}
