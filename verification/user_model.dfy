/** The user model of lerot/environment/RelevantUserModel.py: the user
    clicks every document of a result list as often as its relevance
    label says, up to an optional limit on the number of positions read. */
module UserModel {

  /** The number of leading positions that get their label: the loop
      breaks when its index reaches the limit, which a negative limit
      (the default -1) or one beyond the list never does. */
  function ClickedPositions(limit: int, n: nat): (k: nat)
    ensures k <= n
    ensures k == n <==> limit < 0 || limit >= n
    ensures k < n ==> k == limit
  {
    if 0 <= limit < n then limit else n
  }

  class RelevantUserModel {
    /** result_limit: the index at which reading stops; -1 for none. */
    const resultLimit: int

    constructor (limit: int)
      ensures resultLimit == limit
    {
      resultLimit := limit;
    }

    /** The argument parser's default, -1: no limit. */
    constructor Default()
      ensures resultLimit == -1
    {
      resultLimit := -1;
    }

    /** get_clicks: a zero vector of the list's length whose leading
        positions, up to the limit, hold the label of the document shown
        there. Only the documents read need a label. */
    method GetClicks(resultList: seq<nat>, labels: seq<int>) returns (clicks: array<int>)
      requires forall i :: 0 <= i < ClickedPositions(resultLimit, |resultList|) ==> resultList[i] < |labels|
      ensures fresh(clicks) && clicks.Length == |resultList|
      ensures forall i :: 0 <= i < ClickedPositions(resultLimit, |resultList|) ==> clicks[i] == labels[resultList[i]]
      ensures forall i :: ClickedPositions(resultLimit, |resultList|) <= i < clicks.Length ==> clicks[i] == 0
      ensures resultLimit < 0 ==> clicks[..] == seq(|resultList|, i requires 0 <= i < |resultList| => labels[resultList[i]])
    {
      clicks := new int[|resultList|](_ => 0);
      var i := 0;
      while i < |resultList|
        invariant 0 <= i <= ClickedPositions(resultLimit, |resultList|)
        invariant forall j :: 0 <= j < i ==> clicks[j] == labels[resultList[j]]
        invariant forall j :: i <= j < clicks.Length ==> clicks[j] == 0
      {
        if resultLimit == i {
          break;
        }
        clicks[i] := labels[resultList[i]];
        i := i + 1;
      }
    }
  }
}
