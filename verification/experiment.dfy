/** Two pieces of lerot/experiment/AbstractLearningExperiment.py: the
    reading of one evaluation argument string (already split into
    whitespace-separated tokens) into a metric name and integer keyword
    arguments, and the choice of the next training query. */
module Experiment {
  import opened Wrappers

  /** The exceptions the pairing loop can raise: an empty argument string
      has no metric name (IndexError), and a value token that is not an
      integer literal makes int() fail (ValueError). */
  datatype ArgError = MissingEvaluationName | NotAnInteger(token: string)

  /** A metric name with its keyword arguments. */
  datatype Evaluation = Evaluation(name: string, kwargs: map<string, int>)

  // ---------------------------------------------------------------
  // Decimal integer literals, as Python's int() reads a token.

  predicate IsDigit(c: char) { '0' <= c <= '9' }

  predicate AllDigits(s: string) { forall i :: 0 <= i < |s| ==> IsDigit(s[i]) }

  /** The value of a string of decimal digits, most significant first. */
  function DigitsValue(s: string): nat
    requires AllDigits(s)
  {
    if |s| == 0 then 0 else DigitsValue(s[..|s| - 1]) * 10 + (s[|s| - 1] as int - '0' as int)
  }

  /** An optional sign followed by at least one decimal digit. */
  predicate IsIntLiteral(s: string)
  {
    if |s| > 0 && (s[0] == '+' || s[0] == '-') then |s| > 1 && AllDigits(s[1..])
    else |s| > 0 && AllDigits(s)
  }

  /** int(token): the integer a literal denotes, None where Python raises. */
  function ParseInt(s: string): (r: Option<int>)
    ensures r.Some? <==> IsIntLiteral(s)
    ensures r.Some? && r.value < 0 ==> s[0] == '-'
  {
    if |s| > 0 && (s[0] == '+' || s[0] == '-') then
      if |s| > 1 && AllDigits(s[1..]) then
        var magnitude: int := DigitsValue(s[1..]);
        Some(if s[0] == '-' then -magnitude else magnitude)
      else None
    else if |s| > 0 && AllDigits(s) then Some(DigitsValue(s))
    else None
  }

  /** The digits of a natural number, without leading zeros. */
  function ShowNat(n: nat): (s: string)
    ensures |s| > 0 && AllDigits(s)
  {
    if n < 10 then [('0' as int + n) as char]
    else ShowNat(n / 10) + [('0' as int + n % 10) as char]
  }

  /** The decimal form of an integer, as str() writes it. */
  function ShowInt(n: int): (s: string)
    ensures IsIntLiteral(s)
  {
    if n < 0 then "-" + ShowNat(-n) else ShowNat(n)
  }

  lemma {:induction false} DigitsOfShowNat(n: nat)
    ensures DigitsValue(ShowNat(n)) == n
  {
    if n >= 10 {
      var s := ShowNat(n);
      DigitsOfShowNat(n / 10);
      assert s[..|s| - 1] == ShowNat(n / 10);
    }
  }

  /** Every integer written in decimal reads back as itself. */
  lemma ParseShowInt(n: int)
    ensures ParseInt(ShowInt(n)) == Some(n)
  {
    if n < 0 {
      DigitsOfShowNat(-n);
      assert ShowInt(n)[1..] == ShowNat(-n);
    } else {
      DigitsOfShowNat(n);
    }
  }

  // ---------------------------------------------------------------
  // Pairing the tokens after the metric name.

  /** Tokens 2p - 1 and 2p form the p-th (name, value) pair, p >= 1. */
  function KeyAt(tokens: seq<string>, p: nat): string
    requires 1 <= p && 2 * p < |tokens|
  {
    tokens[2 * p - 1]
  }

  function ValueAt(tokens: seq<string>, p: nat): string
    requires 1 <= p && 2 * p < |tokens|
  {
    tokens[2 * p]
  }

  /** The pairs the loop `for i in xrange(1, len(tokens) - 1, 2)` reads:
      a trailing token without a value is never visited. */
  function PairCount(tokens: seq<string>): (k: nat)
    ensures 2 * k < |tokens| || (|tokens| == 0 && k == 0)
    ensures 2 * k + 2 >= |tokens|
  {
    if |tokens| == 0 then 0 else (|tokens| - 1) / 2
  }

  /** The names of the first k pairs. */
  function KeySet(tokens: seq<string>, k: nat): set<string>
    requires 2 * k < |tokens|
  {
    set p | 1 <= p <= k :: KeyAt(tokens, p)
  }

  /** Pair p carries the last value given to its name among the first k pairs. */
  predicate LastOfName(tokens: seq<string>, k: nat, p: nat)
    requires 1 <= p <= k && 2 * k < |tokens|
  {
    forall q :: p < q <= k ==> KeyAt(tokens, q) != KeyAt(tokens, p)
  }

  /** The keyword arguments of the first k pairs, a later value for a
      name replacing an earlier one; the first value that is not an
      integer stops the reading. */
  function Pairs(tokens: seq<string>, k: nat): Result<map<string, int>, ArgError>
    requires 2 * k < |tokens|
  {
    if k == 0 then Success(map[])
    else
      match Pairs(tokens, k - 1)
      case Failure(e) => Failure(e)
      case Success(m) =>
        match ParseInt(ValueAt(tokens, k))
        case None => Failure(NotAnInteger(ValueAt(tokens, k)))
        case Some(v) => Success(m[KeyAt(tokens, k) := v])
  }

  /** The pairs read succeed exactly when every value is an integer literal. */
  lemma {:induction false} PairsSucceed(tokens: seq<string>, k: nat)
    requires 2 * k < |tokens|
    ensures Pairs(tokens, k).Success? <==> forall p :: 1 <= p <= k ==> ParseInt(ValueAt(tokens, p)).Some?
  {
    if k > 0 {
      PairsSucceed(tokens, k - 1);
    }
  }

  /** On failure, the first value that is not an integer literal is reported. */
  lemma {:induction false} PairsFailure(tokens: seq<string>, k: nat)
    requires 2 * k < |tokens|
    requires Pairs(tokens, k).Failure?
    ensures exists p :: 1 <= p <= k && FirstBadValue(tokens, p) && Pairs(tokens, k).error == NotAnInteger(ValueAt(tokens, p))
  {
    if Pairs(tokens, k - 1).Failure? {
      PairsFailure(tokens, k - 1);
    } else {
      PairsSucceed(tokens, k - 1);
      assert FirstBadValue(tokens, k);
    }
  }

  /** The pairs read name every pair and nothing else. */
  lemma {:induction false} PairsKeys(tokens: seq<string>, k: nat)
    requires 2 * k < |tokens|
    requires Pairs(tokens, k).Success?
    ensures Pairs(tokens, k).value.Keys == KeySet(tokens, k)
  {
    if k > 0 {
      PairsKeys(tokens, k - 1);
      assert KeySet(tokens, k) == KeySet(tokens, k - 1) + {KeyAt(tokens, k)};
    }
  }

  /** A name holds the value of the last pair that gives it. */
  lemma {:induction false} PairsLastValue(tokens: seq<string>, k: nat, p: nat)
    requires 2 * k < |tokens| && 1 <= p <= k
    requires Pairs(tokens, k).Success?
    requires LastOfName(tokens, k, p)
    ensures KeyAt(tokens, p) in Pairs(tokens, k).value
    ensures ParseInt(ValueAt(tokens, p)) == Some(Pairs(tokens, k).value[KeyAt(tokens, p)])
  {
    if p < k {
      assert KeyAt(tokens, k) != KeyAt(tokens, p);
      assert LastOfName(tokens, k - 1, p);
      PairsLastValue(tokens, k - 1, p);
    }
  }

  /** Pair p holds the first value that is not an integer literal. */
  predicate FirstBadValue(tokens: seq<string>, p: nat)
    requires 1 <= p && 2 * p < |tokens|
  {
    ParseInt(ValueAt(tokens, p)).None? &&
    forall q :: 1 <= q < p ==> ParseInt(ValueAt(tokens, q)).Some?
  }

  /** Once a value fails to read, more pairs do not change the outcome. */
  lemma {:induction false} PairsFailureSticks(tokens: seq<string>, k: nat, k': nat)
    requires k <= k' && 2 * k' < |tokens|
    requires Pairs(tokens, k).Failure?
    ensures Pairs(tokens, k') == Pairs(tokens, k)
  {
    if k < k' {
      PairsFailureSticks(tokens, k, k' - 1);
    }
  }

  /** The pairs read depend only on the tokens they are read from. */
  lemma {:induction false} PairsPrefix(tokens: seq<string>, more: seq<string>, k: nat)
    requires 2 * k < |tokens|
    ensures Pairs(tokens + more, k) == Pairs(tokens, k)
  {
    if k > 0 {
      PairsPrefix(tokens, more, k - 1);
      assert KeyAt(tokens + more, k) == KeyAt(tokens, k);
      assert ValueAt(tokens + more, k) == ValueAt(tokens, k);
    }
  }

  /** The evaluation one argument string of the experiment describes:
      its first token names the metric, the pairs after it are integer
      keyword arguments, and `cutoff` defaults to -1. */
  function ReadEvaluation(tokens: seq<string>): (r: Result<Evaluation, ArgError>)
    ensures r.Failure? <==> |tokens| == 0 || Pairs(tokens, PairCount(tokens)).Failure?
    ensures |tokens| == 0 ==> r == Failure(MissingEvaluationName)
    ensures r.Success? ==> r.value.name == tokens[0] && "cutoff" in r.value.kwargs
  {
    if |tokens| == 0 then Failure(MissingEvaluationName)
    else
      match Pairs(tokens, PairCount(tokens))
      case Failure(e) => Failure(e)
      case Success(m) =>
        Success(Evaluation(tokens[0], if "cutoff" in m then m else m["cutoff" := -1]))
  }

  /** The keyword arguments read: one per pair name plus `cutoff`, each
      pair name with its last value, and `cutoff` -1 unless a pair names it. */
  lemma EvaluationKeywords(tokens: seq<string>)
    requires ReadEvaluation(tokens).Success?
    ensures var kwargs := ReadEvaluation(tokens).value.kwargs;
      && kwargs.Keys == KeySet(tokens, PairCount(tokens)) + {"cutoff"}
      && (forall p :: 1 <= p <= PairCount(tokens) && LastOfName(tokens, PairCount(tokens), p) ==>
            ParseInt(ValueAt(tokens, p)) == Some(kwargs[KeyAt(tokens, p)]))
      && ("cutoff" !in KeySet(tokens, PairCount(tokens)) ==> kwargs["cutoff"] == -1)
  {
    var k := PairCount(tokens);
    PairsKeys(tokens, k);
    forall p | 1 <= p <= k && LastOfName(tokens, k, p)
      ensures ParseInt(ValueAt(tokens, p)) == Some(ReadEvaluation(tokens).value.kwargs[KeyAt(tokens, p)])
    {
      PairsLastValue(tokens, k, p);
    }
  }

  /** A trailing name without a value is ignored. */
  lemma TrailingTokenDropped(tokens: seq<string>, t: string)
    requires |tokens| % 2 == 1
    ensures ReadEvaluation(tokens + [t]) == ReadEvaluation(tokens)
  {
    assert PairCount(tokens + [t]) == PairCount(tokens);
    PairsPrefix(tokens, [t], PairCount(tokens));
    assert (tokens + [t])[0] == tokens[0];
  }

  /** The pairing loop of __init__ for one evaluation argument. */
  method EvaluationArgs(tokens: seq<string>) returns (r: Result<Evaluation, ArgError>)
    ensures r == ReadEvaluation(tokens)
  {
    var kwargs: map<string, int> := map[];
    var i := 1;
    while i < |tokens| - 1
      invariant i % 2 == 1 && (i <= |tokens| || i == 1)
      invariant |tokens| > 0 ==> (i - 1) / 2 <= PairCount(tokens) && Pairs(tokens, (i - 1) / 2) == Success(kwargs)
      decreases |tokens| - i
    {
      var value := ParseInt(tokens[i + 1]);
      assert KeyAt(tokens, (i + 1) / 2) == tokens[i] && ValueAt(tokens, (i + 1) / 2) == tokens[i + 1];
      if value.None? {
        PairsFailureSticks(tokens, (i + 1) / 2, PairCount(tokens));
        return Failure(NotAnInteger(tokens[i + 1]));
      }
      kwargs := kwargs[tokens[i] := value.value];
      i := i + 2;
    }
    if "cutoff" !in kwargs {
      kwargs := kwargs["cutoff" := -1];
    }
    if |tokens| == 0 {
      return Failure(MissingEvaluationName);
    }
    return Success(Evaluation(tokens[0], kwargs));
  }

  // ---------------------------------------------------------------
  // Choosing the next training query.

  class LearningExperiment {
    /** query_sampling_method: "random", "fixed" or "one". */
    const querySamplingMethod: string
    /** queryid: the index "one" drew on its first call. */
    var queryid: Option<nat>

    constructor (samplingMethod: string)
      ensures querySamplingMethod == samplingMethod && queryid == None
    {
      querySamplingMethod := samplingMethod;
      queryid := None;
    }

    /** _sample_qid: `draw` is the index random.randint(0, length - 1) or
        random.randrange(length) returns. An unknown method returns None. */
    method SampleQid<Q>(queryKeys: seq<Q>, queryCount: nat, queryLength: nat, draw: nat) returns (r: Option<Q>)
      requires queryLength == |queryKeys|
      requires querySamplingMethod == "random" || querySamplingMethod == "fixed" ==> queryLength > 0
      requires querySamplingMethod == "random" ==> draw < queryLength
      requires querySamplingMethod == "one" && queryid.None? ==> draw < queryLength
      requires querySamplingMethod == "one" && queryid.Some? ==> queryid.value < queryLength
      modifies this
      ensures querySamplingMethod == "random" ==> r == Some(queryKeys[draw]) && queryid == old(queryid)
      ensures querySamplingMethod == "fixed" ==> r == Some(queryKeys[queryCount % queryLength]) && queryid == old(queryid)
      ensures querySamplingMethod == "one" ==> queryid == (if old(queryid).None? then Some(draw) else old(queryid))
      ensures querySamplingMethod == "one" ==> queryid.Some? && queryid.value < queryLength && r == Some(queryKeys[queryid.value])
      ensures querySamplingMethod != "random" && querySamplingMethod != "fixed" && querySamplingMethod != "one" ==>
        r == None && queryid == old(queryid)
    {
      if querySamplingMethod == "random" {
        r := Some(queryKeys[draw]);
      } else if querySamplingMethod == "fixed" {
        r := Some(queryKeys[queryCount % queryLength]);
      } else if querySamplingMethod == "one" {
        if queryid.None? {
          queryid := Some(draw);
        }
        r := Some(queryKeys[queryid.value]);
      } else {
        r := None;
      }
    }
  }
}
