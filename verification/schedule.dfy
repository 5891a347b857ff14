/** The draw schedule of probabilistic multileaving
    (lerot/comparison/ProbabilisticMultileave.py, multileave): ranker
    indices are popped from a pool that is refilled with a freshly
    shuffled permutation of all indices whenever it is empty. The shuffles
    are inputs: `shuffles[k]` is the pool after the k-th refill. */
module Schedule {
  import opened Wrappers
  import opened Seqs

  /** Every pool a refill can produce. */
  predicate AllPermutations(shuffles: seq<seq<nat>>, n: nat)
  {
    forall k :: 0 <= k < |shuffles| ==> IsPermutation(shuffles[k], n)
  }

  /** The indices in the order `pop()` takes them: each pool is emptied
      from its end before the next refill. */
  function DrawSchedule(shuffles: seq<seq<nat>>): seq<nat>
  {
    if |shuffles| == 0 then []
    else DrawSchedule(shuffles[..|shuffles| - 1]) + Reversed(shuffles[|shuffles| - 1])
  }

  lemma {:induction false} DrawScheduleLength(shuffles: seq<seq<nat>>, n: nat)
    requires AllPermutations(shuffles, n)
    ensures |DrawSchedule(shuffles)| == |shuffles| * n
  {
    if |shuffles| > 0 {
      var m := |shuffles| - 1;
      DrawScheduleLength(shuffles[..m], n);
      assert |Reversed(shuffles[m])| == n;
      BlockBounds(m + 1, n, m);
    }
  }

  /** Later refills only extend the schedule. */
  lemma {:induction false} DrawSchedulePrefix(shuffles: seq<seq<nat>>, k: nat)
    requires k <= |shuffles|
    ensures DrawSchedule(shuffles[..k]) <= DrawSchedule(shuffles)
    decreases |shuffles| - k
  {
    if k < |shuffles| {
      var s' := shuffles[..|shuffles| - 1];
      assert s'[..k] == shuffles[..k];
      DrawSchedulePrefix(s', k);
    } else {
      assert shuffles[..k] == shuffles;
    }
  }

  /** Where block b starts and ends, inside a schedule of `count` blocks. */
  lemma BlockBounds(count: nat, n: nat, b: nat)
    requires b < count
    ensures (b + 1) * n == b * n + n
    ensures (b + 1) * n <= count * n
  {
    assert b + 1 <= count;
  }

  /** A piece of a sequence found right after a prefix of it. */
  lemma SliceAfterPrefix<T>(d: seq<T>, a: seq<T>, c: seq<T>)
    requires a + c <= d
    ensures d[|a|..|a| + |c|] == c
  {
    assert d[|a|..|a| + |c|] == (a + c)[|a|..];
  }

  /** Block b of the schedule (draws b*n .. b*n+n-1) is the b-th pool, popped. */
  lemma DrawScheduleBlock(shuffles: seq<seq<nat>>, n: nat, b: nat)
    requires AllPermutations(shuffles, n)
    requires b < |shuffles|
    ensures (b + 1) * n <= |DrawSchedule(shuffles)|
    ensures DrawSchedule(shuffles)[b * n .. (b + 1) * n] == Reversed(shuffles[b])
  {
    var before := DrawSchedule(shuffles[..b]);
    var pool := Reversed(shuffles[b]);
    DrawScheduleLength(shuffles, n);
    DrawScheduleLength(shuffles[..b], n);
    BlockBounds(|shuffles|, n, b);
    Refill(shuffles, b);
    DrawSchedulePrefix(shuffles, b + 1);
    assert |pool| == n;
    SliceAfterPrefix(DrawSchedule(shuffles), before, pool);
  }

  /** Draws b*n .. b*n+n-1 of the schedule. */
  function Block(shuffles: seq<seq<nat>>, n: nat, b: nat): seq<nat>
    requires AllPermutations(shuffles, n)
    requires b < |shuffles|
  {
    DrawScheduleBlock(shuffles, n, b);
    DrawSchedule(shuffles)[b * n .. (b + 1) * n]
  }

  /** Fairness: every complete block of n consecutive draws, starting at a
      multiple of n, draws every ranker exactly once. */
  lemma ScheduleBlockFair(shuffles: seq<seq<nat>>, n: nat, b: nat)
    requires AllPermutations(shuffles, n)
    requires b < |shuffles|
    ensures IsPermutation(Block(shuffles, n, b), n)
    ensures forall r :: 0 <= r < n ==> r in Block(shuffles, n, b)
  {
    DrawScheduleBlock(shuffles, n, b);
    ReversedPermutation(shuffles[b], n);
    PermutationCovers(Reversed(shuffles[b]), n);
  }

  /** A block cut short by the end of the list draws no ranker twice. */
  lemma SchedulePartialBlock(shuffles: seq<seq<nat>>, n: nat, b: nat, end: nat)
    requires AllPermutations(shuffles, n)
    requires b < |shuffles|
    requires b * n <= end <= (b + 1) * n
    ensures end <= |DrawSchedule(shuffles)|
    ensures Distinct(DrawSchedule(shuffles)[b * n .. end])
  {
    DrawScheduleBlock(shuffles, n, b);
    ScheduleBlockFair(shuffles, n, b);
    DistinctSubslice(DrawSchedule(shuffles), b * n, (b + 1) * n, end);
  }

  lemma DistinctSubslice(d: seq<nat>, lo: nat, hi: nat, end: nat)
    requires lo <= end <= hi <= |d|
    requires Distinct(d[lo..hi])
    ensures Distinct(d[lo..end])
  {
    assert d[lo..end] == d[lo..hi][..end - lo];
  }

  /** The while-loop of multileave that fills the assignment list `a`:
      refill the pool when it is empty, then pop its last index. With no
      rankers the pool stays empty and pop() fails (None). */
  method BuildSchedule(n: nat, length: int, shuffles: seq<seq<nat>>) returns (a: Option<seq<nat>>)
    requires AllPermutations(shuffles, n)
    requires n > 0 ==> length <= |shuffles| * n
    ensures a.None? <==> n == 0 && length > 0
    ensures a.Some? ==> |a.value| == (if length < 0 then 0 else length)
    ensures a.Some? ==> |a.value| <= |DrawSchedule(shuffles)|
    ensures a.Some? ==> a.value == DrawSchedule(shuffles)[..|a.value|]
  {
    DrawScheduleLength(shuffles, n);
    assert n > 0 ==> length <= |DrawSchedule(shuffles)|;
    var drawn: seq<nat> := [];
    var pool: seq<nat> := [];
    var k := 0;
    while |drawn| < length
      invariant 0 <= k <= |shuffles|
      invariant drawn + Reversed(pool) == DrawSchedule(shuffles[..k])
      invariant |drawn| <= (if length < 0 then 0 else length)
      decreases length - |drawn|
    {
      if n == 0 {
        // with no rankers every refill is empty, so the first pop fails
        return None;
      }
      drawn, pool, k := DrawOne(shuffles, n, length, drawn, pool, k);
    }
    DrawSchedulePrefix(shuffles, k);
    assert drawn <= DrawSchedule(shuffles[..k]);
    return Some(drawn);
  }

  /** One turn of the loop: refill an empty pool, then pop its last index. */
  method DrawOne(shuffles: seq<seq<nat>>, n: nat, length: int, drawn: seq<nat>, pool: seq<nat>, k: nat)
    returns (drawn': seq<nat>, pool': seq<nat>, k': nat)
    requires AllPermutations(shuffles, n) && n > 0 && length <= |shuffles| * n
    requires k <= |shuffles| && |drawn| < length
    requires drawn + Reversed(pool) == DrawSchedule(shuffles[..k])
    ensures k' <= |shuffles| && |drawn'| == |drawn| + 1
    ensures drawn' + Reversed(pool') == DrawSchedule(shuffles[..k'])
  {
    pool', k' := pool, k;
    if |pool| == 0 {
      DrawScheduleLength(shuffles[..k], n);
      assert k * n < |shuffles| * n;
      Refill(shuffles, k);
      pool', k' := shuffles[k], k + 1;
    }
    var last := pool'[|pool'| - 1];
    PopLast(drawn, pool');
    drawn' := drawn + [last];
    pool' := pool'[..|pool'| - 1];
  }

  lemma PopLast(drawn: seq<nat>, pool: seq<nat>)
    requires |pool| > 0
    ensures drawn + Reversed(pool) == (drawn + [pool[|pool| - 1]]) + Reversed(pool[..|pool| - 1])
  {
    var x, rest := pool[|pool| - 1], Reversed(pool[..|pool| - 1]);
    assert Reversed(pool) == [x] + rest;
    var front := drawn + [x];
    assert |drawn + ([x] + rest)| == |front + rest|;
    forall i | 0 <= i < |front + rest| ensures (drawn + ([x] + rest))[i] == (front + rest)[i] {
      if i > |drawn| {
        assert (front + rest)[i] == rest[i - |front|];
      }
    }
  }

  lemma Refill(shuffles: seq<seq<nat>>, k: nat)
    requires k < |shuffles|
    ensures DrawSchedule(shuffles[..k + 1]) == DrawSchedule(shuffles[..k]) + Reversed(shuffles[k])
  {
    assert shuffles[..k + 1][..k] == shuffles[..k];
  }
}
