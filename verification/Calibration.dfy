/** The empirical threshold of an advisory: how much history an alarm budget asks for,
    the blocks history is cut into, and the quantile of their scores. */
module Calibration {
  import Arithmetic

  function Ceil(x: real): int {
    -((-x).Floor)
  }

  // ----- how much history is asked for ---------------------------------------------------

  /** The detector's least window. */
  const MIN_ADVISORY_WINDOW: nat := 3

  datatype Plan = Plan(window: nat, requiredScores: int, availableScores: int, latestStart: int,
                       requiredObservations: int)
  {
    predicate Sufficient() {
      latestStart >= 0 && availableScores >= requiredScores
    }
  }

  predicate Budget(budget: real) {
    0.0 < budget < 1.0
  }

  function RequiredScores(budget: real): int
    requires Budget(budget)
  {
    var required := Ceil(1.0 / budget) - 1;
    if required < 2 then 2 else required
  }

  /** planCalibration, of any window. */
  function PlanFor(observations: nat, budget: real, window: nat): Plan
    requires Budget(budget)
  {
    var required, block := RequiredScores(budget), window + 1;
    var latestStart := observations - block;
    var available := if latestStart >= 0 then latestStart / block else 0;
    Plan(window, required, available, latestStart, (required + 1) * block)
  }

  function PlanCalibration(observations: nat, budget: real): Plan
    requires Budget(budget)
  {
    PlanFor(observations, budget, MIN_ADVISORY_WINDOW)
  }

  /** The plan of the detector's window of three: blocks of four, one more than the scores
      required, the newest for the verdict and the others for scores. */
  lemma PlanExactly(observations: nat, budget: real)
    requires Budget(budget)
    ensures var plan := PlanCalibration(observations, budget);
            && plan.window == 3 && plan.latestStart == observations - 4
            && plan.availableScores == (if observations < 4 then 0 else (observations - 4) / 4)
            && plan.requiredScores == RequiredScores(budget)
            && plan.requiredObservations == 4 * (RequiredScores(budget) + 1)
  {
  }

  lemma CeilOfInverse(budget: real, n: int)
    requires Budget(budget)
    ensures n >= Ceil(1.0 / budget) <==> n as real * budget >= 1.0
  {
    var inverse := 1.0 / budget;
    assert inverse * budget == 1.0;
    if n as real >= inverse {
      Scaled(inverse, n as real, budget);
    } else {
      Scaled(n as real, inverse, budget);
    }
  }

  lemma Scaled(a: real, b: real, c: real)
    requires a <= b && c > 0.0
    ensures a * c <= b * c
    ensures a < b ==> a * c < b * c
  {
    assert (b - a) * c >= 0.0;
    assert a < b ==> (b - a) * c > 0.0;
  }

  /** The scores required are the fewest, two at least, among which one more has a
      share no greater than the budget. */
  lemma RequiredIsLeast(budget: real, n: int)
    requires Budget(budget)
    ensures n >= RequiredScores(budget) <==> n >= 2 && (n + 1) as real * budget >= 1.0
  {
    CeilOfInverse(budget, n + 1);
  }

  /** A plan is sufficient exactly when there are as many observations as it requires. */
  lemma SufficientIsEnough(observations: nat, budget: real, window: nat)
    requires Budget(budget)
    ensures var plan := PlanFor(observations, budget, window);
            plan.Sufficient() <==> observations >= plan.requiredObservations
  {
    var plan, block := PlanFor(observations, budget, window), window + 1;
    Arithmetic.QuotientAtLeast(plan.latestStart, block, plan.requiredScores);
    assert plan.requiredObservations == plan.requiredScores * block + block;
    assert plan.requiredScores * block > 0;
  }

  /** Of a history no longer than is asked for, a sufficient one is used whole. */
  lemma LimitIsUsedWhole(observations: nat, budget: real, window: nat)
    requires Budget(budget)
    requires var plan := PlanFor(observations, budget, window);
             plan.Sufficient() && observations <= plan.requiredObservations
    ensures var plan := PlanFor(observations, budget, window);
            plan.availableScores == plan.requiredScores && observations % (window + 1) == 0
  {
    var plan, block := PlanFor(observations, budget, window), window + 1;
    SufficientIsEnough(observations, budget, window);
    BlocksOf(plan.requiredScores + 1, block);
    BlocksOf(plan.requiredScores, block);
    assert plan.latestStart == plan.requiredScores * block;
  }

  lemma BlocksOf(k: int, block: int)
    requires block > 0
    ensures (k * block) % block == 0 && (k * block) / block == k
  {
    Arithmetic.QuotientAtLeast(k * block, block, k);
    Arithmetic.QuotientAtLeast(k * block, block, k + 1);
    assert (k + 1) * block == k * block + block;
    assert k * block == (k * block) / block * block + (k * block) % block;
  }

  // ----- history cut into blocks -----------------------------------------------------------

  /** Where the k-th block of the history starts: the blocks end at its newest edge. */
  function BlockStart(length: nat, block: nat, k: int): int
    requires block > 0
  {
    length % block + k * block
  }

  ghost predicate InBlock(length: nat, block: nat, k: int, i: int)
    requires block > 0
  {
    0 <= k < length / block && BlockStart(length, block, k) <= i < BlockStart(length, block, k) + block
  }

  /** Every observation but the oldest length % block lies in exactly one block, and
      those in none. */
  lemma BlocksTile(length: nat, block: nat, i: nat)
    requires block > 0 && i < length
    ensures i >= length % block ==> InBlock(length, block, (i - length % block) / block, i)
    ensures forall k :: InBlock(length, block, k, i) ==> i >= length % block && k == (i - length % block) / block
  {
    if i >= length % block {
      LiesInBlock(length, block, i);
    }
    forall k | InBlock(length, block, k, i) ensures i >= length % block && k == (i - length % block) / block {
      BlockOfIndex(length, block, k, i);
    }
  }

  lemma LiesInBlock(length: nat, block: nat, i: nat)
    requires block > 0 && length % block <= i < length
    ensures InBlock(length, block, (i - length % block) / block, i)
  {
    var past := i - length % block;
    Arithmetic.Quotient(length, block);
    Arithmetic.Quotient(past, block);
    Arithmetic.QuotientAtLeast(past, block, length / block);
  }

  lemma BlockOfIndex(length: nat, block: nat, k: int, i: nat)
    requires block > 0 && InBlock(length, block, k, i)
    ensures i >= length % block && k == (i - length % block) / block
  {
    var past := i - length % block;
    Arithmetic.Multiplied(0, k, block);
    Arithmetic.Divided(past, block, k, past - k * block);
  }

  /** The latest window is the last block, and those before it are the blocks of the
      history without it, as many as the plan counts. */
  lemma LatestIsLastBlock(observations: nat, budget: real, window: nat, k: int)
    requires Budget(budget) && observations >= window + 1
    ensures var plan, block := PlanFor(observations, budget, window), window + 1;
            && plan.latestStart == BlockStart(observations, block, observations / block - 1)
            && plan.availableScores == plan.latestStart / block == observations / block - 1
            && BlockStart(plan.latestStart, block, k) == BlockStart(observations, block, k)
  {
    var block := window + 1;
    var n, m := observations / block, observations % block;
    assert observations == n * block + m;
    assert (n - 1) * block == n * block - block;
    Arithmetic.Divided(observations - block, block, n - 1, m);
  }

  // ----- the score of each block --------------------------------------------------------------

  /** What the detector says of a window and the observation after it. */
  datatype Detection = Failed | Quiet | Raised(surprise: real)

  function Score(detection: Detection): real {
    if detection.Raised? then detection.surprise else 0.0
  }

  function BlockOf<O>(observations: seq<O>, block: nat, k: int): seq<O>
    requires block > 0 && 0 <= k < |observations| / block
  {
    BlockInRange(|observations|, block, k);
    observations[BlockStart(|observations|, block, k)..BlockStart(|observations|, block, k) + block]
  }

  lemma BlockInRange(length: nat, block: nat, k: int)
    requires block > 0 && 0 <= k < length / block
    ensures 0 <= BlockStart(length, block, k)
    ensures BlockStart(length, block, k) + block == BlockStart(length, block, k + 1) <= length
  {
    assert length == length / block * block + length % block;
    assert (k + 1) * block == k * block + block;
    Arithmetic.Multiplied(0, k, block);
    Arithmetic.Multiplied(k + 1, length / block, block);
  }

  function Judged<O>(observations: seq<O>, detect: seq<O> -> Detection, block: nat, k: int): Detection
    requires block > 0 && 0 <= k < |observations| / block
  {
    detect(BlockOf(observations, block, k))
  }

  ghost predicate AnyFails<O>(observations: seq<O>, detect: seq<O> -> Detection, block: nat)
    requires block > 0
  {
    exists k :: 0 <= k < |observations| / block && Judged(observations, detect, block, k).Failed?
  }

  /** The block that starts there is scored: by its surprise if the detector raises one, and
      by nothing if it is quiet. */
  ghost predicate ScoredBlock<O>(observations: seq<O>, detect: seq<O> -> Detection, start: int, block: nat, score: real)
  {
    && 0 <= start && start + block <= |observations|
    && var said := detect(observations[start..start + block]);
       said == Raised(score) || (said == Quiet && score == 0.0)
  }

  /** disjointSurprises: one score for each block, or nothing when the detector fails
      on one. */
  method DisjointSurprises<O>(observations: seq<O>, detect: seq<O> -> Detection, window: nat) returns (out: seq<real>)
    ensures AnyFails(observations, detect, window + 1) ==> out == []
    ensures !AnyFails(observations, detect, window + 1) ==>
              && |out| == |observations| / (window + 1)
              && forall k :: 0 <= k < |out| ==> out[k] == Score(Judged(observations, detect, window + 1, k))
    ensures out != [] ==>
              var block := window + 1;
              && |out| == |observations| / block
              && forall k :: 0 <= k < |out| ==>
                   ScoredBlock(observations, detect, |observations| % block + k * block, block, out[k])
  {
    out := [];
    var block := window + 1;
    var start := |observations| % block;
    while start + block <= |observations|
      invariant |out| <= |observations| / block && start == BlockStart(|observations|, block, |out|)
      invariant forall k :: 0 <= k < |out| ==>
                  !Judged(observations, detect, block, k).Failed?
                  && out[k] == Score(Judged(observations, detect, block, k))
    {
      MoreBlocks(|observations|, block, |out|);
      BlockInRange(|observations|, block, |out|);
      var slice := observations[start..start + block];
      assert slice == BlockOf(observations, block, |out|);
      var advisory := detect(slice);
      assert advisory == Judged(observations, detect, block, |out|);
      if advisory.Failed? {
        return [];
      }
      if advisory.Quiet? {
        out := out + [0.0];
      } else {
        out := out + [advisory.surprise];
      }
      start := start + block;
    }
    if |out| < |observations| / block {
      BlockInRange(|observations|, block, |out|);
    }
    forall k | 0 <= k < |out|
      ensures ScoredBlock(observations, detect, |observations| % block + k * block, block, out[k]) {
      BlockInRange(|observations|, block, k);
      assert BlockStart(|observations|, block, k) == |observations| % block + k * block;
      assert !Judged(observations, detect, block, k).Failed?;
    }
  }

  lemma MoreBlocks(length: nat, block: nat, k: int)
    requires block > 0 && BlockStart(length, block, k) + block <= length
    ensures k < length / block
  {
    assert length == length / block * block + length % block;
    if k >= length / block {
      Arithmetic.Multiplied(length / block, k, block);
    }
  }

  // ----- the quantile of the scores -------------------------------------------------------------

  predicate Ascending(s: seq<real>) {
    forall i, j :: 0 <= i < j < |s| ==> s[i] <= s[j]
  }

  function InsertAscending(s: seq<real>, x: real): seq<real> {
    if s == [] || x <= s[0] then [x] + s else [s[0]] + InsertAscending(s[1..], x)
  }

  /** slices.Sort, of a copy. */
  function Sorted(s: seq<real>): seq<real> {
    if s == [] then [] else InsertAscending(Sorted(s[1..]), s[0])
  }

  /** How many of the values exceed the bound; how many reach it. */
  function Exceeding(s: seq<real>, bound: real): nat {
    if s == [] then 0 else (if s[0] > bound then 1 else 0) + Exceeding(s[1..], bound)
  }

  function Reaching(s: seq<real>, bound: real): nat {
    if s == [] then 0 else (if s[0] >= bound then 1 else 0) + Reaching(s[1..], bound)
  }

  lemma {:induction false} InsertKeeps(s: seq<real>, x: real, bound: real)
    ensures var more := InsertAscending(s, x);
            && |more| == |s| + 1
            && Exceeding(more, bound) == Exceeding(s, bound) + (if x > bound then 1 else 0)
            && Reaching(more, bound) == Reaching(s, bound) + (if x >= bound then 1 else 0)
  {
    if s == [] || x <= s[0] {
      assert ([x] + s)[1..] == s;
    } else {
      InsertKeeps(s[1..], x, bound);
      assert ([s[0]] + InsertAscending(s[1..], x))[1..] == InsertAscending(s[1..], x);
    }
  }

  ghost predicate AllReach(s: seq<real>, bound: real) {
    forall k :: 0 <= k < |s| ==> s[k] >= bound
  }

  lemma {:induction false} InsertReaches(s: seq<real>, x: real, bound: real)
    requires AllReach(s, bound) && x >= bound
    ensures AllReach(InsertAscending(s, x), bound)
  {
    if s != [] && x > s[0] {
      InsertReaches(s[1..], x, bound);
    }
  }

  lemma {:induction false} InsertAscends(s: seq<real>, x: real)
    requires Ascending(s)
    ensures Ascending(InsertAscending(s, x))
  {
    if s != [] && x > s[0] {
      InsertAscends(s[1..], x);
      assert AllReach(s[1..], s[0]);
      InsertReaches(s[1..], x, s[0]);
    }
  }

  /** Sorting counts alike, and ascends. */
  lemma {:induction false} SortedKeeps(s: seq<real>, bound: real)
    ensures |Sorted(s)| == |s| && Ascending(Sorted(s))
    ensures Exceeding(Sorted(s), bound) == Exceeding(s, bound)
    ensures Reaching(Sorted(s), bound) == Reaching(s, bound)
  {
    if s != [] {
      SortedKeeps(s[1..], bound);
      InsertKeeps(Sorted(s[1..]), s[0], bound);
      InsertAscends(Sorted(s[1..]), s[0]);
    }
  }

  /** In ascending order, at most those past i exceed the i-th, and all from i reach it. */
  lemma {:induction false} CountsPast(s: seq<real>, i: nat, bound: real)
    requires Ascending(s) && i < |s| && s[i] == bound
    ensures Exceeding(s, bound) <= |s| - 1 - i && Reaching(s, bound) >= |s| - i
  {
    if i == 0 {
      AllReachCount(s, bound);
      ExceedingIsFew(s[1..], bound);
    } else {
      CountsPast(s[1..], i - 1, bound);
    }
  }

  lemma {:induction false} AllReachCount(s: seq<real>, bound: real)
    requires AllReach(s, bound)
    ensures Reaching(s, bound) == |s|
  {
    if s != [] {
      AllReachCount(s[1..], bound);
    }
  }

  lemma {:induction false} ExceedingIsFew(s: seq<real>, bound: real)
    ensures Exceeding(s, bound) <= |s|
  {
    if s != [] {
      ExceedingIsFew(s[1..], bound);
    }
  }

  /** empiricalQuantile. */
  function EmpiricalQuantile(values: seq<real>, q: real): real {
    if values == [] then 0.0
    else
      SortedKeeps(values, 0.0);
      var index := Ceil(q * |values| as real) - 1;
      Sorted(values)[if index < 0 then 0 else if index >= |values| then |values| - 1 else index]
  }

  /** At most the budget's share of the scores exceed the quantile above which the
      budget lies, and no fewer than one more reach it. */
  lemma ThresholdIsTight(values: seq<real>, budget: real, threshold: real)
    requires Budget(budget) && values != [] && threshold == EmpiricalQuantile(values, 1.0 - budget)
    ensures Tight(values, budget, threshold)
  {
    QuantileIndex(|values|, budget);
    var i := |values| - Share(budget, |values|) - 1;
    QuantileIsAt(values, 1.0 - budget, i);
    SortedKeeps(values, threshold);
    CountsPast(Sorted(values), i, threshold);
  }

  ghost predicate Tight(values: seq<real>, budget: real, threshold: real) {
    Exceeding(values, threshold) <= Share(budget, |values|) < Reaching(values, threshold)
  }

  function Share(budget: real, n: nat): int {
    (budget * n as real).Floor
  }

  lemma QuantileIsAt(values: seq<real>, q: real, i: int)
    requires 0 <= i < |values| && Ceil(q * |values| as real) - 1 == i
    ensures |Sorted(values)| == |values| && EmpiricalQuantile(values, q) == Sorted(values)[i]
  {
    SortedKeeps(values, 0.0);
  }

  /** Of any share: nothing of no values, and else the value in ascending order that the
      share falls on, the least below it and the greatest above. */
  lemma QuantileExactly(values: seq<real>, q: real)
    ensures values == [] ==> EmpiricalQuantile(values, q) == 0.0
    ensures values != [] ==>
              var at := Ceil(q * |values| as real) - 1;
              var i := if at < 0 then 0 else if at >= |values| then |values| - 1 else at;
              var found := EmpiricalQuantile(values, q);
              Exceeding(values, found) <= |values| - 1 - i && Reaching(values, found) >= |values| - i
  {
    if values != [] {
      var at := Ceil(q * |values| as real) - 1;
      var i := if at < 0 then 0 else if at >= |values| then |values| - 1 else at;
      SortedKeeps(values, 0.0);
      SortedKeeps(values, Sorted(values)[i]);
      CountsPast(Sorted(values), i, Sorted(values)[i]);
    }
  }

  /** One value more counts if it exceeds the bound, or reaches it. */
  lemma {:induction false} CountsMore(s: seq<real>, x: real, bound: real)
    ensures Exceeding(s + [x], bound) == Exceeding(s, bound) + if x > bound then 1 else 0
    ensures Reaching(s + [x], bound) == Reaching(s, bound) + if x >= bound then 1 else 0
  {
    if s == [] {
      assert s + [x] == [x] && [x][1..] == [];
    } else {
      assert (s + [x])[1..] == s[1..] + [x];
      CountsMore(s[1..], x, bound);
    }
  }

  lemma QuantileIndex(n: nat, budget: real)
    requires Budget(budget) && n > 0
    ensures 0 <= Share(budget, n) < n && Ceil((1.0 - budget) * n as real) - 1 == n - Share(budget, n) - 1
  {
    var x := FractionOf(budget, n as real);
    var y := RestOf(budget, n as real);
    IndexOfFraction(n, x, y);
  }

  lemma IndexOfFraction(n: nat, x: real, y: real)
    requires 0.0 < x < n as real && y == n as real - x
    ensures 0 <= x.Floor < n && Ceil(y) - 1 == n - x.Floor - 1
  {
    CeilOfDifference(n, x);
  }

  lemma FractionOf(a: real, c: real) returns (x: real)
    requires 0.0 < a < 1.0 && c > 0.0
    ensures x == a * c && 0.0 < x < c
  {
    x := a * c;
    ScaledBelow(0.0, a, c, 0.0, x);
    ScaledBelow(a, 1.0, c, x, c);
  }

  lemma ScaledBelow(a: real, b: real, c: real, x: real, y: real)
    requires a < b && c > 0.0 && x == a * c && y == b * c
    ensures x < y
  {
    Scaled(a, b, c);
  }

  lemma RestOf(a: real, c: real) returns (y: real)
    ensures y == (1.0 - a) * c && y == c - a * c
  {
    y := (1.0 - a) * c;
  }

  lemma CeilOfDifference(n: int, x: real)
    ensures Ceil(n as real - x) == n - x.Floor
  {
    assert -(n as real - x) == x - n as real;
  }

  // ----- run's use of them --------------------------------------------------------------------

  datatype Outcome = Calibrating | TooFewScores | Armed(threshold: real)

  /** The part of run between the history and the verdict on its latest window; smallest
      stands for the least positive number there is. */
  method Calibrate<O>(observations: seq<O>, detect: seq<O> -> Detection, budget: real, smallest: real)
      returns (outcome: Outcome, latest: seq<O>)
    requires Budget(budget) && smallest > 0.0
    ensures var plan := PlanCalibration(|observations|, budget);
            && (outcome == Calibrating <==> |observations| < plan.requiredObservations)
            && (outcome.Armed? <==> |observations| >= plan.requiredObservations
                                    && !AnyFails(observations[..plan.latestStart], detect, plan.window + 1))
            && (outcome.Armed? ==> && outcome.threshold > 0.0
                                   && latest == observations[plan.latestStart..] && |latest| == plan.window + 1
                                   && IsThreshold(observations[..plan.latestStart], detect, budget, plan, smallest,
                                                  outcome.threshold))
  {
    var plan := PlanCalibration(|observations|, budget);
    SufficientIsEnough(|observations|, budget, plan.window);
    latest := [];
    if !plan.Sufficient() {
      return Calibrating, latest;
    }
    var past := observations[..plan.latestStart];
    var surprises := DisjointSurprises(past, detect, plan.window);
    if |surprises| < plan.requiredScores {
      return TooFewScores, latest;
    }
    var threshold := EmpiricalQuantile(surprises, 1.0 - budget);
    ThresholdIsTight(surprises, budget, threshold);
    if threshold <= 0.0 {
      threshold := smallest;
    }
    latest := observations[plan.latestStart..];
    outcome := Armed(threshold);
  }

  /** The threshold over the scores of all the blocks there are: tight, or else the
      smallest there is where that is not positive. */
  ghost predicate IsThreshold<O>(past: seq<O>, detect: seq<O> -> Detection, budget: real, plan: Plan, smallest: real,
                                 threshold: real)
  {
    exists scores: seq<real>, tight: real ::
      && ScoresOf(past, detect, plan.window + 1, scores) && Tight(scores, budget, tight)
      && |scores| == plan.availableScores
      && threshold == if tight <= 0.0 then smallest else tight
  }

  ghost predicate ScoresOf<O>(past: seq<O>, detect: seq<O> -> Detection, block: nat, scores: seq<real>)
    requires block > 0
  {
    && |scores| == |past| / block
    && forall k :: 0 <= k < |scores| ==> scores[k] == Score(Judged(past, detect, block, k))
  }

  lemma {:induction false} CountsFall(s: seq<real>, low: real, high: real)
    requires low <= high
    ensures Exceeding(s, high) <= Exceeding(s, low) && Reaching(s, high) <= Reaching(s, low)
    ensures low < high ==> Reaching(s, high) <= Exceeding(s, low)
  {
    if s != [] {
      CountsFall(s[1..], low, high);
    }
  }

  /** No other threshold is tight. */
  lemma TightIsOne(values: seq<real>, budget: real, a: real, b: real)
    requires Tight(values, budget, a) && Tight(values, budget, b)
    ensures a == b
  {
    if a < b {
      CountsFall(values, a, b);
    } else if b < a {
      CountsFall(values, b, a);
    }
  }

  /** An armed threshold is exceeded by at most the budget's share of the scores. */
  lemma ArmedIsWithinBudget<O>(past: seq<O>, detect: seq<O> -> Detection, budget: real, plan: Plan, smallest: real,
                               threshold: real) returns (scores: seq<real>)
    requires IsThreshold(past, detect, budget, plan, smallest, threshold) && smallest > 0.0
    ensures ScoresOf(past, detect, plan.window + 1, scores) && Exceeding(scores, threshold) <= Share(budget, |scores|)
  {
    var tight;
    scores, tight :| ScoresOf(past, detect, plan.window + 1, scores) && Tight(scores, budget, tight)
                     && |scores| == plan.availableScores && threshold == if tight <= 0.0 then smallest else tight;
    CountsFall(scores, tight, threshold);
  }
}
