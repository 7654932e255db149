/** The token budgets of one frame, measured in estimator units and in real tokens. */
module ContextBudget {
  import opened Results

  const DEFAULT_OUTPUT_TOKEN_RESERVE: int := 8000
  const CONTEXT_SAFETY_MARGIN_RATIO: real := 0.02
  const CONTEXT_SAFETY_MARGIN_FLOOR: int := 512
  const DEFAULT_LOOKBACK: nat := 10
  const DEFAULT_MIN_SAMPLES: nat := 3

  function Max(a: int, b: int): int {
    if a >= b then a else b
  }

  function Min(a: int, b: int): int {
    if a <= b then a else b
  }

  // ----- inflation -----

  /** A turn's estimate and its true cost; none for an absent number. */
  datatype TurnRow = TurnRow(estimated: Option<real>, actual: Option<real>)

  /** The turn's actual-to-estimated ratio, if it has both and the estimate is positive. */
  function Sample(row: TurnRow): Option<real> {
    if row.actual.Some? && row.estimated.Some? && row.estimated.value > 0.0
    then Some(row.actual.value / row.estimated.value) else None
  }

  function Samples(rows: seq<TurnRow>): seq<real> {
    if rows == [] then []
    else
      var sample := Sample(rows[|rows| - 1]);
      Samples(rows[..|rows| - 1]) + if sample.Some? then [sample.value] else []
  }

  function Sum(xs: seq<real>): real {
    if xs == [] then 0.0 else Sum(xs[..|xs| - 1]) + xs[|xs| - 1]
  }

  function Window(rows: seq<TurnRow>): seq<TurnRow> {
    if |rows| <= DEFAULT_LOOKBACK then rows else rows[..DEFAULT_LOOKBACK]
  }

  /** `turns` is newest first. */
  method ComputeInflationRatio(turns: seq<TurnRow>) returns (ratio: Option<real>)
    ensures ratio == Inflation(turns)
  {
    var rows := Window(turns);
    var ratios: seq<real> := [];
    for i := 0 to |rows|
      invariant ratios == Samples(rows[..i])
    {
      assert rows[..i + 1][..i] == rows[..i];
      var estimated := if rows[i].estimated.Some? then rows[i].estimated.value else 0.0;
      if rows[i].actual == None { continue; }
      if estimated <= 0.0 { continue; }
      ratios := ratios + [rows[i].actual.value / estimated];
    }
    assert rows[..|rows|] == rows;
    if |ratios| < DEFAULT_MIN_SAMPLES { return None; }
    var sum := 0.0;
    for i := 0 to |ratios|
      invariant sum == Sum(ratios[..i])
    {
      assert ratios[..i + 1][..i] == ratios[..i];
      sum := sum + ratios[i];
    }
    assert ratios[..|ratios|] == ratios;
    return Some(sum / |ratios| as real);
  }

  function Inflation(turns: seq<TurnRow>): Option<real> {
    var ratios := Samples(Window(turns));
    if |ratios| < DEFAULT_MIN_SAMPLES then None else Some(Sum(ratios) / |ratios| as real)
  }

  lemma {:induction false} SumBounds(xs: seq<real>, low: real, high: real)
    requires forall i :: 0 <= i < |xs| ==> low <= xs[i] <= high
    ensures low * |xs| as real <= Sum(xs) <= high * |xs| as real
  {
    if xs != [] {
      SumBounds(xs[..|xs| - 1], low, high);
      assert |xs| as real == |xs[..|xs| - 1]| as real + 1.0;
    }
  }

  lemma {:induction false} SampleOf(rows: seq<TurnRow>, i: nat) returns (k: nat)
    requires i < |Samples(rows)|
    ensures k < |rows| && Sample(rows[k]) == Some(Samples(rows)[i])
  {
    var front := rows[..|rows| - 1];
    if i < |Samples(front)| {
      k := SampleOf(front, i);
    } else {
      k := |rows| - 1;
    }
  }

  /** The measured inflation lies between the smallest and the largest of the recent samples. */
  lemma InflationIsAMean(turns: seq<TurnRow>, low: real, high: real)
    requires Inflation(turns).Some?
    requires forall row :: row in Window(turns) && Sample(row).Some? ==> low <= Sample(row).value <= high
    ensures low <= Inflation(turns).value <= high
  {
    var ratios := Samples(Window(turns));
    forall i | 0 <= i < |ratios| ensures low <= ratios[i] <= high {
      var k := SampleOf(Window(turns), i);
      assert Window(turns)[k] in Window(turns);
    }
    SumBounds(ratios, low, high);
    var n := |ratios| as real;
    DivideBounds(Sum(ratios), n, low, high);
  }

  lemma DivideBounds(sum: real, n: real, low: real, high: real)
    requires n > 0.0 && low * n <= sum <= high * n
    ensures low <= sum / n <= high
  {
    var q := sum / n;
    assert q * n == sum;
    assert q < low ==> q * n < low * n;
    assert q > high ==> q * n > high * n;
  }

  /** A turn's sample is the ratio by which its estimate must be scaled to give the true cost. */
  lemma SampleExact(row: TurnRow)
    ensures Sample(row).Some? <==> row.actual.Some? && row.estimated.Some? && row.estimated.value > 0.0
    ensures Sample(row).Some? ==> Sample(row).value * row.estimated.value == row.actual.value
  {
  }

  lemma {:induction false} SamplesAddUp(a: seq<TurnRow>, b: seq<TurnRow>)
    ensures Samples(a + b) == Samples(a) + Samples(b)
  {
    if b == [] {
      assert a + b == a;
    } else {
      var front := b[..|b| - 1];
      SamplesAddUp(a, front);
      assert (a + b)[..|a + b| - 1] == a + front;
    }
  }

  lemma {:induction false} SumAddsUp(a: seq<real>, b: seq<real>)
    ensures Sum(a + b) == Sum(a) + Sum(b)
  {
    if b == [] {
      assert a + b == a;
    } else {
      var front := b[..|b| - 1];
      SumAddsUp(a, front);
      assert (a + b)[..|a + b| - 1] == a + front;
    }
  }

  lemma OneSample(row: TurnRow)
    ensures Samples([row]) == if Sample(row).Some? then [Sample(row).value] else []
    ensures Sum(Samples([row])) == if Sample(row).Some? then Sample(row).value else 0.0
  {
    assert [row][..0] == [];
    if Sample(row).Some? {
      var x := Sample(row).value;
      assert Samples([row]) == [x];
      assert [x][..0] == [];
      assert Sum([x]) == x;
    }
  }

  /** Each further turn adds its sample, if it has one, to the samples and to their sum. */
  lemma OneMoreTurn(rows: seq<TurnRow>, row: TurnRow)
    ensures Samples(rows + [row]) == Samples(rows) + if Sample(row).Some? then [Sample(row).value] else []
    ensures Sum(Samples(rows + [row])) == Sum(Samples(rows)) + if Sample(row).Some? then Sample(row).value else 0.0
  {
    SamplesAddUp(rows, [row]);
    SumAddsUp(Samples(rows), Samples([row]));
    OneSample(row);
  }

  /** The inflation is the mean of the samples among the ten newest turns, from three on. */
  lemma InflationExact(turns: seq<TurnRow>)
    ensures var samples := Samples(turns[..if |turns| < 10 then |turns| else 10]);
      if |samples| < 3 then Inflation(turns) == None
      else Inflation(turns).Some? && Inflation(turns).value * |samples| as real == Sum(samples)
  {
    assert turns[..|turns|] == turns;
  }

  // ----- the targets -----

  function ComputeBaseTruncationTarget(contextWindow: int, maxOutputTokens: Option<int>): int {
    Max(0, contextWindow - Reserve(maxOutputTokens))
  }

  function Reserve(maxOutputTokens: Option<int>): int {
    if maxOutputTokens.Some? then maxOutputTokens.value else DEFAULT_OUTPUT_TOKEN_RESERVE
  }

  function ComputeSafetyMargin(contextWindow: int): int {
    Max(CONTEXT_SAFETY_MARGIN_FLOOR, (contextWindow as real * CONTEXT_SAFETY_MARGIN_RATIO).Floor)
  }

  /** The factor by which real tokens exceed estimated ones, never below one. */
  function Factor(inflation: Option<real>): (r: real)
    ensures r >= 1.0
  {
    if inflation.Some? && inflation.value > 1.0 then inflation.value else 1.0
  }

  function ResolveAdaptiveTruncationTarget(baseTarget: int, inflation: Option<real>): int {
    if inflation == None then baseTarget else Max(0, (baseTarget as real / Factor(inflation)).Floor)
  }

  function RecentHardCeilingDeflator(inflation: Option<real>): real {
    if inflation.Some? then (if 1.0 <= 1.0 / Factor(inflation) then 1.0 else 1.0 / Factor(inflation)) else 1.0
  }

  function EffectiveBudget(contextWindow: int): int {
    Max(0, contextWindow - ComputeSafetyMargin(contextWindow))
  }

  /** The soft target, clamped to the physical budget. */
  function TruncationTarget(contextWindow: int, maxOutputTokens: Option<int>, inflation: Option<real>): int {
    Min(ResolveAdaptiveTruncationTarget(ComputeBaseTruncationTarget(contextWindow, maxOutputTokens), inflation),
        EffectiveBudget(contextWindow))
  }

  /** `fixed` is the cost of the system messages, the stable prefix, the tools and the tail. */
  function HistoryBudget(contextWindow: int, maxOutputTokens: Option<int>, inflation: Option<real>, fixed: nat): int {
    Max(0, TruncationTarget(contextWindow, maxOutputTokens, inflation) - fixed)
  }

  function RecentHardCeiling(contextWindow: int, inflation: Option<real>, fixed: nat): int {
    Max(0, ((EffectiveBudget(contextWindow) - fixed) as real * RecentHardCeilingDeflator(inflation)).Floor)
  }

  // ----- how they relate -----

  /** What a budget of `tokens` real tokens is worth in estimator units. */
  function Deflated(tokens: int, r: real): int
    requires r >= 1.0
  {
    (tokens as real / r).Floor
  }

  lemma DeflatedExact(tokens: int, r: real, n: int)
    requires r >= 1.0
    ensures n <= Deflated(tokens, r) <==> n as real * r <= tokens as real
  {
    var q := tokens as real / r;
    assert q * r == tokens as real;
    if n <= q.Floor {
      assert n as real <= q;
      assert n as real * r <= q * r;
    } else {
      assert n as real > q;
      assert n as real * r > q * r;
    }
  }

  lemma CeilingIsDeflated(contextWindow: int, inflation: Option<real>, fixed: nat)
    ensures RecentHardCeiling(contextWindow, inflation, fixed)
         == Max(0, Deflated(EffectiveBudget(contextWindow) - fixed, Factor(inflation)))
  {
    var x, r := (EffectiveBudget(contextWindow) - fixed) as real, Factor(inflation);
    assert 1.0 / r <= 1.0;
    assert RecentHardCeilingDeflator(inflation) == 1.0 / r;
    assert x * (1.0 / r) == x / r by { assert (x * (1.0 / r)) * r == x; }
  }

  lemma TargetIsDeflated(contextWindow: int, maxOutputTokens: Option<int>, inflation: Option<real>)
    ensures ResolveAdaptiveTruncationTarget(ComputeBaseTruncationTarget(contextWindow, maxOutputTokens), inflation)
         == Deflated(ComputeBaseTruncationTarget(contextWindow, maxOutputTokens), Factor(inflation))
  {
    var base := ComputeBaseTruncationTarget(contextWindow, maxOutputTokens);
    DeflatedExact(base, Factor(inflation), 0);
    if inflation == None { assert (base as real / 1.0).Floor == base; }
  }

  /** The margin is a fiftieth of the window, rounded down, but at least 512 tokens. */
  lemma MarginExact(contextWindow: int)
    ensures var m := ComputeSafetyMargin(contextWindow);
      && m >= 512
      && 50 * (m + 1) > contextWindow
      && (m > 512 ==> 50 * m <= contextWindow)
  {
    var share := contextWindow as real * 0.02;
    assert share * 50.0 == contextWindow as real;
    assert share.Floor as real <= share < share.Floor as real + 1.0;
  }

  /** A prompt of `n` estimated tokens is within the target exactly when, inflated, it leaves the
      output reserve, 8000 tokens where none is set, and when it leaves the safety margin. */
  lemma TargetExact(contextWindow: int, maxOutputTokens: Option<int>, inflation: Option<real>, n: int)
    requires n > 0
    ensures var factor := if inflation.Some? && inflation.value > 1.0 then inflation.value else 1.0;
            var reserve := if maxOutputTokens.Some? then maxOutputTokens.value else 8000;
      n <= TruncationTarget(contextWindow, maxOutputTokens, inflation)
      <==> n as real * factor + reserve as real <= contextWindow as real
           && n + ComputeSafetyMargin(contextWindow) <= contextWindow
  {
    var base := ComputeBaseTruncationTarget(contextWindow, maxOutputTokens);
    TargetIsDeflated(contextWindow, maxOutputTokens, inflation);
    DeflatedExact(base, Factor(inflation), n);
    assert n as real * Factor(inflation) > 0.0;
  }

  /** A positive history is within its budget exactly when, with the fixed costs, it is within
      the target. */
  lemma HistoryExact(contextWindow: int, maxOutputTokens: Option<int>, inflation: Option<real>, fixed: nat, history: nat)
    requires history > 0
    ensures history <= HistoryBudget(contextWindow, maxOutputTokens, inflation, fixed)
       <==> fixed + history <= TruncationTarget(contextWindow, maxOutputTokens, inflation)
  {
  }

  /** Subtracting costs from a deflated budget leaves no more than deflating what they leave. */
  lemma SubtractThenDeflate(tokens: int, fixed: nat, r: real)
    requires r >= 1.0
    ensures Deflated(tokens, r) - fixed <= Deflated(tokens - fixed, r)
  {
    var n := Deflated(tokens, r);
    DeflatedExact(tokens, r, n);
    assert fixed as real * r >= fixed as real;
    assert (n - fixed) as real * r == n as real * r - fixed as real * r;
    DeflatedExact(tokens - fixed, r, n - fixed);
  }

  ghost predicate SoftWithinHard(contextWindow: int, maxOutputTokens: Option<int>, inflation: Option<real>) {
    forall fixed: nat :: HistoryBudget(contextWindow, maxOutputTokens, inflation, fixed)
                      <= RecentHardCeiling(contextWindow, inflation, fixed)
  }

  lemma {:induction false} SoftBelowHard(contextWindow: int, maxOutputTokens: Option<int>, inflation: Option<real>, fixed: nat)
    requires TruncationTarget(contextWindow, maxOutputTokens, inflation)
          <= Deflated(EffectiveBudget(contextWindow), Factor(inflation))
    ensures HistoryBudget(contextWindow, maxOutputTokens, inflation, fixed)
         <= RecentHardCeiling(contextWindow, inflation, fixed)
  {
    CeilingIsDeflated(contextWindow, inflation, fixed);
    SubtractThenDeflate(EffectiveBudget(contextWindow), fixed, Factor(inflation));
  }

  lemma SoftAboveHardAtZero(contextWindow: int, maxOutputTokens: Option<int>, inflation: Option<real>)
    requires TruncationTarget(contextWindow, maxOutputTokens, inflation)
           > Deflated(EffectiveBudget(contextWindow), Factor(inflation))
    ensures HistoryBudget(contextWindow, maxOutputTokens, inflation, 0)
          > RecentHardCeiling(contextWindow, inflation, 0)
  {
    CeilingIsDeflated(contextWindow, inflation, 0);
    DeflatedExact(EffectiveBudget(contextWindow), Factor(inflation), 0);
  }

  lemma SoftWithinHardAsDeflated(contextWindow: int, maxOutputTokens: Option<int>, inflation: Option<real>)
    ensures SoftWithinHard(contextWindow, maxOutputTokens, inflation) <==>
      TruncationTarget(contextWindow, maxOutputTokens, inflation)
      <= Deflated(EffectiveBudget(contextWindow), Factor(inflation))
  {
    if TruncationTarget(contextWindow, maxOutputTokens, inflation)
        <= Deflated(EffectiveBudget(contextWindow), Factor(inflation)) {
      forall fixed: nat
        ensures HistoryBudget(contextWindow, maxOutputTokens, inflation, fixed)
             <= RecentHardCeiling(contextWindow, inflation, fixed)
      {
        SoftBelowHard(contextWindow, maxOutputTokens, inflation, fixed);
      }
    } else {
      SoftAboveHardAtZero(contextWindow, maxOutputTokens, inflation);
    }
  }

  /** Whatever the fixed costs, the soft history budget stays within the hard ceiling exactly
      when the clamped target is worth no more real tokens than the window safely holds. */
  lemma SoftWithinHardIff(contextWindow: int, maxOutputTokens: Option<int>, inflation: Option<real>)
    ensures SoftWithinHard(contextWindow, maxOutputTokens, inflation) <==>
      TruncationTarget(contextWindow, maxOutputTokens, inflation) as real * Factor(inflation)
      <= EffectiveBudget(contextWindow) as real
  {
    SoftWithinHardAsDeflated(contextWindow, maxOutputTokens, inflation);
    DeflatedExact(EffectiveBudget(contextWindow), Factor(inflation),
                  TruncationTarget(contextWindow, maxOutputTokens, inflation));
  }

  lemma TargetIsWorthAtMostBase(contextWindow: int, maxOutputTokens: Option<int>, inflation: Option<real>)
    ensures TruncationTarget(contextWindow, maxOutputTokens, inflation) as real * Factor(inflation)
         <= ComputeBaseTruncationTarget(contextWindow, maxOutputTokens) as real
  {
    TargetIsDeflated(contextWindow, maxOutputTokens, inflation);
    DeflatedExact(ComputeBaseTruncationTarget(contextWindow, maxOutputTokens), Factor(inflation),
                  TruncationTarget(contextWindow, maxOutputTokens, inflation));
  }

  /** An output reserve no smaller than the safety margin suffices. */
  lemma ReserveCoversMargin(contextWindow: int, maxOutputTokens: Option<int>, inflation: Option<real>)
    requires Reserve(maxOutputTokens) >= ComputeSafetyMargin(contextWindow)
    ensures SoftWithinHard(contextWindow, maxOutputTokens, inflation)
  {
    TargetIsWorthAtMostBase(contextWindow, maxOutputTokens, inflation);
    SoftWithinHardIff(contextWindow, maxOutputTokens, inflation);
  }

  /** Without one the soft budget can exceed the ceiling: no output reserve, inflation two. */
  lemma SoftAboveHard()
    ensures HistoryBudget(100000, Some(0), Some(2.0), 0) > RecentHardCeiling(100000, Some(2.0), 0)
    ensures !SoftWithinHard(100000, Some(0), Some(2.0))
  {
    assert ComputeSafetyMargin(100000) == 2000;
    assert RecentHardCeiling(100000, Some(2.0), 0) == 49000;
    assert HistoryBudget(100000, Some(0), Some(2.0), 0) == 50000;
  }

  /** A recent tier within a positive ceiling, inflated to real tokens, fits the window beside
      the fixed costs. */
  lemma RecentFitsWindow(contextWindow: int, inflation: Option<real>, fixed: nat, recent: nat)
    requires RecentHardCeiling(contextWindow, inflation, fixed) > 0
    ensures recent <= RecentHardCeiling(contextWindow, inflation, fixed)
       <==> fixed as real + recent as real * Factor(inflation) <= EffectiveBudget(contextWindow) as real
  {
    CeilingIsDeflated(contextWindow, inflation, fixed);
    DeflatedExact(EffectiveBudget(contextWindow) - fixed, Factor(inflation), recent);
  }

  /** A prompt within the soft target, fixed costs included and all of it inflated, leaves the
      model its whole output reserve. */
  lemma OutputReserveIsKept(
    contextWindow: int, maxOutputTokens: Option<int>, inflation: Option<real>, fixed: nat, history: nat)
    requires fixed + history <= TruncationTarget(contextWindow, maxOutputTokens, inflation)
    requires fixed + history > 0
    ensures (fixed + history) as real * Factor(inflation) + Reserve(maxOutputTokens) as real <= contextWindow as real
  {
    TargetIsDeflated(contextWindow, maxOutputTokens, inflation);
    DeflatedExact(ComputeBaseTruncationTarget(contextWindow, maxOutputTokens), Factor(inflation), fixed + history);
    assert (fixed + history) as real * Factor(inflation) >= (fixed + history) as real;
  }

  /** So does any history that fits a positive history budget. */
  lemma {:induction false} HistoryBudgetIsSound(
    contextWindow: int, maxOutputTokens: Option<int>, inflation: Option<real>, fixed: nat, history: nat)
    requires 0 < history <= HistoryBudget(contextWindow, maxOutputTokens, inflation, fixed)
    ensures (fixed + history) as real * Factor(inflation) + Reserve(maxOutputTokens) as real <= contextWindow as real
  {
    OutputReserveIsKept(contextWindow, maxOutputTokens, inflation, fixed, history);
  }

  /** Where the fixed costs inflate as well: a recent tier fits the window beside them exactly
      up to the deflated budget less the fixed costs. */
  lemma WholePromptFitsIff(contextWindow: int, inflation: Option<real>, fixed: nat, recent: nat)
    ensures (fixed + recent) as real * Factor(inflation) <= EffectiveBudget(contextWindow) as real
       <==> recent <= Deflated(EffectiveBudget(contextWindow), Factor(inflation)) - fixed
  {
    DeflatedExact(EffectiveBudget(contextWindow), Factor(inflation), fixed + recent);
  }

  /** The hard ceiling scales the recent tier only, and is never below that bound. A tier at
      the ceiling leaves room for inflated fixed costs exactly when it equals the bound, that
      is when rounding absorbs what the fixed costs inflate by. */
  lemma {:induction false} TierAtCeilingFitsIff(contextWindow: int, inflation: Option<real>, fixed: nat)
    ensures var recent := RecentHardCeiling(contextWindow, inflation, fixed);
            var room := Deflated(EffectiveBudget(contextWindow), Factor(inflation)) - fixed;
      && room <= recent
      && ((fixed + recent) as real * Factor(inflation) <= EffectiveBudget(contextWindow) as real <==> recent == room)
  {
    var effective, r := EffectiveBudget(contextWindow), Factor(inflation);
    CeilingIsDeflated(contextWindow, inflation, fixed);
    SubtractThenDeflate(effective, fixed, r);
    WholePromptFitsIff(contextWindow, inflation, fixed, RecentHardCeiling(contextWindow, inflation, fixed));
  }

  /** Without measured inflation above one a positive ceiling always leaves that room. */
  lemma NoInflationFits(contextWindow: int, inflation: Option<real>, fixed: nat)
    requires Factor(inflation) == 1.0 && RecentHardCeiling(contextWindow, inflation, fixed) > 0
    ensures (fixed + RecentHardCeiling(contextWindow, inflation, fixed)) as real * Factor(inflation)
         <= EffectiveBudget(contextWindow) as real
  {
    CeilingIsDeflated(contextWindow, inflation, fixed);
  }

  /** An input that does not: a tier at the ceiling, whose fixed costs inflate too. */
  lemma FixedCostsInflateToo()
    ensures var recent := RecentHardCeiling(100000, Some(2.0), 20000);
      (20000 + recent) as real * Factor(Some(2.0)) > EffectiveBudget(100000) as real
  {
    assert ComputeSafetyMargin(100000) == 2000;
    assert RecentHardCeiling(100000, Some(2.0), 20000) == 39000;
  }
}
