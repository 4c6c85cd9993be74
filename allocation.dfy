/** Allocation arithmetic: target values from weights, the underweight split
    of buy.js (166-182), the weight-proportional spend of main.js (125) and
    the unclamped deltas of calculateCurrentAndTargetAssetAllocation.js
    (99-106). Every map here is keyed by the tracked symbols and every sum
    runs over them in configuration order. */
module Allocation {
  import opened Wrappers
  import opened Numeric
  import opened Products

  /* ---------------- targets ---------------- */

  /** `totalInvestedValue * relativeMarketCaps[symbol]` for each tracked symbol. */
  function TargetMap(tracked: seq<Symbol>, total: real, weights: map<Symbol, real>): (t: map<Symbol, real>)
    requires Covers(tracked, weights)
    ensures forall s :: s in t <==> s in tracked
    ensures forall i :: 0 <= i < |tracked| ==> tracked[i] in t && t[tracked[i]] == total * weights[tracked[i]]
  {
    map s | s in tracked :: total * weights[s]
  }

  /** When the weights sum to 1, the targets sum to the invested total. */
  lemma TargetsSumToTotal(tracked: seq<Symbol>, total: real, weights: map<Symbol, real>)
    requires Covers(tracked, weights) && SumOver(tracked, weights) == 1.0
    ensures SumOver(tracked, TargetMap(tracked, total, weights)) == total
  {
    SumOverScale(tracked, weights, TargetMap(tracked, total, weights), total, 1.0);
  }

  /* ---------------- buy.js: underweight amounts ---------------- */

  /** `Math.max(target - current, 0)`: how far a symbol is below its target. */
  function Deficit(target: real, current: real): (u: real)
    ensures u >= 0.0
    ensures u == 0.0 <==> current >= target
    ensures u > 0.0 ==> u + current == target
  {
    Max(target - current, 0.0)
  }

  function UnderweightMap(tracked: seq<Symbol>, total: real, weights: map<Symbol, real>, values: map<Symbol, real>)
    : (u: map<Symbol, real>)
    requires Covers(tracked, weights) && Covers(tracked, values)
    ensures forall s :: s in u <==> s in tracked
    ensures forall i :: 0 <= i < |tracked| ==>
              tracked[i] in u && u[tracked[i]] == Deficit(total * weights[tracked[i]], values[tracked[i]])
  {
    map s | s in tracked :: Deficit(total * weights[s], values[s])
  }

  lemma UnderweightStep(tracked: seq<Symbol>, total: real, weights: map<Symbol, real>, values: map<Symbol, real>, i: nat)
    requires Covers(tracked, weights) && Covers(tracked, values) && i < |tracked|
    ensures var u := UnderweightMap(tracked, total, weights, values);
            && Covers(tracked[..i], u) && Covers(tracked[..i + 1], u)
            && SumOver(tracked[..i + 1], u) == SumOver(tracked[..i], u) + Deficit(total * weights[tracked[i]], values[tracked[i]])
  {
    SumOverStep(tracked, UnderweightMap(tracked, total, weights, values), i);
  }

  /** buy.js:168-176: record each tracked symbol's deficit and accumulate
      their total. */
  method AmountsUnderweight(tracked: seq<Symbol>, total: real, weights: map<Symbol, real>, values: map<Symbol, real>)
    returns (amountsUnderweight: map<Symbol, real>, totalUnderweight: real)
    requires Covers(tracked, weights) && Covers(tracked, values)
    ensures amountsUnderweight == UnderweightMap(tracked, total, weights, values)
    ensures totalUnderweight == SumOver(tracked, amountsUnderweight)
  {
    ghost var deficits := UnderweightMap(tracked, total, weights, values);
    totalUnderweight := 0.0;
    amountsUnderweight := map[];
    for i := 0 to |tracked|
      invariant forall s :: s in amountsUnderweight <==> s in tracked[..i]
      invariant forall s :: s in amountsUnderweight ==> amountsUnderweight[s] == deficits[s]
      invariant totalUnderweight == SumOver(tracked[..i], deficits)
    {
      var underweightAmount := Deficit(total * weights[tracked[i]], values[tracked[i]]);
      UnderweightStep(tracked, total, weights, values, i);
      assert tracked[..i + 1] == tracked[..i] + [tracked[i]];
      assert underweightAmount == deficits[tracked[i]];
      amountsUnderweight := amountsUnderweight[tracked[i] := underweightAmount];
      totalUnderweight := totalUnderweight + underweightAmount;
    }
    assert tracked[..|tracked|] == tracked;
    MapsAgree(tracked, amountsUnderweight, deficits);
  }

  /** Every deficit is non-negative, zero exactly for a symbol at or above its
      target, and the deficits sum to a non-negative total of which each is a part. */
  lemma DeficitsBounded(tracked: seq<Symbol>, total: real, weights: map<Symbol, real>, values: map<Symbol, real>, j: nat)
    requires Covers(tracked, weights) && Covers(tracked, values) && j < |tracked|
    ensures var u := UnderweightMap(tracked, total, weights, values);
            && 0.0 <= u[tracked[j]] <= SumOver(tracked, u)
            && (u[tracked[j]] == 0.0 <==> values[tracked[j]] >= total * weights[tracked[j]])
  {
    var u := UnderweightMap(tracked, total, weights, values);
    SumOverTerm(tracked, u, j);
  }

  /** When the weights sum to 1 and the invested total is the sum of the
      tracked values, a zero total deficit means every tracked symbol sits
      exactly at its target: the total is positive unless the portfolio is
      already balanced. */
  lemma NoDeficitMeansBalanced(tracked: seq<Symbol>, total: real, weights: map<Symbol, real>, values: map<Symbol, real>, j: nat)
    requires Covers(tracked, weights) && Covers(tracked, values) && j < |tracked|
    requires SumOver(tracked, weights) == 1.0 && total == SumOver(tracked, values)
    requires SumOver(tracked, UnderweightMap(tracked, total, weights, values)) == 0.0
    ensures values[tracked[j]] == total * weights[tracked[j]]
  {
    var deltas := DeltaMap(tracked, total, weights, values);
    DeltasNonPositive(tracked, total, weights, values);
    DeltasSumToZero(tracked, total, weights, values);
    SumOverZeroNonPositive(tracked, deltas, j);
    DeltasBalance(tracked, total, weights, values, j);
  }

  /** When the deficits sum to 0, no symbol is below its target. */
  lemma DeltasNonPositive(tracked: seq<Symbol>, total: real, weights: map<Symbol, real>, values: map<Symbol, real>)
    requires Covers(tracked, weights) && Covers(tracked, values)
    requires SumOver(tracked, UnderweightMap(tracked, total, weights, values)) == 0.0
    ensures forall i :: 0 <= i < |tracked| ==> DeltaMap(tracked, total, weights, values)[tracked[i]] <= 0.0
  {
    forall i | 0 <= i < |tracked| ensures DeltaMap(tracked, total, weights, values)[tracked[i]] <= 0.0 {
      NoDeficitAt(tracked, total, weights, values, i);
    }
  }

  /** A symbol whose deficit is 0 when all deficits sum to 0 has a delta of at most 0. */
  lemma NoDeficitAt(tracked: seq<Symbol>, total: real, weights: map<Symbol, real>, values: map<Symbol, real>, i: nat)
    requires Covers(tracked, weights) && Covers(tracked, values) && i < |tracked|
    requires SumOver(tracked, UnderweightMap(tracked, total, weights, values)) == 0.0
    ensures DeltaMap(tracked, total, weights, values)[tracked[i]] <= 0.0
  {
    SumOverTerm(tracked, UnderweightMap(tracked, total, weights, values), i);
  }

  /** The total deficit is 0 exactly when every tracked symbol is at or above
      its target; then the split of the budget yields no amounts. */
  lemma NoDeficitIffAtOrAboveTarget(tracked: seq<Symbol>, total: real, weights: map<Symbol, real>, values: map<Symbol, real>)
    requires Covers(tracked, weights) && Covers(tracked, values)
    ensures SumOver(tracked, UnderweightMap(tracked, total, weights, values)) == 0.0 <==>
              forall i :: 0 <= i < |tracked| ==> values[tracked[i]] >= total * weights[tracked[i]]
  {
    var u := UnderweightMap(tracked, total, weights, values);
    if forall i :: 0 <= i < |tracked| ==> values[tracked[i]] >= total * weights[tracked[i]] {
      SumOverNonNegative(tracked, u);
      SumOverNonPositive(tracked, u);
    }
    if SumOver(tracked, u) == 0.0 {
      forall i | 0 <= i < |tracked| ensures values[tracked[i]] >= total * weights[tracked[i]] {
        SumOverTerm(tracked, u, i);
      }
    }
  }

  /* ---------------- buy.js: splitting the budget ---------------- */

  /** `amountsUnderweight[s] / totalUnderweightAmount * transactionAmountUsd`
      before `toFixed(2)`: the share is to the budget as the symbol's deficit
      is to the total deficit. */
  function Share(underweight: real, totalUnderweight: real, budget: real): (r: real)
    requires totalUnderweight != 0.0
    ensures r * totalUnderweight == underweight * budget
  {
    underweight / totalUnderweight * budget
  }

  function ShareMap(tracked: seq<Symbol>, under: map<Symbol, real>, totalUnderweight: real, budget: real)
    : (m: map<Symbol, real>)
    requires Covers(tracked, under) && totalUnderweight != 0.0
    ensures forall s :: s in m <==> s in tracked
    ensures forall i :: 0 <= i < |tracked| ==>
              tracked[i] in m && m[tracked[i]] == Share(under[tracked[i]], totalUnderweight, budget)
  {
    map s | s in tracked :: Share(under[s], totalUnderweight, budget)
  }

  ghost predicate NonNegativeOn(tracked: seq<Symbol>, m: map<Symbol, real>)
  {
    forall i :: 0 <= i < |tracked| ==> tracked[i] in m && m[tracked[i]] >= 0.0
  }

  /** buy.js:178-182: each tracked symbol's share of the budget, rounded to
      cents. When no symbol is underweight the script divides 0 by 0 and
      orders "NaN" dollars; here that pass yields no amounts at all. */
  method UsdAmountsToBuy(tracked: seq<Symbol>, under: map<Symbol, real>, totalUnderweight: real, budget: real)
    returns (r: Result<map<Symbol, real>>)
    requires NonNegativeOn(tracked, under) && totalUnderweight >= 0.0 && budget >= 0.0
    ensures totalUnderweight == 0.0 <==> r.Failure?
    ensures r.Failure? ==> r.error == NoUnderweight
    ensures r.Success? ==>
              && (forall s :: s in r.value <==> s in tracked)
              && forall i :: 0 <= i < |tracked| ==>
                   r.value[tracked[i]] == ToFixed2(Share(under[tracked[i]], totalUnderweight, budget))
  {
    if totalUnderweight == 0.0 {
      return Failure(NoUnderweight);
    }
    var usdAmountsToBuy := map[];
    for i := 0 to |tracked|
      invariant forall s :: s in usdAmountsToBuy ==> s in tracked[..i]
      invariant forall j :: 0 <= j < i ==>
                  && tracked[j] in usdAmountsToBuy
                  && usdAmountsToBuy[tracked[j]] == ToFixed2(Share(under[tracked[j]], totalUnderweight, budget))
    {
      var symbol := tracked[i];
      var percentageOfUnderweightAllocation := under[symbol] / totalUnderweight;
      assert percentageOfUnderweightAllocation * budget == Share(under[symbol], totalUnderweight, budget);
      usdAmountsToBuy := usdAmountsToBuy[symbol := ToFixed2(percentageOfUnderweightAllocation * budget)];
    }
    assert tracked[..|tracked|] == tracked;
    return Success(usdAmountsToBuy);
  }

  /** With a positive total deficit that is the sum of the deficits, each
      unrounded share is between 0 and the budget, is 0 exactly for a symbol
      with no deficit, and the shares add up to the budget. */
  lemma SharesSplitBudget(tracked: seq<Symbol>, under: map<Symbol, real>, budget: real, j: nat)
    requires NonNegativeOn(tracked, under) && budget >= 0.0 && j < |tracked|
    requires SumOver(tracked, under) > 0.0
    ensures var shares := ShareMap(tracked, under, SumOver(tracked, under), budget);
            && 0.0 <= shares[tracked[j]] <= budget
            && (budget > 0.0 ==> (shares[tracked[j]] == 0.0 <==> under[tracked[j]] == 0.0))
            && SumOver(tracked, shares) == budget
  {
    var total := SumOver(tracked, under);
    var shares := ShareMap(tracked, under, total, budget);
    SumOverTerm(tracked, under, j);
    ShareBounds(under[tracked[j]], total, budget);
    SharesScale(tracked, under, total, budget);
  }

  /** The shares add up to the budget when their deficits add up to the total deficit. */
  lemma SharesScale(tracked: seq<Symbol>, under: map<Symbol, real>, totalUnderweight: real, budget: real)
    requires Covers(tracked, under) && totalUnderweight != 0.0 && totalUnderweight == SumOver(tracked, under)
    ensures SumOver(tracked, ShareMap(tracked, under, totalUnderweight, budget)) == budget
  {
    SharesPrefixSum(tracked, under, totalUnderweight, budget, |tracked|);
    assert tracked[..|tracked|] == tracked;
    DivSelf(totalUnderweight);
  }

  /** The shares of the first n symbols are the share of their summed deficits. */
  lemma {:induction false} SharesPrefixSum(tracked: seq<Symbol>, under: map<Symbol, real>, totalUnderweight: real, budget: real, n: nat)
    requires Covers(tracked, under) && totalUnderweight != 0.0 && n <= |tracked|
    ensures Covers(tracked[..n], under) && Covers(tracked[..n], ShareMap(tracked, under, totalUnderweight, budget))
    ensures SumOver(tracked[..n], ShareMap(tracked, under, totalUnderweight, budget))
              == Share(SumOver(tracked[..n], under), totalUnderweight, budget)
  {
    var shares := ShareMap(tracked, under, totalUnderweight, budget);
    if n == 0 {
      assert tracked[..0] == [];
    } else {
      SharesPrefixSum(tracked, under, totalUnderweight, budget, n - 1);
      SumOverStep(tracked, shares, n - 1);
      SumOverStep(tracked, under, n - 1);
      ShareAdd(SumOver(tracked[..n - 1], under), under[tracked[n - 1]], totalUnderweight, budget);
    }
  }

  /** Shares are additive in the deficit. */
  lemma ShareAdd(a: real, b: real, totalUnderweight: real, budget: real)
    requires totalUnderweight != 0.0
    ensures Share(a, totalUnderweight, budget) + Share(b, totalUnderweight, budget) == Share(a + b, totalUnderweight, budget)
  {
    DivAdd(a, b, totalUnderweight);
  }

  /** Raising one symbol's deficit while the others stay as they are (so the
      total deficit grows by the same amount) never lowers that symbol's
      allocation, before or after rounding to cents. */
  lemma ShareGrowsWithOwnDeficit(d: real, d': real, rest: real, budget: real)
    requires 0.0 <= d <= d' && rest >= 0.0 && d + rest > 0.0 && budget >= 0.0
    ensures 0.0 <= Share(d, d + rest, budget) <= Share(d', d' + rest, budget)
    ensures ToFixed2(Share(d, d + rest, budget)) <= ToFixed2(Share(d', d' + rest, budget))
  {
    FractionGrows(d, d', rest);
    Fraction(d, d + rest);
    MulMonotone(0.0, d / (d + rest), budget);
    MulMonotone(d / (d + rest), d' / (d' + rest), budget);
    ToFixed2Monotone(Share(d, d + rest, budget), Share(d', d' + rest, budget));
  }

  /** d / (d + rest) grows with d. */
  lemma FractionGrows(d: real, d': real, rest: real)
    requires 0.0 <= d <= d' && rest >= 0.0 && d + rest > 0.0
    ensures d / (d + rest) <= d' / (d' + rest)
  {
    var a, b := d + rest, d' + rest;
    Distribute(d, d', rest, b);
    Distribute(d', d, rest, a);
    MulMonotone(d, d', rest);
    MulStrictMonotone(0.0, a, b);
    DivMonotone(d * b, d' * a, a * b);
    DivCommonFactor(d, a, b);
    DivCommonFactor(d', b, a);
  }

  /** Each share lies between nothing and the whole budget, and is nothing
      exactly when the symbol has no deficit. */
  lemma ShareBounds(underweight: real, totalUnderweight: real, budget: real)
    requires 0.0 <= underweight <= totalUnderweight && totalUnderweight > 0.0 && budget >= 0.0
    ensures 0.0 <= Share(underweight, totalUnderweight, budget) <= budget
    ensures budget > 0.0 ==> (Share(underweight, totalUnderweight, budget) == 0.0 <==> underweight == 0.0)
  {
    Fraction(underweight, totalUnderweight);
    var f := underweight / totalUnderweight;
    MulMonotone(f, 1.0, budget);
    MulMonotone(0.0, f, budget);
    assert f * totalUnderweight == underweight;
    if budget > 0.0 && f * budget == 0.0 {
      assert f == 0.0;
    }
  }

  /** A larger deficit never gets a smaller allocation, before or after rounding to cents. */
  lemma ShareMonotone(a: real, b: real, totalUnderweight: real, budget: real)
    requires 0.0 <= a <= b && totalUnderweight > 0.0 && budget >= 0.0
    ensures 0.0 <= Share(a, totalUnderweight, budget) <= Share(b, totalUnderweight, budget)
    ensures ToFixed2(Share(a, totalUnderweight, budget)) <= ToFixed2(Share(b, totalUnderweight, budget))
  {
    DivMonotone(a, b, totalUnderweight);
    MulMonotone(a / totalUnderweight, b / totalUnderweight, budget);
    MulMonotone(0.0, a / totalUnderweight, budget);
    ToFixed2Monotone(Share(a, totalUnderweight, budget), Share(b, totalUnderweight, budget));
  }

  /** Rounding each share to cents moves the sum of the amounts by at most
      half a cent per tracked symbol away from the budget. */
  lemma RoundedAmountsNearBudget(tracked: seq<Symbol>, under: map<Symbol, real>, budget: real, amounts: map<Symbol, real>)
    requires NonNegativeOn(tracked, under) && budget >= 0.0
    requires SumOver(tracked, under) > 0.0
    requires forall i :: 0 <= i < |tracked| ==>
               tracked[i] in amounts && amounts[tracked[i]] == ToFixed2(Share(under[tracked[i]], SumOver(tracked, under), budget))
    ensures Covers(tracked, amounts)
    ensures -0.005 * |tracked| as real <= SumOver(tracked, amounts) - budget <= 0.005 * |tracked| as real
  {
    var total := SumOver(tracked, under);
    var shares := ShareMap(tracked, under, total, budget);
    forall i | 0 <= i < |tracked| ensures -0.005 <= amounts[tracked[i]] - shares[tracked[i]] <= 0.005 {
      SharesSplitBudget(tracked, under, budget, i);
    }
    SharesSplitBudget(tracked, under, budget, 0);
    SumOverClose(tracked, amounts, shares);
  }

  /* ---------------- main.js: weight-proportional spend ---------------- */

  /** main.js:125, `(relativePurchaseWeights[symbol] * amountToSpendUsd).toFixed(2)`. */
  function ProportionalAmount(weight: real, budget: real): (r: real)
    requires weight >= 0.0 && budget >= 0.0
    ensures r >= 0.0 && r * 100.0 == (r * 100.0).Floor as real
    ensures weight * budget - 0.005 < r <= weight * budget + 0.005
  {
    ToFixed2(weight * budget)
  }

  /** The spend for a weight in [0, 1] is non-negative, within half a cent of
      weight * budget, and never above a budget given in whole cents. */
  lemma ProportionalAmountBounded(weight: real, budget: real)
    requires 0.0 <= weight <= 1.0 && budget >= 0.0
    requires budget * 100.0 == (budget * 100.0).Floor as real
    ensures 0.0 <= ProportionalAmount(weight, budget) <= budget
    ensures weight * budget - 0.005 < ProportionalAmount(weight, budget) <= weight * budget + 0.005
  {
    var spend := weight * budget;
    assert 0.0 <= spend <= budget by {
      MulMonotone(weight, 1.0, budget);
      MulMonotone(0.0, weight, budget);
    }
    ToFixed2Monotone(spend, budget);
    ToFixed2Exact(budget);
  }

  /** When the weights sum to 1 the unrounded spends sum to the budget. */
  lemma ProportionalSpendsSumToBudget(tracked: seq<Symbol>, weights: map<Symbol, real>, budget: real)
    requires Covers(tracked, weights) && SumOver(tracked, weights) == 1.0
    ensures var spends := map s | s in tracked :: weights[s] * budget;
            Covers(tracked, spends) && SumOver(tracked, spends) == budget
  {
    var spends := map s | s in tracked :: weights[s] * budget;
    assert Covers(tracked, spends);
    SumOverScale(tracked, weights, spends, budget, 1.0);
  }

  /* ---------------- calculateCurrentAndTargetAssetAllocation.js ---------------- */

  function DeltaMap(tracked: seq<Symbol>, total: real, weights: map<Symbol, real>, values: map<Symbol, real>)
    : (d: map<Symbol, real>)
    requires Covers(tracked, weights) && Covers(tracked, values)
    ensures forall s :: s in d <==> s in tracked
    ensures forall i :: 0 <= i < |tracked| ==>
              tracked[i] in d && d[tracked[i]] == total * weights[tracked[i]] - values[tracked[i]]
  {
    map s | s in tracked :: total * weights[s] - values[s]
  }

  /** calculateCurrentAndTargetAssetAllocation.js:99-106: each tracked
      symbol's target, and the change that would reach it. `Math.max` is given
      a single argument there, so the delta is not clamped at 0. */
  method TargetsAndDeltas(tracked: seq<Symbol>, total: real, weights: map<Symbol, real>, values: map<Symbol, real>)
    returns (targetAmounts: map<Symbol, real>, necessaryDeltas: map<Symbol, real>)
    requires Covers(tracked, weights) && Covers(tracked, values)
    ensures targetAmounts == TargetMap(tracked, total, weights)
    ensures necessaryDeltas == DeltaMap(tracked, total, weights, values)
  {
    ghost var targets := TargetMap(tracked, total, weights);
    ghost var deltas := DeltaMap(tracked, total, weights, values);
    targetAmounts, necessaryDeltas := map[], map[];
    for i := 0 to |tracked|
      invariant forall s :: s in targetAmounts <==> s in tracked[..i]
      invariant forall s :: s in necessaryDeltas <==> s in tracked[..i]
      invariant forall s :: s in targetAmounts ==> targetAmounts[s] == targets[s]
      invariant forall s :: s in necessaryDeltas ==> necessaryDeltas[s] == deltas[s]
    {
      assert tracked[..i + 1] == tracked[..i] + [tracked[i]];
      var targetAmount := total * weights[tracked[i]];
      targetAmounts := targetAmounts[tracked[i] := targetAmount];
      var deltaToReachTarget := targetAmount - values[tracked[i]];
      necessaryDeltas := necessaryDeltas[tracked[i] := deltaToReachTarget];
    }
    assert tracked[..|tracked|] == tracked;
    MapsAgree(tracked, targetAmounts, targets);
    MapsAgree(tracked, necessaryDeltas, DeltaMap(tracked, total, weights, values));
  }

  /** A delta is negative exactly for an overweight symbol and zero exactly
      at target; when the weights sum to 1 and the invested total is the sum
      of the tracked values, the deltas sum to 0. */
  lemma DeltasBalance(tracked: seq<Symbol>, total: real, weights: map<Symbol, real>, values: map<Symbol, real>, i: nat)
    requires Covers(tracked, weights) && Covers(tracked, values) && i < |tracked|
    ensures DeltaMap(tracked, total, weights, values)[tracked[i]] < 0.0 <==> values[tracked[i]] > total * weights[tracked[i]]
    ensures DeltaMap(tracked, total, weights, values)[tracked[i]] == 0.0 <==> values[tracked[i]] == total * weights[tracked[i]]
    ensures SumOver(tracked, weights) == 1.0 && total == SumOver(tracked, values) ==>
              SumOver(tracked, DeltaMap(tracked, total, weights, values)) == 0.0
  {
    if SumOver(tracked, weights) == 1.0 && total == SumOver(tracked, values) {
      DeltasSumToZero(tracked, total, weights, values);
    }
  }

  lemma DeltasSumToZero(tracked: seq<Symbol>, total: real, weights: map<Symbol, real>, values: map<Symbol, real>)
    requires Covers(tracked, weights) && Covers(tracked, values)
    requires SumOver(tracked, weights) == 1.0 && total == SumOver(tracked, values)
    ensures SumOver(tracked, DeltaMap(tracked, total, weights, values)) == 0.0
  {
    TargetsSumToTotal(tracked, total, weights);
    SumOverDifference(tracked, TargetMap(tracked, total, weights), values, DeltaMap(tracked, total, weights, values));
  }
}
