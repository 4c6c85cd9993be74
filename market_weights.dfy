/** Market-cap weights: each tracked symbol's share of the total market cap of
    the tracked symbols (buy.js:41-56, main.js:34-49,
    calculateCurrentAndTargetAssetAllocation.js:38-53). */
module MarketWeights {
  import opened Wrappers
  import opened Numeric
  import opened Products

  /** One coinmarketcap ticker entry, `market_cap_usd` already parsed. */
  datatype MarketCapEntry = MarketCapEntry(symbol: Symbol, marketCapUsd: real)

  function SymbolOf(e: MarketCapEntry): Symbol
  {
    e.symbol
  }

  function SymbolsOf(entries: seq<MarketCapEntry>): (r: seq<Symbol>)
    ensures |r| == |entries|
    ensures forall i :: 0 <= i < |r| ==> r[i] == entries[i].symbol
  {
    seq(|entries|, i requires 0 <= i < |entries| => entries[i].symbol)
  }

  /** `marketCapData.filter(d => symbolsToTrade.includes(d.symbol))`: the
      entries of tracked symbols, in feed order. */
  function FilterTracked(data: seq<MarketCapEntry>, tracked: seq<Symbol>): (r: seq<MarketCapEntry>)
    ensures |r| <= |data|
    ensures forall e :: e in r <==> e in data && e.symbol in tracked
  {
    if data == [] then []
    else
      var n := |data| - 1;
      FilterTracked(data[..n], tracked) + (if data[n].symbol in tracked then [data[n]] else [])
  }

  /** `.map(parseFloat).reduce((total, cap) => total + cap, 0)`; with no
      negative cap the total is not negative. */
  function TotalMarketCap(entries: seq<MarketCapEntry>): (t: real)
    ensures NonNegativeCaps(entries) ==> t >= 0.0
  {
    if entries == [] then 0.0
    else TotalMarketCap(entries[..|entries| - 1]) + entries[|entries| - 1].marketCapUsd
  }

  /** main.js's `reduce((total, cap) => total + cap)` with no seed: the first
      cap starts the sum, and an empty array has no sum at all. On a non-empty
      list it agrees with the seeded total. */
  function SeedlessTotal(entries: seq<MarketCapEntry>): (t: real)
    requires entries != []
    ensures t == TotalMarketCap(entries)
  {
    if |entries| == 1 then assert entries[..0] == []; entries[0].marketCapUsd
    else SeedlessTotal(entries[..|entries| - 1]) + entries[|entries| - 1].marketCapUsd
  }

  /** The cap an object filled by `forEach` holds for s: that of the last entry for s. */
  function CapOf(entries: seq<MarketCapEntry>, s: Symbol): real
  {
    match Latest(entries, SymbolOf, s)
    case Some(e) => e.marketCapUsd
    case None => 0.0
  }

  /** The object `relativeMarketCaps` after the `forEach`: one key per symbol
      of the entries, holding the last cap seen for it over the total. */
  function WeightMap(entries: seq<MarketCapEntry>, total: real): map<Symbol, real>
    requires total != 0.0 || entries == []
  {
    map s | s in SymbolsOf(entries) :: CapOf(entries, s) / total
  }

  /** The weights of buy.js and calculateCurrentAndTargetAssetAllocation.js:
      empty for an empty list; a failure where the division would be by a
      zero total. */
  function MarketCapWeights(filtered: seq<MarketCapEntry>): Result<map<Symbol, real>>
  {
    var total := TotalMarketCap(filtered);
    if filtered != [] && total == 0.0 then Failure(ZeroTotalMarketCap)
    else Success(WeightMap(filtered, total))
  }

  lemma WeightMapSnoc(entries: seq<MarketCapEntry>, e: MarketCapEntry, total: real)
    requires total != 0.0
    ensures WeightMap(entries + [e], total) == WeightMap(entries, total)[e.symbol := e.marketCapUsd / total]
  {
    var grown := entries + [e];
    assert grown[..|grown| - 1] == entries;
    assert forall s :: s in SymbolsOf(grown) <==> s in SymbolsOf(entries) || s == e.symbol by {
      forall s ensures s in SymbolsOf(grown) <==> s in SymbolsOf(entries) || s == e.symbol {
        if s in SymbolsOf(grown) {
          var i :| 0 <= i < |grown| && SymbolsOf(grown)[i] == s;
          if i < |entries| {
            assert SymbolsOf(entries)[i] == s;
          }
        }
        if s in SymbolsOf(entries) {
          var i :| 0 <= i < |entries| && SymbolsOf(entries)[i] == s;
          assert SymbolsOf(grown)[i] == s;
        }
        if s == e.symbol {
          assert SymbolsOf(grown)[|entries|] == s;
        }
      }
    }
  }

  /** The `forEach` that fills the weight object (buy.js:52-55, main.js:45-48,
      calculateCurrentAndTargetAssetAllocation.js:49-52): a later entry for
      the same symbol overwrites an earlier one. */
  method FillWeights(entries: seq<MarketCapEntry>, total: real) returns (weights: map<Symbol, real>)
    requires total != 0.0 || entries == []
    ensures weights == WeightMap(entries, total)
  {
    weights := map[];
    var i := 0;
    while i < |entries|
      invariant 0 <= i <= |entries|
      invariant weights == WeightMap(entries[..i], total)
    {
      assert entries[..i + 1] == entries[..i] + [entries[i]];
      WeightMapSnoc(entries[..i], entries[i], total);
      weights := weights[entries[i].symbol := entries[i].marketCapUsd / total];
      i := i + 1;
    }
    assert entries[..i] == entries;
  }

  /** buy.js:48-56 and calculateCurrentAndTargetAssetAllocation.js:45-53. */
  method RelativeMarketCaps(filtered: seq<MarketCapEntry>) returns (r: Result<map<Symbol, real>>)
    ensures r == MarketCapWeights(filtered)
  {
    var total := TotalMarketCap(filtered);
    if filtered != [] && total == 0.0 {
      return Failure(ZeroTotalMarketCap);
    }
    var weights := FillWeights(filtered, total);
    return Success(weights);
  }

  /** main.js:41-49: as buy.js, except that the unseeded `reduce` throws on an
      empty list. */
  method RelativePurchaseWeights(filtered: seq<MarketCapEntry>) returns (r: Result<map<Symbol, real>>)
    ensures filtered == [] ==> r == Failure(EmptyMarketCapData)
    ensures filtered != [] ==> r == MarketCapWeights(filtered)
  {
    if filtered == [] {
      return Failure(EmptyMarketCapData);
    }
    var total := SeedlessTotal(filtered);
    if total == 0.0 {
      return Failure(ZeroTotalMarketCap);
    }
    var weights := FillWeights(filtered, total);
    return Success(weights);
  }

  /* ---------------- properties of the weights ---------------- */

  /** The weight object has exactly one key per symbol of the filtered data,
      so only tracked symbols ever get a weight; an empty list gives an empty
      object rather than a failure. */
  lemma WeightKeysAreTracked(data: seq<MarketCapEntry>, tracked: seq<Symbol>)
    ensures MarketCapWeights(FilterTracked(data, tracked)).Success? ==>
              forall s :: s in MarketCapWeights(FilterTracked(data, tracked)).value ==> s in tracked
    ensures FilterTracked(data, tracked) == [] ==> MarketCapWeights(FilterTracked(data, tracked)) == Success(map[])
  {
    var filtered := FilterTracked(data, tracked);
    forall s | s in SymbolsOf(filtered) ensures s in tracked {
      var i :| 0 <= i < |filtered| && SymbolsOf(filtered)[i] == s;
      assert filtered[i] in filtered;
    }
  }

  ghost predicate NonNegativeCaps(entries: seq<MarketCapEntry>)
  {
    forall i :: 0 <= i < |entries| ==> entries[i].marketCapUsd >= 0.0
  }

  lemma {:induction false} CapAtMostTotal(entries: seq<MarketCapEntry>, e: MarketCapEntry)
    requires NonNegativeCaps(entries) && e in entries
    ensures 0.0 <= e.marketCapUsd <= TotalMarketCap(entries)
  {
    var n := |entries| - 1;
    if e != entries[n] {
      assert e in entries[..n];
      CapAtMostTotal(entries[..n], e);
    }
  }


  /** With non-negative caps every weight lies in [0, 1]. */
  lemma WeightsBounded(filtered: seq<MarketCapEntry>, s: Symbol)
    requires NonNegativeCaps(filtered)
    requires MarketCapWeights(filtered).Success? && s in MarketCapWeights(filtered).value
    ensures 0.0 <= MarketCapWeights(filtered).value[s] <= 1.0
  {
    var total := TotalMarketCap(filtered);
    assert s in SymbolsOf(filtered);
    var i :| 0 <= i < |filtered| && SymbolsOf(filtered)[i] == s;
    assert SymbolOf(filtered[i]) == s;
    LatestFound(filtered, SymbolOf, s);
    var e := Latest(filtered, SymbolOf, s).value;
    CapAtMostTotal(filtered, e);
    Fraction(e.marketCapUsd, total);
    assert MarketCapWeights(filtered).value[s] == e.marketCapUsd / total;
  }

  ghost predicate DistinctSymbols(entries: seq<MarketCapEntry>)
  {
    forall i, j :: 0 <= i < j < |entries| ==> entries[i].symbol != entries[j].symbol
  }

  /** With distinct symbols the weight of the i-th entry's symbol is that entry's share. */
  lemma WeightAt(entries: seq<MarketCapEntry>, total: real, i: nat)
    requires DistinctSymbols(entries) && total != 0.0 && i < |entries|
    ensures entries[i].symbol in WeightMap(entries, total)
    ensures WeightMap(entries, total)[entries[i].symbol] == entries[i].marketCapUsd / total
  {
    LatestDistinct(entries, SymbolOf, i);
    assert SymbolsOf(entries)[i] == entries[i].symbol;
  }

  /** Summed in list order, the weights of the first k entries add up to
      their total over the divisor. */
  lemma {:induction false} WeightPrefixSum(entries: seq<MarketCapEntry>, total: real, k: nat)
    requires DistinctSymbols(entries) && total != 0.0 && k <= |entries|
    ensures Covers(SymbolsOf(entries)[..k], WeightMap(entries, total))
    ensures SumOver(SymbolsOf(entries)[..k], WeightMap(entries, total)) == TotalMarketCap(entries[..k]) / total
  {
    var w, syms := WeightMap(entries, total), SymbolsOf(entries);
    assert Covers(syms, w);
    if k == 0 {
      assert syms[..k] == [];
      assert entries[..k] == [];
    } else {
      var n := k - 1;
      WeightPrefixSum(entries, total, n);
      WeightAt(entries, total, n);
      assert syms[n] == entries[n].symbol;
      SumOverStep(syms, w, n);
      TotalMarketCapStep(entries, n);
      DivAdd(TotalMarketCap(entries[..n]), entries[n].marketCapUsd, total);
    }
  }

  lemma TotalMarketCapStep(entries: seq<MarketCapEntry>, n: nat)
    requires n < |entries|
    ensures TotalMarketCap(entries[..n + 1]) == TotalMarketCap(entries[..n]) + entries[n].marketCapUsd
  {
    assert entries[..n + 1][..n] == entries[..n];
  }

  /** With distinct symbols and a positive total, the weights sum to 1. */
  lemma WeightsSumToOne(filtered: seq<MarketCapEntry>)
    requires DistinctSymbols(filtered) && TotalMarketCap(filtered) > 0.0
    ensures MarketCapWeights(filtered).Success?
    ensures Covers(SymbolsOf(filtered), MarketCapWeights(filtered).value)
    ensures SumOver(SymbolsOf(filtered), MarketCapWeights(filtered).value) == 1.0
  {
    var total := TotalMarketCap(filtered);
    var w := WeightMap(filtered, total);
    assert MarketCapWeights(filtered) == Success(w);
    WeightPrefixSum(filtered, total, |filtered|);
    assert SymbolsOf(filtered)[..|filtered|] == SymbolsOf(filtered);
    assert filtered[..|filtered|] == filtered;
    DivSelf(total);
  }

  /** Filtering a feed that lists each symbol once keeps each symbol once. */
  lemma {:induction false} FilterKeepsDistinct(data: seq<MarketCapEntry>, tracked: seq<Symbol>)
    requires DistinctSymbols(data)
    ensures DistinctSymbols(FilterTracked(data, tracked))
  {
    if data != [] {
      var n := |data| - 1;
      assert DistinctSymbols(data[..n]);
      FilterKeepsDistinct(data[..n], tracked);
      var before := FilterTracked(data[..n], tracked);
      forall i | 0 <= i < |before| ensures before[i].symbol != data[n].symbol {
        assert before[i] in data[..n];
      }
    }
  }

  /** When the tracked symbols are distinct and the feed lists each of them
      exactly once, the weights summed over the tracked symbols (the order
      the scripts use) are 1. */
  lemma TrackedWeightsSumToOne(data: seq<MarketCapEntry>, tracked: seq<Symbol>)
    requires Distinct(tracked) && DistinctSymbols(data)
    requires forall i :: 0 <= i < |tracked| ==> tracked[i] in SymbolsOf(data)
    requires TotalMarketCap(FilterTracked(data, tracked)) > 0.0
    ensures MarketCapWeights(FilterTracked(data, tracked)).Success?
    ensures Covers(tracked, MarketCapWeights(FilterTracked(data, tracked)).value)
    ensures SumOver(tracked, MarketCapWeights(FilterTracked(data, tracked)).value) == 1.0
  {
    var filtered := FilterTracked(data, tracked);
    FilterKeepsDistinct(data, tracked);
    WeightsSumToOne(filtered);
    var syms := SymbolsOf(filtered);
    assert Distinct(syms);
    forall s ensures s in syms <==> s in tracked {
      if s in syms {
        FilteredSymbolTracked(data, tracked, s);
      }
      if s in tracked {
        FilteredHasSymbol(data, tracked, s);
      }
    }
    DistinctSameElements(syms, tracked);
    SumOverPermutation(syms, tracked, MarketCapWeights(filtered).value);
  }

  lemma FilteredSymbolTracked(data: seq<MarketCapEntry>, tracked: seq<Symbol>, s: Symbol)
    requires s in SymbolsOf(FilterTracked(data, tracked))
    ensures s in tracked
  {
    var filtered := FilterTracked(data, tracked);
    var i :| 0 <= i < |filtered| && SymbolsOf(filtered)[i] == s;
    assert filtered[i] in filtered;
  }

  lemma FilteredHasSymbol(data: seq<MarketCapEntry>, tracked: seq<Symbol>, s: Symbol)
    requires s in tracked && s in SymbolsOf(data)
    ensures s in SymbolsOf(FilterTracked(data, tracked))
  {
    var i :| 0 <= i < |data| && SymbolsOf(data)[i] == s;
    var e := data[i];
    assert e in data && e.symbol == s;
    var filtered := FilterTracked(data, tracked);
    assert e in filtered;
    var j :| 0 <= j < |filtered| && filtered[j] == e;
    assert SymbolsOf(filtered)[j] == s;
  }
}
