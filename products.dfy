/** Symbols and GDAX product ids (buy.js:10 and 31-33, main.js:124,
    calculateCurrentAndTargetAssetAllocation.js:7 and 28-30). */
module Products {

  /** An asset ticker such as "BTC"; case-sensitive. */
  type Symbol = string

  const QuoteCurrency: Symbol := "USD"

  /** `convertSymbolToGdaxProductId`: the symbol, a dash, the quote currency. */
  function ProductId(symbol: Symbol): (id: string)
    ensures |id| == |symbol| + 4
    ensures id[..|symbol|] == symbol && id[|symbol|..] == "-USD"
  {
    symbol + "-" + QuoteCurrency
  }

  /** Distinct symbols get distinct product ids. */
  lemma ProductIdInjective(a: Symbol, b: Symbol)
    ensures ProductId(a) == ProductId(b) ==> a == b
  {
    assert ProductId(a)[..|a|] == a;
    assert ProductId(b)[..|b|] == b;
  }
}
