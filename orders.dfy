/** Orders: the exchange's minimum order sizes, the market and limit order
    parameters, the gates that decide whether an order is handed to the
    exchange, and the per-symbol order passes of buy.js (107-157, 186-197)
    and main.js (51-58, 65-132). An order that is "submitted" is one the
    script passes to `gdaxClient.buy`; the exchange's answer is not part of
    this model. */
module Orders {
  import opened Wrappers
  import opened Numeric
  import opened Products
  import opened Allocation

  datatype Side = Buy
  datatype TimeInForce = GoodTillCancelled

  /** The `orderParams` object literals. */
  datatype OrderParams =
    | MarketOrder(productId: string, funds: real)
    | LimitOrder(productId: string, price: real, size: real, side: Side, timeInForce: TimeInForce)

  /** The parameters one order step builds, and whether it submits them. */
  datatype Placement = Placement(params: OrderParams, submitted: bool)

  /* ---------------- minimum order sizes ---------------- */

  /** One product of `getProducts`, `base_min_size` already a number. */
  datatype Product = Product(baseCurrency: Symbol, quoteCurrency: Symbol, baseMinSize: real)

  /** The key a product is stored under when it passes the script's
      `filter`: its base currency, if the base is tracked and (in buy.js)
      the quote is USD. */
  function EligibleBase(p: Product, tracked: seq<Symbol>, usdOnly: bool): Option<Symbol>
  {
    if p.baseCurrency in tracked && (!usdOnly || p.quoteCurrency == QuoteCurrency) then Some(p.baseCurrency)
    else None
  }

  function KeyFor(tracked: seq<Symbol>, usdOnly: bool): Product -> Option<Symbol>
  {
    p => EligibleBase(p, tracked, usdOnly)
  }

  /** `minimumOrderQtys` after `products.filter(...).forEach(...)`: for each
      tracked base, the minimum of the last product that passed the filter. */
  function MinimumMap(products: seq<Product>, tracked: seq<Symbol>, usdOnly: bool): map<Symbol, real>
  {
    map b | b in tracked && Latest(products, KeyFor(tracked, usdOnly), Some(b)).Some? ::
      Latest(products, KeyFor(tracked, usdOnly), Some(b)).value.baseMinSize
  }

  lemma MinimumMapSnoc(products: seq<Product>, p: Product, tracked: seq<Symbol>, usdOnly: bool)
    ensures MinimumMap(products + [p], tracked, usdOnly) ==
            if EligibleBase(p, tracked, usdOnly).Some?
            then MinimumMap(products, tracked, usdOnly)[p.baseCurrency := p.baseMinSize]
            else MinimumMap(products, tracked, usdOnly)
  {
    var grown := products + [p];
    assert grown[..|grown| - 1] == products;
    assert KeyFor(tracked, usdOnly)(p) == EligibleBase(p, tracked, usdOnly);
  }

  /** The filtered `forEach` (buy.js:60-64, main.js:53-57), written as one
      pass that skips the products the filter drops; a later product for the
      same base overwrites an earlier one. */
  method FillMinimums(products: seq<Product>, tracked: seq<Symbol>, usdOnly: bool)
    returns (minimumOrderQtys: map<Symbol, real>)
    ensures minimumOrderQtys == MinimumMap(products, tracked, usdOnly)
  {
    minimumOrderQtys := map[];
    for i := 0 to |products|
      invariant minimumOrderQtys == MinimumMap(products[..i], tracked, usdOnly)
    {
      var product := products[i];
      assert products[..i + 1] == products[..i] + [product];
      MinimumMapSnoc(products[..i], product, tracked, usdOnly);
      if product.baseCurrency in tracked && (!usdOnly || product.quoteCurrency == QuoteCurrency) {
        minimumOrderQtys := minimumOrderQtys[product.baseCurrency := product.baseMinSize];
      }
    }
    assert products[..|products|] == products;
  }

  /** buy.js:58-65: only products of a tracked base quoted in USD. */
  method MinimumOrderQtys(products: seq<Product>, tracked: seq<Symbol>) returns (m: map<Symbol, real>)
    ensures m == MinimumMap(products, tracked, true)
  {
    m := FillMinimums(products, tracked, true);
  }

  /** main.js:51-58: every product of a tracked base, whatever its quote. */
  method MinimumOrderQtysAnyQuote(products: seq<Product>, tracked: seq<Symbol>) returns (m: map<Symbol, real>)
    ensures m == MinimumMap(products, tracked, false)
  {
    m := FillMinimums(products, tracked, false);
  }

  /** A base has a minimum exactly when some product passes the filter with
      that base, and its minimum is that of the last such product listed. */
  lemma MinimumMapEntries(products: seq<Product>, tracked: seq<Symbol>, usdOnly: bool, b: Symbol)
    ensures b in MinimumMap(products, tracked, usdOnly) <==>
              exists i :: 0 <= i < |products| && EligibleBase(products[i], tracked, usdOnly) == Some(b)
    ensures b in MinimumMap(products, tracked, usdOnly) ==>
              exists i :: 0 <= i < |products| && EligibleBase(products[i], tracked, usdOnly) == Some(b)
                          && MinimumMap(products, tracked, usdOnly)[b] == products[i].baseMinSize
                          && forall j :: i < j < |products| ==> EligibleBase(products[j], tracked, usdOnly) != Some(b)
  {
    var key := KeyFor(tracked, usdOnly);
    LatestFound(products, key, Some(b));
    assert forall i :: 0 <= i < |products| ==> key(products[i]) == EligibleBase(products[i], tracked, usdOnly);
    if Latest(products, key, Some(b)).Some? {
      LatestIsLast(products, key, Some(b));
      var i :| 0 <= i < |products| && products[i] == Latest(products, key, Some(b)).value && key(products[i]) == Some(b)
               && forall j :: i < j < |products| ==> key(products[j]) != Some(b);
      assert b == products[i].baseCurrency;
      assert b in tracked;
    }
  }

  /** Every base buy.js has a minimum for also has one in main.js, and the
      two maps agree when every product of a tracked base is quoted in USD;
      otherwise main.js may keep the minimum of a non-USD product. */
  lemma UsdMinimumsAgree(products: seq<Product>, tracked: seq<Symbol>)
    ensures MinimumMap(products, tracked, true).Keys <= MinimumMap(products, tracked, false).Keys
    ensures (forall i :: 0 <= i < |products| && products[i].baseCurrency in tracked ==>
               products[i].quoteCurrency == QuoteCurrency) ==>
            MinimumMap(products, tracked, true) == MinimumMap(products, tracked, false)
  {
    forall b | b in MinimumMap(products, tracked, true) ensures b in MinimumMap(products, tracked, false) {
      MinimumMapEntries(products, tracked, true, b);
      var i :| 0 <= i < |products| && EligibleBase(products[i], tracked, true) == Some(b);
      assert EligibleBase(products[i], tracked, false) == Some(b);
      MinimumMapEntries(products, tracked, false, b);
    }
    if forall i :: 0 <= i < |products| && products[i].baseCurrency in tracked ==> products[i].quoteCurrency == QuoteCurrency {
      forall b {
        LatestAgree(products, KeyFor(tracked, true), KeyFor(tracked, false), Some(b));
      }
    }
  }

  /** A feed listing BTC-USD and then BTC-EUR: buy.js keeps the USD minimum,
      main.js the EUR one. */
  lemma AnyQuoteKeepsLastListed()
    ensures var products := [Product("BTC", "USD", 0.001), Product("BTC", "EUR", 0.01)];
            && MinimumMap(products, ["BTC"], true)["BTC"] == 0.001
            && MinimumMap(products, ["BTC"], false)["BTC"] == 0.01
  {
    var products := [Product("BTC", "USD", 0.001), Product("BTC", "EUR", 0.01)];
    assert products[..1] == [products[0]];
    assert Latest(products, KeyFor(["BTC"], true), Some("BTC")) == Some(products[0]);
    assert Latest(products, KeyFor(["BTC"], false), Some("BTC")) == Some(products[1]);
  }

  /* ---------------- order parameters ---------------- */

  /** The minimum an order step sees: `minimumOrderQtys[symbol]`, undefined
      for a base the exchange did not list. */
  function MinimumFor(minimums: map<Symbol, real>, s: Symbol): (m: Option<real>)
    ensures m.Some? <==> s in minimums
    ensures m.Some? ==> m.value == minimums[s]
  {
    if s in minimums then Some(minimums[s]) else None
  }

  /** `(amountUsd / price).toFixed(8)`: the quantity a limit order asks for. */
  function LimitSize(amountUsd: real, price: real): (size: real)
    requires amountUsd >= 0.0 && price > 0.0
    ensures size >= 0.0
    ensures amountUsd / price - 0.000000005 < size <= amountUsd / price + 0.000000005
  {
    ToFixed8(amountUsd / price)
  }

  /** A limit order of LimitSize costs the amount it was sized for, up to
      half a unit of the eighth decimal at the order's price. */
  lemma LimitOrderCost(amountUsd: real, price: real)
    requires amountUsd >= 0.0 && price > 0.0
    ensures amountUsd - 0.000000005 * price < LimitSize(amountUsd, price) * price <= amountUsd + 0.000000005 * price
  {
    ScaledBounds(amountUsd / price, LimitSize(amountUsd, price), price, 0.000000005, amountUsd);
  }

  /** `buyAtMarketPrice` (buy.js:107-125, main.js:65-81): a market order for
      the amount unchanged, submitted exactly when trading is switched on. */
  function BuyAtMarketPrice(productId: string, amountUsd: real, execute: bool): (p: Placement)
    ensures p.params.MarketOrder? && p.params.productId == productId && p.params.funds == amountUsd
    ensures p.submitted <==> execute
  {
    Placement(MarketOrder(productId, amountUsd), execute)
  }

  /** `placeOrderAtCurrentPrice` (buy.js:127-157): a GTC limit buy at the
      ticker price for the amount's quantity, submitted only when trading is
      on and the quantity is strictly above a known minimum (comparing with
      an undefined minimum is false). */
  function PlaceOrderAtCurrentPrice(productId: string, amountUsd: real, currentPrice: real,
                                    minimumOrderQty: Option<real>, execute: bool): (p: Placement)
    requires amountUsd >= 0.0 && currentPrice > 0.0
    ensures p.params.LimitOrder? && p.params.productId == productId && p.params.price == currentPrice
    ensures p.params.side == Buy && p.params.timeInForce == GoodTillCancelled
    ensures p.params.size == LimitSize(amountUsd, currentPrice)
    ensures p.submitted <==> execute && minimumOrderQty.Some? && p.params.size > minimumOrderQty.value
  {
    var targetBuyQty := LimitSize(amountUsd, currentPrice);
    var orderParams := LimitOrder(productId, currentPrice, targetBuyQty, Buy, GoodTillCancelled);
    Placement(orderParams, execute && minimumOrderQty.Some? && targetBuyQty > minimumOrderQty.value)
  }

  /** The minimum gate in terms of the amount: an amount whose quantity is
      within rounding of the minimum or below it is never submitted, and one
      clearly above it is submitted whenever trading is on. */
  lemma MinimumGate(productId: string, amountUsd: real, currentPrice: real, minimum: real, execute: bool)
    requires amountUsd >= 0.0 && currentPrice > 0.0
    ensures amountUsd / currentPrice + 0.000000005 <= minimum ==>
              !PlaceOrderAtCurrentPrice(productId, amountUsd, currentPrice, Some(minimum), execute).submitted
    ensures amountUsd / currentPrice - 0.000000005 >= minimum ==>
              (PlaceOrderAtCurrentPrice(productId, amountUsd, currentPrice, Some(minimum), execute).submitted <==> execute)
  {
  }

  /** One level-1 order-book entry: `[price, size, num-orders]`. */
  datatype BookEntry = BookEntry(price: real, size: real)

  /** `placeOrderAtCurrentBid` (main.js:83-117): a GTC limit buy at the best
      bid; with round-up on, the quantity is raised to the exchange minimum
      in place. There is no minimum gate: the order is submitted exactly when
      trading is on. */
  method PlaceOrderAtCurrentBid(productId: string, amountUsd: real, bids: seq<BookEntry>,
                                minimumOrderQty: Option<real>, roundUp: bool, execute: bool)
    returns (r: Result<Placement>)
    requires amountUsd >= 0.0
    requires bids != [] ==> bids[0].price > 0.0
    ensures bids == [] ==> r == Failure(EmptyOrderBook(productId))
    ensures bids != [] && roundUp && minimumOrderQty.None? ==> r == Failure(UnknownMinimum(productId))
    ensures r.Success? <==> bids != [] && (roundUp ==> minimumOrderQty.Some?)
    ensures r.Success? ==>
              var o := r.value.params;
              && o.LimitOrder? && o.productId == productId && o.price == bids[0].price
              && o.side == Buy && o.timeInForce == GoodTillCancelled
              && (r.value.submitted <==> execute)
              && (!roundUp ==> o.size == LimitSize(amountUsd, bids[0].price))
              && (roundUp ==> o.size >= minimumOrderQty.value && o.size >= LimitSize(amountUsd, bids[0].price))
              && (roundUp && LimitSize(amountUsd, bids[0].price) >= minimumOrderQty.value ==>
                    o.size == LimitSize(amountUsd, bids[0].price))
              && (roundUp && LimitSize(amountUsd, bids[0].price) < minimumOrderQty.value ==>
                    o.size == minimumOrderQty.value)
  {
    if bids == [] {
      return Failure(EmptyOrderBook(productId));
    }
    var targetBid := bids[0].price;
    var targetBuyQty := LimitSize(amountUsd, targetBid);
    if roundUp {
      if minimumOrderQty.None? {
        return Failure(UnknownMinimum(productId));
      }
      targetBuyQty := Max(targetBuyQty, minimumOrderQty.value);
    }
    var orderParams := LimitOrder(productId, targetBid, targetBuyQty, Buy, GoodTillCancelled);
    return Success(Placement(orderParams, execute));
  }

  /* ---------------- buy.js: one order per tracked symbol ---------------- */

  /** The order step buy.js takes for one symbol (buy.js:187-195). */
  function BuyOrderFor(symbol: Symbol, amounts: map<Symbol, real>, minimums: map<Symbol, real>,
                       prices: map<Symbol, real>, limit: bool, execute: bool): Placement
    requires symbol in amounts && amounts[symbol] >= 0.0
    requires limit ==> symbol in prices && prices[symbol] > 0.0
  {
    var productId := ProductId(symbol);
    var amountUsd := amounts[symbol];
    if limit then PlaceOrderAtCurrentPrice(productId, amountUsd, prices[symbol], MinimumFor(minimums, symbol), execute)
    else BuyAtMarketPrice(productId, amountUsd, execute)
  }

  ghost predicate Priced(tracked: seq<Symbol>, prices: map<Symbol, real>)
  {
    forall i :: 0 <= i < |tracked| ==> tracked[i] in prices && prices[tracked[i]] > 0.0
  }

  /** buy.js:186-197, `symbolsToTrade.map(...)`: one order per tracked
      symbol, in configuration order, for that symbol's product and amount. A
      market order spends the amount as it is; a limit order is submitted only
      above the symbol's known minimum; nothing is submitted with trading off. */
  function BuyOrders(tracked: seq<Symbol>, amounts: map<Symbol, real>, minimums: map<Symbol, real>,
                     prices: map<Symbol, real>, limit: bool, execute: bool): (ps: seq<Placement>)
    requires NonNegativeOn(tracked, amounts)
    requires limit ==> Priced(tracked, prices)
    ensures |ps| == |tracked|
    ensures forall i :: 0 <= i < |ps| ==> ps[i].params.productId == ProductId(tracked[i])
    ensures forall i :: 0 <= i < |ps| && ps[i].submitted ==> execute
    ensures forall i :: 0 <= i < |ps| && !limit ==>
              ps[i].params.MarketOrder? && ps[i].params.funds == amounts[tracked[i]]
    ensures forall i :: 0 <= i < |ps| && limit ==>
              && ps[i].params.LimitOrder? && ps[i].params.price == prices[tracked[i]]
              && (ps[i].submitted ==> tracked[i] in minimums && ps[i].params.size > minimums[tracked[i]])
  {
    seq(|tracked|, i requires 0 <= i < |tracked| =>
      BuyOrderFor(tracked[i], amounts, minimums, prices, limit, execute))
  }

  /** The funds of the market orders in a list of placements. */
  function MarketFunds(ps: seq<Placement>): real
  {
    if ps == [] then 0.0
    else
      var last := ps[|ps| - 1];
      MarketFunds(ps[..|ps| - 1]) + (if last.params.MarketOrder? then last.params.funds else 0.0)
  }

  /** With market orders, the funds buy.js orders add up to the allocated
      amounts of the tracked symbols. */
  lemma {:induction false} MarketFundsMatchAmounts(tracked: seq<Symbol>, amounts: map<Symbol, real>,
                                                   minimums: map<Symbol, real>, prices: map<Symbol, real>, execute: bool)
    requires NonNegativeOn(tracked, amounts)
    ensures Covers(tracked, amounts)
    ensures MarketFunds(BuyOrders(tracked, amounts, minimums, prices, false, execute)) == SumOver(tracked, amounts)
  {
    if tracked != [] {
      var n := |tracked| - 1;
      assert NonNegativeOn(tracked[..n], amounts);
      MarketFundsMatchAmounts(tracked[..n], amounts, minimums, prices, execute);
      var ps := BuyOrders(tracked, amounts, minimums, prices, false, execute);
      assert ps[..n] == BuyOrders(tracked[..n], amounts, minimums, prices, false, execute);
    }
  }

  /** buy.js end to end with market orders: when the amounts are the
      cent-rounded deficit shares, the funds of the orders differ from the
      budget by at most half a cent per tracked symbol. */
  lemma MarketFundsNearBudget(tracked: seq<Symbol>, under: map<Symbol, real>, budget: real, amounts: map<Symbol, real>,
                              minimums: map<Symbol, real>, prices: map<Symbol, real>, execute: bool)
    requires NonNegativeOn(tracked, under) && budget >= 0.0
    requires SumOver(tracked, under) > 0.0
    requires forall i :: 0 <= i < |tracked| ==>
               tracked[i] in amounts && amounts[tracked[i]] == ToFixed2(Share(under[tracked[i]], SumOver(tracked, under), budget))
    ensures NonNegativeOn(tracked, amounts)
    ensures var funds := MarketFunds(BuyOrders(tracked, amounts, minimums, prices, false, execute));
            -0.005 * |tracked| as real <= funds - budget <= 0.005 * |tracked| as real
  {
    RoundedAmountsNearBudget(tracked, under, budget, amounts);
    MarketFundsMatchAmounts(tracked, amounts, minimums, prices, execute);
  }

  /* ---------------- main.js: one order per tracked symbol ---------------- */

  /** main.js:122-132: for each tracked symbol, in order, the
      weight-proportional amount in cents, spent at market or by a limit buy
      at the best bid of that product's order book. */
  method PurchaseAll(tracked: seq<Symbol>, weights: map<Symbol, real>, budget: real,
                     minimums: map<Symbol, real>, books: map<Symbol, seq<BookEntry>>,
                     limit: bool, roundUp: bool, execute: bool)
    returns (placements: seq<Result<Placement>>)
    requires forall i :: 0 <= i < |tracked| ==> tracked[i] in weights && weights[tracked[i]] >= 0.0
    requires budget >= 0.0
    requires limit ==> forall i :: 0 <= i < |tracked| ==>
               tracked[i] in books && (books[tracked[i]] != [] ==> books[tracked[i]][0].price > 0.0)
    ensures |placements| == |tracked|
    ensures forall i :: 0 <= i < |tracked| && !limit ==>
              placements[i] == Success(BuyAtMarketPrice(ProductId(tracked[i]), ProportionalAmount(weights[tracked[i]], budget), execute))
    ensures forall i :: 0 <= i < |tracked| && limit ==>
              && (placements[i].Success? <==> books[tracked[i]] != [] && (roundUp ==> tracked[i] in minimums))
              && (placements[i].Success? ==>
                    var o := placements[i].value.params;
                    && o.LimitOrder? && o.productId == ProductId(tracked[i])
                    && o.price == books[tracked[i]][0].price
                    && (placements[i].value.submitted <==> execute)
                    && o.side == Buy && o.timeInForce == GoodTillCancelled
                    && (roundUp ==> o.size == Max(LimitSize(ProportionalAmount(weights[tracked[i]], budget), books[tracked[i]][0].price),
                                                   minimums[tracked[i]]))
                    && (!roundUp ==> o.size == LimitSize(ProportionalAmount(weights[tracked[i]], budget), books[tracked[i]][0].price)))
  {
    placements := [];
    for i := 0 to |tracked|
      invariant |placements| == i
      invariant forall k :: 0 <= k < i && !limit ==>
                  placements[k] == Success(BuyAtMarketPrice(ProductId(tracked[k]), ProportionalAmount(weights[tracked[k]], budget), execute))
      invariant forall k :: 0 <= k < i && limit ==>
                  && (placements[k].Success? <==> books[tracked[k]] != [] && (roundUp ==> tracked[k] in minimums))
                  && (placements[k].Success? ==>
                        var o := placements[k].value.params;
                        && o.LimitOrder? && o.productId == ProductId(tracked[k])
                        && o.price == books[tracked[k]][0].price
                        && (placements[k].value.submitted <==> execute)
                        && o.side == Buy && o.timeInForce == GoodTillCancelled
                        && (roundUp ==> o.size == Max(LimitSize(ProportionalAmount(weights[tracked[k]], budget), books[tracked[k]][0].price),
                                                       minimums[tracked[k]]))
                        && (!roundUp ==> o.size == LimitSize(ProportionalAmount(weights[tracked[k]], budget), books[tracked[k]][0].price)))
    {
      var symbol := tracked[i];
      var productId := symbol + "-USD";
      assert productId == ProductId(symbol);
      var amountUsd := ProportionalAmount(weights[symbol], budget);
      var minimumOrderQty := MinimumFor(minimums, symbol);
      var placement;
      if limit {
        placement := PlaceOrderAtCurrentBid(productId, amountUsd, books[symbol], minimumOrderQty, roundUp, execute);
      } else {
        placement := Success(BuyAtMarketPrice(productId, amountUsd, execute));
      }
      placements := placements + [placement];
    }
  }
}
