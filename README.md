# GDAX automation: rebalancing and order-sizing arithmetic

The GDAX automation scripts buy a basket of crypto-currencies on the GDAX
exchange. Each basket symbol is weighted by its share of the market cap of
the symbols tracked. Three Node scripts repeat versions of the same pipeline:

- `buy.js` values the portfolio, works out how far each tracked symbol is
  below its market-cap target, and splits a USD budget over the underweight
  symbols in proportion to their deficits. It then places one market order,
  or one limit order at the ticker price, per symbol.
- `main.js` splits the budget in proportion to the market-cap weights
  alone. It places market orders, or limit orders at the best bid, rounding
  the quantity up to the exchange minimum if configured.
- `calculateCurrentAndTargetAssetAllocation.js` computes each symbol's
  target value and the (unclamped) change that would reach it.

This project models that arithmetic in Dafny, with every amount an exact
`real`. The network calls become inputs: the coinmarketcap ticker, the
exchange's products, tickers, accounts and order books.

Modules:

- `Wrappers`: `Option`, `Result`, and the error cases. Each error is a place
  where a script throws, or produces `NaN` and goes on.
- `Numeric`:
  - `toFixed(2)` and `toFixed(8)` as round half up;
  - `reduce` sums over the tracked symbols (`SumOver`) and their algebra;
  - the "last write wins" rule of a `forEach` filling an object (`Latest`).
- `Products`: the product id `symbol + "-USD"`.
- `MarketWeights`: filtering the market-cap feed to the tracked symbols and
  computing their weights. There are two totals: the seeded `reduce` of
  `buy.js` and the calculation script, and the seedless `reduce` of
  `main.js`.
- `Valuation`: account balances and values at the current prices, with USD
  priced at the sentinel 1. It also computes the invested total over the
  tracked symbols.
- `Allocation`:
  - target values;
  - deficits and their total;
  - the deficit-proportional split of `buy.js`;
  - the weight-proportional amounts of `main.js`;
  - the deltas of the calculation script.
- `Orders`:
  - minimum order sizes;
  - market and limit order parameters;
  - the submission gates;
  - the per-symbol order passes of `buy.js` and `main.js`.

Where the source fills an object with a `forEach`, the model has a method
with a loop that updates a `map`. That method is proved equal to a function
stated over the whole input, and the properties are lemmas about that
function.

Behaviours of the scripts worth knowing when reading the model:

- A tracked symbol with no exchange account makes the invested-total
  `reduce` throw (buy.js:91); the model returns `MissingAccount`.
- An empty filtered market-cap list gives an empty weight object in `buy.js`
  and the calculation script. It is a failure only in `main.js`, whose
  `reduce` has no seed (main.js:42-44).
- A tracked currency without a price would get a `NaN` value (buy.js:87).
  The scripts fetch a price for every tracked symbol, so the model requires
  that those prices exist.
- The budget is not checked for being positive. The model requires only that
  it is not negative.

## Model

| member | source | states |
|---|---|---|
| Products.ProductId | calculateCurrentAndTargetAssetAllocation.js:28-30 | the product id is the symbol followed by `-USD` |
| Products.ProductIdInjective | buy.js:31-33 | distinct symbols get distinct product ids |
| Numeric.RoundHalfUp | buy.js:181 | the rounded integer is within half of the value, ties going up |
| Numeric.ToFixed2 | buy.js:181 | `toFixed(2)` of a non-negative amount is a non-negative whole number of cents within half a cent of it |
| Numeric.ToFixed8 | buy.js:131 | `toFixed(8)` of a non-negative quantity is non-negative, on the 1e-8 grid, within 5e-9 of it |
| Numeric.ToFixed2Monotone | buy.js:181 | rounding to cents never reverses the order of two amounts |
| Numeric.ToFixed8Monotone | main.js:89 | rounding to 8 decimals never reverses the order of two quantities |
| Numeric.ToFixed2Exact | main.js:125 | an amount already in whole cents is unchanged by rounding to cents |
| Numeric.ToFixed2Idempotent | buy.js:181 | rounding an amount to cents twice is the same as once |
| Numeric.ToFixed8Idempotent | buy.js:131 | rounding a quantity to 8 decimals twice is the same as once |
| Numeric.Max | buy.js:173 | `Math.max` of two numbers is at least both and is one of them |
| MarketWeights.TotalMarketCap | buy.js:49-51 | the seeded `reduce` sums the caps, and with no negative cap the total is not negative |
| MarketWeights.SeedlessTotal | main.js:42-44 | the unseeded `reduce` is defined only on a non-empty list, and there it gives the same total as the seeded one |
| MarketWeights.WeightMap | buy.js:52-55 | definition of the object the `forEach` fills: a key per listed symbol, holding its last cap over the total; WeightMapSnoc, WeightAt, WeightsBounded and WeightsSumToOne prove its properties |
| MarketWeights.MarketCapWeights | buy.js:48-56 | definition of buy.js's weights (a failure for a non-empty list with zero total); RelativeMarketCaps computes it, and WeightKeysAreTracked, WeightsBounded and TrackedWeightsSumToOne prove its properties |
| MarketWeights.FilterTracked | buy.js:41-43 | an entry survives the filter exactly when it is in the feed and its symbol is tracked; the list never grows |
| MarketWeights.WeightMapSnoc | buy.js:52-55 | one more entry of the `forEach` overwrites its symbol's weight with its cap over the total |
| MarketWeights.FillWeights | calculateCurrentAndTargetAssetAllocation.js:49-52 | the loop leaves each symbol of the list with the last listed cap for it over the total |
| MarketWeights.RelativeMarketCaps | buy.js:48-56 | the weights are the caps over their seeded sum; a non-empty list with zero total is a failure; an empty list gives no weights |
| MarketWeights.RelativePurchaseWeights | main.js:41-49 | an empty filtered list is a failure (the unseeded `reduce` throws); otherwise the weights are those of buy.js |
| MarketWeights.WeightKeysAreTracked | buy.js:41-55 | every symbol with a weight is tracked, and an empty filtered list yields an empty weight object |
| MarketWeights.CapAtMostTotal | buy.js:49-51 | with non-negative caps, each entry's cap lies between 0 and the total |
| MarketWeights.WeightsBounded | buy.js:52-55 | with non-negative caps every weight lies in [0, 1] |
| MarketWeights.WeightAt | main.js:45-48 | when each symbol is listed once, the weight of an entry's symbol is that entry's cap over the total |
| MarketWeights.WeightPrefixSum | calculateCurrentAndTargetAssetAllocation.js:46-52 | the weights of the first k entries sum to their caps' total over the divisor |
| MarketWeights.WeightsSumToOne | buy.js:49-55 | with each symbol listed once and a positive total, the weights over the listed symbols sum to 1 |
| MarketWeights.FilterKeepsDistinct | main.js:34-36 | filtering a feed that lists each symbol once keeps each symbol once |
| MarketWeights.TrackedWeightsSumToOne | calculateCurrentAndTargetAssetAllocation.js:38-52 | when the feed lists every tracked symbol once and the total is positive, the weights summed over the tracked symbols are 1 |
| Valuation.PaddedPrices | buy.js:82 | the price map gains USD at exactly 1 and keeps every other price |
| Valuation.HoldingOf | buy.js:85-88 | definition of one `{balance, value}` entry: the value is balance × price, and absent without a price; BalanceMapHolding and HoldingAtTickerPrice prove what it holds for the padded prices |
| Valuation.BalanceMap | buy.js:84-89 | definition of `accountBalances` after the `forEach`; AccountBalances computes it, and BalanceMapSnoc, BalanceMapKeys and BalanceMapHolding prove its properties |
| Valuation.BalanceMapSnoc | buy.js:84-89 | one more account overwrites its currency's holding with its balance and value |
| Valuation.AccountBalances | buy.js:81-89 | the loop leaves, for each listed currency, the last account's balance and its value at the padded prices |
| Valuation.BalanceMapKeys | buy.js:84-89 | `accountBalances` has a key exactly for each currency some account is in |
| Valuation.BalanceMapHolding | calculateCurrentAndTargetAssetAllocation.js:70-77 | a currency has a holding exactly when some account is in it; the holding carries the last such account's balance; it has a value exactly when the currency is priced or is USD; USD is valued at its balance and any other currency at balance × price |
| Valuation.InvestedTotal | buy.js:90-93 | the total succeeds exactly when every tracked symbol has a holding, and is then the sum of their values in tracked order; otherwise it fails on the first tracked symbol without an account |
| Valuation.InvestedTotalIgnoresOtherCurrencies | calculateCurrentAndTargetAssetAllocation.js:78-81 | holdings of currencies that are not tracked never change the invested total |
| Valuation.TrackedHoldingsPriced | buy.js:67-93 | when every tracked symbol has a ticker price, every tracked holding has a value, and a successful total means all are valued |
| Allocation.TargetMap | calculateCurrentAndTargetAssetAllocation.js:102-103 | exactly the tracked symbols get a target, each the invested total times its weight |
| Allocation.TargetsSumToTotal | calculateCurrentAndTargetAssetAllocation.js:101-103 | when the weights sum to 1 the targets sum to the invested total |
| Allocation.Deficit | buy.js:173 | the underweight amount is non-negative, zero exactly when current ≥ target, and otherwise the gap that lifts current to target |
| Allocation.UnderweightMap | buy.js:170-174 | exactly the tracked symbols get a deficit, each `max(target − current, 0)` |
| Allocation.UnderweightStep | buy.js:175 | one more symbol adds its deficit to the running total |
| Allocation.AmountsUnderweight | buy.js:168-176 | the loop records every tracked symbol's deficit, and the accumulated total is the sum of the recorded deficits |
| Allocation.DeficitsBounded | buy.js:170-176 | each deficit lies between 0 and the total deficit, and is 0 exactly when the symbol is at or above its target |
| Allocation.NoDeficitIffAtOrAboveTarget | buy.js:168-176 | the total deficit is 0 exactly when every tracked symbol is at or above its target; AmountsUnderweight returns that total, and UsdAmountsToBuy fails exactly when it is 0, so together they give no amounts exactly when nothing is underweight |
| Allocation.NoDeficitMeansBalanced | buy.js:90-93 | when the weights sum to 1 and the total is the sum of the values, a zero total deficit means every symbol is exactly at target |
| Allocation.Share | buy.js:180-181 | the unrounded share is to the budget as the symbol's deficit is to the total deficit |
| Allocation.ShareMap | buy.js:179-181 | exactly the tracked symbols get a share, each deficit over total deficit times budget |
| Allocation.UsdAmountsToBuy | buy.js:178-182 | a zero total deficit yields no amounts (the script divides 0 by 0); otherwise every tracked symbol gets its share rounded to cents |
| Allocation.SharesSplitBudget | buy.js:179-181 | with a positive total deficit each unrounded share lies in [0, budget], is 0 exactly for a symbol without deficit, and the shares sum to the budget |
| Allocation.ShareBounds | buy.js:180-181 | one unrounded share lies in [0, budget] and is 0 exactly for a symbol without deficit |
| Allocation.SharesScale | buy.js:179-181 | when the total deficit is the sum of the deficits, the unrounded shares sum to exactly the budget |
| Allocation.ShareGrowsWithOwnDeficit | buy.js:170-181 | raising one symbol's deficit while the others stay fixed (so the total grows with it) never lowers that symbol's allocation, before or after rounding to cents |
| Allocation.ShareMonotone | buy.js:180-181 | within one pass (one total deficit), a symbol with a larger deficit never gets a smaller allocation, before or after rounding to cents |
| Allocation.RoundedAmountsNearBudget | buy.js:178-182 | the cent-rounded amounts sum to the budget give or take half a cent per tracked symbol |
| Allocation.ProportionalAmount | main.js:125 | the spend is a non-negative whole number of cents within half a cent of weight × budget |
| Allocation.ProportionalAmountBounded | main.js:125 | for a weight in [0, 1] the spend is within half a cent of weight × budget and lies between 0 and a whole-cent budget |
| Allocation.ProportionalSpendsSumToBudget | main.js:123-126 | when the weights sum to 1 the unrounded spends sum to the budget |
| Allocation.DeltaMap | calculateCurrentAndTargetAssetAllocation.js:104-105 | exactly the tracked symbols get a delta, each target − current with no clamp |
| Allocation.TargetsAndDeltas | calculateCurrentAndTargetAssetAllocation.js:99-106 | the loop records every tracked symbol's target and unclamped delta |
| Allocation.DeltasBalance | calculateCurrentAndTargetAssetAllocation.js:101-106 | a delta is negative exactly for an overweight symbol and zero exactly at target, and the deltas sum to 0 when the weights sum to 1 and the total is the sum of the values |
| Orders.EligibleBase | buy.js:61 | definition of buy.js's filter (tracked base and USD quote) and of main.js's (tracked base only, main.js:54); MinimumOrderQtys, MinimumOrderQtysAnyQuote and UsdMinimumsAgree state what each keeps |
| Orders.MinimumMap | buy.js:58-65 | definition of `minimumOrderQtys` after the filtered `forEach`; FillMinimums computes it, and MinimumMapSnoc and MinimumMapEntries prove its properties |
| Orders.MinimumMapSnoc | main.js:55-57 | one more product that passes the filter overwrites its base's minimum; one that does not changes nothing |
| Orders.FillMinimums | buy.js:60-64 | the filtered loop leaves each base with the minimum of the last product that passed the filter |
| Orders.MinimumOrderQtys | buy.js:58-65 | the minimums are taken from products of a tracked base quoted in USD only |
| Orders.MinimumOrderQtysAnyQuote | main.js:51-58 | the minimums are taken from products of a tracked base whatever their quote |
| Orders.MinimumMapEntries | main.js:53-57 | a base has a minimum exactly when a product passes the filter with it, and that minimum is the last such product's |
| Orders.UsdMinimumsAgree | buy.js:60-62 | every base buy.js has a minimum for also has one in main.js, and the two maps agree when all products of tracked bases are quoted in USD |
| Orders.AnyQuoteKeepsLastListed | main.js:53-57 | for BTC-USD then BTC-EUR, buy.js keeps the USD minimum and main.js the EUR one |
| Orders.MinimumFor | buy.js:190 | a symbol's minimum is known exactly when the exchange listed its product |
| Orders.LimitSize | buy.js:131 | the limit quantity is non-negative and within 5e-9 of amount over price |
| Orders.LimitOrderCost | buy.js:131-145 | size × price is within 5e-9 × price of the amount the order was sized for |
| Orders.BuyAtMarketPrice | buy.js:107-125 | a market order carries the amount unchanged as its funds and is submitted exactly when trading is on (likewise main.js:65-81) |
| Orders.PlaceOrderAtCurrentPrice | buy.js:127-157 | a GTC limit buy at the ticker price for the 8-decimal quantity, submitted exactly when trading is on and the quantity is strictly above a known minimum |
| Orders.MinimumGate | buy.js:147 | an amount whose quantity cannot exceed the minimum is never submitted; one whose quantity clearly exceeds it is submitted whenever trading is on |
| Orders.PlaceOrderAtCurrentBid | main.js:83-117 | an empty book is a failure; a GTC limit buy at the best bid for the 8-decimal quantity; with round-up the quantity is at least the minimum and is unchanged when already sufficient; submitted exactly when trading is on |
| Orders.BuyOrderFor | buy.js:187-195 | definition of the order step for one symbol: a limit order at the ticker price with the symbol's minimum, or a market order for the amount; BuyOrders, MinimumGate and MarketFundsMatchAmounts prove its properties |
| Orders.BuyOrders | buy.js:186-197 | one order per tracked symbol in order, for its product id; market orders spend the allocated amount; submitted limit orders exceed the symbol's minimum; nothing is submitted with trading off |
| Orders.MarketFundsMatchAmounts | buy.js:186-196 | the market orders' funds sum to the allocated amounts of the tracked symbols |
| Orders.MarketFundsNearBudget | buy.js:178-196 | with market orders the funds ordered differ from the budget by at most half a cent per tracked symbol |
| Orders.PurchaseAll | main.js:122-132 | one outcome per tracked symbol in order: a market order for the weight-proportional amount, or a GTC limit buy at that product's best bid whose size is the amount over the bid rounded to 8 decimals, raised to the minimum with round-up (left unchanged when already at or above it); a failure exactly for an empty book or round-up without a minimum; submitted exactly when trading is on |

## Left out

- Network I/O: the coinmarketcap `fetch` and every `gdaxClient` call (`getProducts`, `getProductTicker`, `getProductOrderBook`, `getAccounts`, `buy`). Their results are inputs. An order counts as "submitted" when the script hands it to `buy`; the exchange's reply is not modelled.
- Promise chaining, `Promise.all` and `loadingFinished`. This includes the shared `gdaxClient.productID` written inside a concurrent `map` (buy.js:70), which is concurrency rather than arithmetic.
- Reading `config`, `secrets` and `process.env`. Configuration flags become parameters (`limit`, `roundUp`, `execute`), and the budget becomes an argument.
- All `console.log` output.
- IEEE-754 behaviour: binary rounding error, `Infinity`, `Number.parseFloat` of strings. Every amount is an exact `real`.
- Exceptions and `NaN` propagation are replaced by explicit failures:
  - a zero total market cap, where the script divides by 0 and gets `NaN` weights;
  - a missing account, where `accountBalances[symbol].value` throws a `TypeError` (buy.js:91);
  - an empty order book, where `orderBook.bids[0][0]` throws a `TypeError` (main.js:88);
  - round-up without a known minimum, where `Math.max` returns `NaN`.
- String coercion. `toFixed` returns strings, which the scripts compare (buy.js:147) or pass to `Math.max` (main.js:92). Here those are numeric operations on the rounded real. main.js keeps `base_min_size` unparsed; here it is a number.
- Allocation.AmountsUnderweight, Allocation.TargetsAndDeltas: require a weight and a value for every tracked symbol. A tracked symbol missing from the market-cap feed gives an undefined weight and `NaN` amounts in the scripts.
- Orders.PurchaseAll: requires a weight for every tracked symbol, for the same reason. It also requires a fetched order book for each one when limit orders are used.
- Valuation.InvestedTotal: requires every held tracked currency to have a price. The scripts fetch a ticker for every tracked symbol (Valuation.TrackedHoldingsPriced), and a missing price would give `NaN`.
- Orders.PlaceOrderAtCurrentPrice, Orders.LimitSize: require a positive price and a non-negative amount. A zero price would size an infinite order.
- Orders.PlaceOrderAtCurrentBid: round-up with no known minimum is a failure here. The script computes `Math.max(size, undefined)`, which is `NaN`, and submits that order.
- Allocation.UsdAmountsToBuy: a zero total deficit yields no amounts. In the script every amount becomes `"NaN"`: a market order then asks for `"NaN"` dollars (buy.js:110), while a limit order gets the size `"NaN"`, fails `targetBuyQty > minimumOrderQty` and is not submitted (buy.js:131, 147).
- Allocation.SharesSplitBudget, Allocation.RoundedAmountsNearBudget, Orders.MarketFundsNearBudget: take the total deficit passed in to be the sum of the deficits, as Allocation.AmountsUnderweight proves it is.
