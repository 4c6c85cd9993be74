/** Option and Result values for the outcomes the scripts leave unhandled. */
module Wrappers {

  datatype Option<+T> = None | Some(value: T)

  /** Why a rebalancing step produced no usable value. In the scripts each of
      these is an exception thrown inside a promise chain or a NaN that flows
      into an order. */
  datatype Error =
    | ZeroTotalMarketCap          // cap / 0 for a non-empty filtered list
    | EmptyMarketCapData          // `reduce` without a seed on an empty array
    | MissingAccount(symbol: string)  // `accountBalances[symbol].value` on undefined
    | NoUnderweight               // 0 / 0 when no tracked symbol is underweight
    | EmptyOrderBook(productId: string)  // `orderBook.bids[0]` on an empty book
    | UnknownMinimum(productId: string)  // `Math.max(size, undefined)` is NaN

  datatype Result<+T> = Success(value: T) | Failure(error: Error)
}
