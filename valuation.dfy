/** Portfolio valuation: what each account is worth at the current prices,
    and the invested total over the tracked symbols (buy.js:67-95,
    calculateCurrentAndTargetAssetAllocation.js:55-83). */
module Valuation {
  import opened Wrappers
  import opened Numeric
  import opened Products

  /** One exchange account, `balance` already parsed. */
  datatype Account = Account(currency: Symbol, balance: real)

  /** An entry of `accountBalances`. `value` is None for a currency with no
      price, where the script stores NaN. */
  datatype Holding = Holding(balance: real, value: Option<real>)

  function CurrencyOf(a: Account): Symbol
  {
    a.currency
  }

  function CurrenciesOf(accounts: seq<Account>): (r: seq<Symbol>)
    ensures |r| == |accounts|
    ensures forall i :: 0 <= i < |r| ==> r[i] == accounts[i].currency
  {
    seq(|accounts|, i requires 0 <= i < |accounts| => accounts[i].currency)
  }

  /** `currentPrices` after `currentPrices[quoteCurrency] = 1`: the ticker
      prices with the quote currency priced at exactly 1. */
  function PaddedPrices(tickerPrices: map<Symbol, real>): (p: map<Symbol, real>)
    ensures p.Keys == tickerPrices.Keys + {QuoteCurrency}
    ensures p[QuoteCurrency] == 1.0
    ensures forall s :: s in tickerPrices && s != QuoteCurrency ==> p[s] == tickerPrices[s]
  {
    tickerPrices[QuoteCurrency := 1.0]
  }

  /** The object literal `{balance, value: balance * currentPrices[currency]}`. */
  function HoldingOf(a: Account, prices: map<Symbol, real>): Holding
  {
    if a.currency in prices then Holding(a.balance, Some(a.balance * prices[a.currency]))
    else Holding(a.balance, None)
  }

  /** The account an object filled by `forEach` keeps for c: the last one listed. */
  function LatestAccount(accounts: seq<Account>, c: Symbol): Account
  {
    match Latest(accounts, CurrencyOf, c)
    case Some(a) => a
    case None => Account(c, 0.0)
  }

  /** `accountBalances` after the `forEach`: one holding per listed currency. */
  function BalanceMap(accounts: seq<Account>, prices: map<Symbol, real>): map<Symbol, Holding>
  {
    map c | c in CurrenciesOf(accounts) :: HoldingOf(LatestAccount(accounts, c), prices)
  }

  lemma BalanceMapSnoc(accounts: seq<Account>, a: Account, prices: map<Symbol, real>)
    ensures BalanceMap(accounts + [a], prices) == BalanceMap(accounts, prices)[a.currency := HoldingOf(a, prices)]
  {
    var grown := accounts + [a];
    assert grown[..|grown| - 1] == accounts;
    var before, after := BalanceMap(accounts, prices), BalanceMap(grown, prices);
    forall c ensures c in after <==> c in before || c == a.currency {
      CurrenciesSnoc(accounts, a, c);
    }
    forall c | c in after ensures after[c] == before[a.currency := HoldingOf(a, prices)][c] {
      if c != a.currency {
        assert LatestAccount(grown, c) == LatestAccount(accounts, c);
      }
    }
  }

  lemma CurrenciesSnoc(accounts: seq<Account>, a: Account, c: Symbol)
    ensures c in CurrenciesOf(accounts + [a]) <==> c in CurrenciesOf(accounts) || c == a.currency
  {
    var grown := accounts + [a];
    if c in CurrenciesOf(grown) {
      var i :| 0 <= i < |grown| && CurrenciesOf(grown)[i] == c;
      if i < |accounts| {
        assert CurrenciesOf(accounts)[i] == c;
      }
    }
    if c in CurrenciesOf(accounts) {
      var i :| 0 <= i < |accounts| && CurrenciesOf(accounts)[i] == c;
      assert CurrenciesOf(grown)[i] == c;
    }
    if c == a.currency {
      assert CurrenciesOf(grown)[|accounts|] == c;
    }
  }

  /** buy.js:82-89 and calculateCurrentAndTargetAssetAllocation.js:70-77: pad
      the prices with the quote-currency sentinel, then record every account's
      balance and value; a later account for the same currency overwrites an
      earlier one. */
  method AccountBalances(accounts: seq<Account>, tickerPrices: map<Symbol, real>)
    returns (balances: map<Symbol, Holding>)
    ensures balances == BalanceMap(accounts, PaddedPrices(tickerPrices))
  {
    var prices := tickerPrices[QuoteCurrency := 1.0];
    balances := map[];
    var i := 0;
    while i < |accounts|
      invariant 0 <= i <= |accounts|
      invariant balances == BalanceMap(accounts[..i], prices)
    {
      assert accounts[..i + 1] == accounts[..i] + [accounts[i]];
      BalanceMapSnoc(accounts[..i], accounts[i], prices);
      var a := accounts[i];
      balances := balances[a.currency := HoldingOf(a, prices)];
      i := i + 1;
    }
    assert accounts[..i] == accounts;
  }

  /** What `accountBalances` holds for a currency: an entry exactly when some
      account is in that currency, the last such account's balance, a value
      exactly when the currency is priced, and for the quote currency a value
      equal to the balance. */
  lemma BalanceMapHolding(accounts: seq<Account>, tickerPrices: map<Symbol, real>, c: Symbol)
    ensures c in BalanceMap(accounts, PaddedPrices(tickerPrices)) <==>
              exists i :: 0 <= i < |accounts| && accounts[i].currency == c
    ensures c in BalanceMap(accounts, PaddedPrices(tickerPrices)) ==>
              var h := BalanceMap(accounts, PaddedPrices(tickerPrices))[c];
              && h.balance == LatestAccount(accounts, c).balance
              && LatestAccount(accounts, c) in accounts
              && (h.value.Some? <==> c in tickerPrices || c == QuoteCurrency)
              && (c == QuoteCurrency ==> h.value.Some? && h.value.value == h.balance)
              && (c != QuoteCurrency && c in tickerPrices ==> h.value.Some? && h.value.value == h.balance * tickerPrices[c])
  {
    var prices := PaddedPrices(tickerPrices);
    BalanceMapKeys(accounts, prices, c);
    if c in BalanceMap(accounts, prices) {
      LatestFound(accounts, CurrencyOf, c);
      var a := LatestAccount(accounts, c);
      assert a.currency == c;
      assert BalanceMap(accounts, prices)[c] == HoldingOf(a, prices);
      if c != QuoteCurrency && c in tickerPrices {
        HoldingAtTickerPrice(a, tickerPrices);
      }
    }
  }

  /** `accountBalances` has a key exactly for the currencies of the accounts. */
  lemma BalanceMapKeys(accounts: seq<Account>, prices: map<Symbol, real>, c: Symbol)
    ensures c in BalanceMap(accounts, prices) <==> exists i :: 0 <= i < |accounts| && accounts[i].currency == c
  {
    if exists i :: 0 <= i < |accounts| && accounts[i].currency == c {
      var i :| 0 <= i < |accounts| && accounts[i].currency == c;
      assert CurrenciesOf(accounts)[i] == c;
    }
    if c in CurrenciesOf(accounts) {
      var i :| 0 <= i < |accounts| && CurrenciesOf(accounts)[i] == c;
      assert accounts[i].currency == c;
    }
  }

  /** A holding in a currency the ticker priced is valued at the ticker price. */
  lemma HoldingAtTickerPrice(a: Account, tickerPrices: map<Symbol, real>)
    requires a.currency != QuoteCurrency && a.currency in tickerPrices
    ensures HoldingOf(a, PaddedPrices(tickerPrices)) == Holding(a.balance, Some(a.balance * tickerPrices[a.currency]))
  {
    var prices := PaddedPrices(tickerPrices);
    var v := a.balance * tickerPrices[a.currency];
    assert a.currency in prices && prices[a.currency] == tickerPrices[a.currency];
    assert a.balance * prices[a.currency] == v;
    var o := HoldingOf(a, prices).value;
    assert o.Some? && o.value == v;
    assert o == Some(o.value);
  }

  /** The tracked symbols all have a holding with a value. */
  ghost predicate Valued(tracked: seq<Symbol>, balances: map<Symbol, Holding>)
  {
    forall i :: 0 <= i < |tracked| ==> tracked[i] in balances && balances[tracked[i]].value.Some?
  }

  /** Every tracked symbol that has a holding has a value. */
  ghost predicate PricedWhereHeld(tracked: seq<Symbol>, balances: map<Symbol, Holding>)
  {
    forall i :: 0 <= i < |tracked| && tracked[i] in balances ==> balances[tracked[i]].value.Some?
  }

  /** The USD value of every holding that has one. */
  function Values(balances: map<Symbol, Holding>): (v: map<Symbol, real>)
    ensures forall c :: c in v <==> c in balances && balances[c].value.Some?
  {
    map c | c in balances && balances[c].value.Some? :: balances[c].value.value
  }

  /** `symbolsToTrade.reduce((total, s) => accountBalances[s].value + total, 0)`
      (buy.js:90-93, calculateCurrentAndTargetAssetAllocation.js:78-81): the
      sum of the tracked values; the first tracked symbol without an account
      makes the `reduce` throw. */
  function InvestedTotal(tracked: seq<Symbol>, balances: map<Symbol, Holding>): (r: Result<real>)
    requires PricedWhereHeld(tracked, balances)
    ensures r.Success? <==> forall i :: 0 <= i < |tracked| ==> tracked[i] in balances
    ensures r.Success? ==> Covers(tracked, Values(balances)) && r.value == SumOver(tracked, Values(balances))
    ensures r.Failure? ==>
              exists i :: 0 <= i < |tracked| && tracked[i] !in balances && r.error == MissingAccount(tracked[i])
                       && forall j :: 0 <= j < i ==> tracked[j] in balances
  {
    if tracked == [] then Success(0.0)
    else
      var n := |tracked| - 1;
      assert forall i :: 0 <= i < n ==> tracked[..n][i] == tracked[i];
      assert PricedWhereHeld(tracked[..n], balances);
      match InvestedTotal(tracked[..n], balances)
      case Failure(e) => Failure(e)
      case Success(total) =>
        var s := tracked[n];
        if s in balances then Success(balances[s].value.value + total)
        else Failure(MissingAccount(s))
  }

  /** Accounts in currencies that are not tracked never change the invested total. */
  lemma InvestedTotalIgnoresOtherCurrencies(tracked: seq<Symbol>, balances: map<Symbol, Holding>, others: map<Symbol, Holding>)
    requires PricedWhereHeld(tracked, balances)
    requires forall i :: 0 <= i < |tracked| ==> (tracked[i] in balances <==> tracked[i] in others)
    requires forall i :: 0 <= i < |tracked| && tracked[i] in balances ==> balances[tracked[i]].value == others[tracked[i]].value
    ensures PricedWhereHeld(tracked, others)
    ensures InvestedTotal(tracked, balances).Success? <==> InvestedTotal(tracked, others).Success?
    ensures InvestedTotal(tracked, balances).Success? ==> InvestedTotal(tracked, balances) == InvestedTotal(tracked, others)
  {
    if InvestedTotal(tracked, balances).Success? {
      SumOverAgree(tracked, Values(balances), Values(others));
    }
  }

  /** When the ticker priced every tracked symbol, each tracked holding has a
      value, so the invested total is well defined; it succeeds exactly when
      every tracked symbol has an account. */
  lemma TrackedHoldingsPriced(accounts: seq<Account>, tickerPrices: map<Symbol, real>, tracked: seq<Symbol>)
    requires forall i :: 0 <= i < |tracked| ==> tracked[i] in tickerPrices
    ensures PricedWhereHeld(tracked, BalanceMap(accounts, PaddedPrices(tickerPrices)))
    ensures InvestedTotal(tracked, BalanceMap(accounts, PaddedPrices(tickerPrices))).Success? ==>
              Valued(tracked, BalanceMap(accounts, PaddedPrices(tickerPrices)))
  {
    forall i | 0 <= i < |tracked| && tracked[i] in BalanceMap(accounts, PaddedPrices(tickerPrices))
      ensures BalanceMap(accounts, PaddedPrices(tickerPrices))[tracked[i]].value.Some?
    {
      BalanceMapHolding(accounts, tickerPrices, tracked[i]);
    }
  }
}
