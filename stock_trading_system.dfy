/**
 * The share ledger of the second trading simulator: a `portfolio` map from a
 * market symbol to the number of shares held, updated by the Buy and Sell
 * button handlers after early-return guards.
 */
module StockTradingSystem {
  import opened JavaInt

  /** How a Buy or Sell click ends; every value but Done is an error alert. */
  datatype Outcome =
    | Done
    | InvalidQuantity      // "Quantity must be positive."
    | InvalidSymbol        // "Stock symbol does not exist."
    | InsufficientShares   // "Not enough shares to sell."
    | QuantityTooLarge     // the held amount would not fit in an int

  datatype TradeResult = TradeResult(outcome: Outcome, portfolio: map<string, int32>)

  /** One click of the Buy or Sell button with an already parsed, upper-cased symbol. */
  datatype Trade = BuyOrder(symbol: string, quantity: int32) | SellOrder(symbol: string, quantity: int32)

  /** The symbols `seedMarketData` puts into `marketData` (their prices are not modelled). */
  const SeededSymbols: set<string> := {"AAPL", "GOOGL", "AMZN", "MSFT"}

  /** The ledger invariant: every held amount is positive and every key is a known market symbol. */
  ghost predicate Consistent(portfolio: map<string, int32>, market: set<string>) {
    && (forall s | s in portfolio :: portfolio[s] > 0)
    && portfolio.Keys <= market
  }

  /** `Map.getOrDefault(symbol, 0)`. */
  function HeldOrZero(portfolio: map<string, int32>, symbol: string): (n: int32)
    ensures symbol !in portfolio ==> n == 0
    ensures symbol in portfolio ==> n == portfolio[symbol]
  {
    if symbol in portfolio then portfolio[symbol] else 0
  }

  /**
   * `handleBuy` as the source writes it: after the two guards it stores
   * `getOrDefault(symbol, 0) + quantity`, a Java `int` addition that wraps.
   */
  function BuyAsWritten(portfolio: map<string, int32>, market: set<string>, symbol: string, quantity: int32): (r: TradeResult)
    ensures r.outcome != Done ==> r.portfolio == portfolio
  {
    if quantity <= 0 then TradeResult(InvalidQuantity, portfolio)
    else if symbol !in market then TradeResult(InvalidSymbol, portfolio)
    else TradeResult(Done, portfolio[symbol := Wrap32(HeldOrZero(portfolio, symbol) + quantity)])
  }

  /**
   * `handleBuy` with the overflow the source misses rejected: a buy whose
   * new holding would exceed the largest `int` leaves the portfolio as it was.
   */
  function Buy(portfolio: map<string, int32>, market: set<string>, symbol: string, quantity: int32): (r: TradeResult)
    ensures r.outcome != Done ==> r.portfolio == portfolio
    ensures r.outcome == Done ==> r.portfolio.Keys == portfolio.Keys + {symbol}
    ensures forall s | s in portfolio && s != symbol :: s in r.portfolio && r.portfolio[s] == portfolio[s]
  {
    if quantity <= 0 then TradeResult(InvalidQuantity, portfolio)
    else if symbol !in market then TradeResult(InvalidSymbol, portfolio)
    else if HeldOrZero(portfolio, symbol) + quantity > MAX_INT then TradeResult(QuantityTooLarge, portfolio)
    else TradeResult(Done, portfolio[symbol := HeldOrZero(portfolio, symbol) + quantity])
  }

  /**
   * `handleSell`: reject a non-positive quantity or a sale larger than the
   * holding; otherwise subtract, and drop the symbol once nothing is left.
   */
  function Sell(portfolio: map<string, int32>, symbol: string, quantity: int32): (r: TradeResult)
    ensures r.outcome != Done ==> r.portfolio == portfolio
    ensures r.portfolio.Keys <= portfolio.Keys
    ensures forall s | s in portfolio && s != symbol :: s in r.portfolio && r.portfolio[s] == portfolio[s]
  {
    if quantity <= 0 then TradeResult(InvalidQuantity, portfolio)
    else if symbol !in portfolio || portfolio[symbol] < quantity then TradeResult(InsufficientShares, portfolio)
    else
      var left := Wrap32(portfolio[symbol] - quantity);
      if left == 0 then TradeResult(Done, portfolio - {symbol})
      else TradeResult(Done, portfolio[symbol := left])
  }

  function Step(portfolio: map<string, int32>, market: set<string>, trade: Trade): (r: TradeResult) {
    match trade
    case BuyOrder(s, q) => Buy(portfolio, market, s, q)
    case SellOrder(s, q) => Sell(portfolio, s, q)
  }

  /** The portfolio after a sequence of clicks, the first one first. */
  function Run(portfolio: map<string, int32>, market: set<string>, trades: seq<Trade>): (r: map<string, int32>)
    decreases |trades|
  {
    if trades == [] then portfolio
    else Run(Step(portfolio, market, trades[0]).portfolio, market, trades[1..])
  }

  function RunAsWritten(portfolio: map<string, int32>, market: set<string>, trades: seq<Trade>): (r: map<string, int32>)
    decreases |trades|
  {
    if trades == [] then portfolio
    else
      var next := match trades[0]
        case BuyOrder(s, q) => BuyAsWritten(portfolio, market, s, q)
        case SellOrder(s, q) => Sell(portfolio, s, q);
      RunAsWritten(next.portfolio, market, trades[1..])
  }

  // ---------------------------------------------------------------------
  // Properties of the ledger operations

  /** A buy succeeds exactly when the quantity is positive, the symbol is known and the sum fits in an int. */
  lemma BuyOutcomes(portfolio: map<string, int32>, market: set<string>, symbol: string, quantity: int32)
    ensures Buy(portfolio, market, symbol, quantity).outcome == InvalidQuantity <==> quantity <= 0
    ensures Buy(portfolio, market, symbol, quantity).outcome == InvalidSymbol <==> quantity > 0 && symbol !in market
    ensures Buy(portfolio, market, symbol, quantity).outcome == Done <==>
      quantity > 0 && symbol in market && HeldOrZero(portfolio, symbol) + quantity <= MAX_INT
    ensures Buy(portfolio, market, symbol, quantity).outcome == Done ==>
      Buy(portfolio, market, symbol, quantity).portfolio[symbol] == HeldOrZero(portfolio, symbol) + quantity
  {
  }

  /** A sale succeeds exactly when the quantity is positive and at most the amount held; the holding drops by that much. */
  lemma SellOutcomes(portfolio: map<string, int32>, symbol: string, quantity: int32)
    ensures Sell(portfolio, symbol, quantity).outcome == Done <==>
      quantity > 0 && symbol in portfolio && portfolio[symbol] >= quantity
    ensures Sell(portfolio, symbol, quantity).outcome == Done ==>
      HeldOrZero(Sell(portfolio, symbol, quantity).portfolio, symbol) == portfolio[symbol] - quantity
    ensures Sell(portfolio, symbol, quantity).outcome == Done && portfolio[symbol] == quantity ==>
      symbol !in Sell(portfolio, symbol, quantity).portfolio
  {
  }

  /** Buying and then selling the same amount gives back the ledger one started with. */
  lemma BuyThenSellRestores(portfolio: map<string, int32>, market: set<string>, symbol: string, quantity: int32)
    requires Consistent(portfolio, market)
    requires Buy(portfolio, market, symbol, quantity).outcome == Done
    ensures Sell(Buy(portfolio, market, symbol, quantity).portfolio, symbol, quantity) ==
      TradeResult(Done, portfolio)
  {
  }

  lemma StepKeepsConsistent(portfolio: map<string, int32>, market: set<string>, trade: Trade)
    requires Consistent(portfolio, market)
    ensures Consistent(Step(portfolio, market, trade).portfolio, market)
  {
  }

  /** Whatever clicks arrive, the corrected ledger keeps every amount positive and every key a market symbol. */
  lemma {:induction false} RunKeepsConsistent(portfolio: map<string, int32>, market: set<string>, trades: seq<Trade>)
    requires Consistent(portfolio, market)
    ensures Consistent(Run(portfolio, market, trades), market)
    decreases |trades|
  {
    if trades != [] {
      StepKeepsConsistent(portfolio, market, trades[0]);
      RunKeepsConsistent(Step(portfolio, market, trades[0]).portfolio, market, trades[1..]);
    }
  }

  /** Where no sum overflows, the source's buy and the corrected one agree. */
  lemma BuyAgreesWithSourceWithoutOverflow(portfolio: map<string, int32>, market: set<string>, symbol: string, quantity: int32)
    requires HeldOrZero(portfolio, symbol) + quantity <= MAX_INT
    ensures Buy(portfolio, market, symbol, quantity) == BuyAsWritten(portfolio, market, symbol, quantity)
  {
  }

  /**
   * The source's buy breaks the ledger invariant: from an empty portfolio, two
   * buys of 2147483647 AAPL store -2 shares.
   */
  lemma BuyAsWrittenStoresNegative()
    ensures var trades := [BuyOrder("AAPL", MAX_INT as int32), BuyOrder("AAPL", MAX_INT as int32)];
      && RunAsWritten(map[], SeededSymbols, trades) == map["AAPL" := -2]
      && !Consistent(RunAsWritten(map[], SeededSymbols, trades), SeededSymbols)
  {
    var once := BuyAsWritten(map[], SeededSymbols, "AAPL", MAX_INT as int32).portfolio;
    assert once == map["AAPL" := MAX_INT as int32];
    var twice := BuyAsWritten(once, SeededSymbols, "AAPL", MAX_INT as int32).portfolio;
    assert twice == map["AAPL" := -2];
    var trades := [BuyOrder("AAPL", MAX_INT as int32), BuyOrder("AAPL", MAX_INT as int32)];
    assert trades[1..][1..] == [];
    assert RunAsWritten(map[], SeededSymbols, trades) == RunAsWritten(once, SeededSymbols, trades[1..]);
    assert RunAsWritten(once, SeededSymbols, trades[1..]) == RunAsWritten(twice, SeededSymbols, []);
  }

  // ---------------------------------------------------------------------
  // The application object

  class TradingSystem {
    /** The keys of `marketData`; its prices are floating point and not modelled. */
    const marketData: set<string>
    var portfolio: map<string, int32>

    ghost predicate Valid()
      reads this
    {
      Consistent(portfolio, marketData)
    }

    /** Construction followed by `seedMarketData`. */
    constructor ()
      ensures Valid()
      ensures marketData == SeededSymbols && portfolio == map[]
    {
      marketData := SeededSymbols;
      portfolio := map[];
    }

    method HandleBuy(symbol: string, quantity: int32) returns (outcome: Outcome)
      requires Valid()
      modifies this
      ensures Valid()
      ensures TradeResult(outcome, portfolio) == Buy(old(portfolio), marketData, symbol, quantity)
    {
      if quantity <= 0 {
        return InvalidQuantity;
      }
      if symbol !in marketData {
        return InvalidSymbol;
      }
      var held := if symbol in portfolio then portfolio[symbol] else 0;
      if held + quantity > MAX_INT {
        return QuantityTooLarge;
      }
      portfolio := portfolio[symbol := held + quantity];
      outcome := Done;
    }

    method HandleSell(symbol: string, quantity: int32) returns (outcome: Outcome)
      requires Valid()
      modifies this
      ensures Valid()
      ensures TradeResult(outcome, portfolio) == Sell(old(portfolio), symbol, quantity)
    {
      if quantity <= 0 {
        return InvalidQuantity;
      }
      if symbol !in portfolio || portfolio[symbol] < quantity {
        return InsufficientShares;
      }
      portfolio := portfolio[symbol := Wrap32(portfolio[symbol] - quantity)];
      if portfolio[symbol] == 0 {
        portfolio := portfolio - {symbol};
      }
      outcome := Done;
    }
  }
}
