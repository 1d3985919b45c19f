/**
 * The first trading simulator: a registry of users by username, and per user
 * a portfolio that maps a stock symbol to a mutable StockHolding object.
 * Neither buying nor selling checks that the quantity is positive, and the
 * quantities are Java `int`s that wrap on overflow.
 */
module StockTradingPlatform {
  import opened JavaInt

  /** A listed stock; its `double` price is not modelled. */
  datatype Stock = Stock(symbol: string)

  /** What `seedStockMarket` puts into `stockMarket`. */
  const SeededMarket: map<string, Stock> :=
    map["AAPL" := Stock("AAPL"), "GOOG" := Stock("GOOG"), "AMZN" := Stock("AMZN")]

  // ---------------------------------------------------------------------
  // The portfolio seen as quantities per symbol

  /** The quantities after `buyStock(stock, quantity)` on a portfolio holding `held`. */
  function Bought(held: map<string, int32>, symbol: string, quantity: int32): (r: map<string, int32>)
    ensures r.Keys == held.Keys + {symbol}
    ensures forall s | s in held && s != symbol :: r[s] == held[s]
  {
    held[symbol := if symbol in held then Wrap32(held[symbol] + quantity) else quantity]
  }

  /** The guard of `sellStock`: a holding exists and is at least the requested quantity. */
  predicate CanSell(held: map<string, int32>, symbol: string, quantity: int32) {
    symbol in held && held[symbol] >= quantity
  }

  /** The quantities after a `sellStock(symbol, quantity)` that passed its guard. */
  function Sold(held: map<string, int32>, symbol: string, quantity: int32): (r: map<string, int32>)
    requires CanSell(held, symbol, quantity)
    ensures r.Keys <= held.Keys
    ensures forall s | s in held && s != symbol :: s in r && r[s] == held[s]
  {
    var left := Wrap32(held[symbol] - quantity);
    if left == 0 then held - {symbol} else held[symbol := left]
  }

  ghost predicate NonNegative(held: map<string, int32>) {
    forall s | s in held :: held[s] >= 0
  }

  /** Buying a symbol not yet held creates a holding of exactly the bought quantity. */
  lemma BuyNewSymbol(held: map<string, int32>, symbol: string, quantity: int32)
    requires symbol !in held
    ensures Bought(held, symbol, quantity) == held[symbol := quantity]
  {
  }

  /** Buying a held symbol raises it by exactly the quantity, unless the `int` sum overflows. */
  lemma BuyHeldSymbol(held: map<string, int32>, symbol: string, quantity: int32)
    requires symbol in held
    requires MIN_INT <= held[symbol] + quantity <= MAX_INT
    ensures Bought(held, symbol, quantity)[symbol] == held[symbol] + quantity
  {
  }

  /** A successful sale lowers the holding by exactly the quantity, and a holding sold down to 0 is gone. */
  lemma SellLowersHolding(held: map<string, int32>, symbol: string, quantity: int32)
    requires CanSell(held, symbol, quantity)
    ensures held[symbol] == quantity ==> symbol !in Sold(held, symbol, quantity)
    ensures held[symbol] != quantity && held[symbol] - quantity <= MAX_INT ==> Sold(held, symbol, quantity)[symbol] == held[symbol] - quantity
  {
  }

  /**
   * Holdings stay non-negative only as long as each buy is non-negative and
   * does not overflow, and each sale is non-negative.
   */
  lemma TradesKeepNonNegative(held: map<string, int32>, symbol: string, quantity: int32)
    requires NonNegative(held)
    requires quantity >= 0
    ensures symbol in held ==> held[symbol] + quantity <= MAX_INT ==> NonNegative(Bought(held, symbol, quantity))
    ensures symbol !in held ==> NonNegative(Bought(held, symbol, quantity))
    ensures CanSell(held, symbol, quantity) ==> NonNegative(Sold(held, symbol, quantity))
  {
  }

  /** Buying and then selling the same quantity gives back the portfolio one started with. */
  lemma BuyThenSellRestores(held: map<string, int32>, symbol: string, quantity: int32)
    requires symbol in held ==> 0 < held[symbol] && held[symbol] + quantity <= MAX_INT
    ensures CanSell(Bought(held, symbol, quantity), symbol, quantity)
    ensures Sold(Bought(held, symbol, quantity), symbol, quantity) == held
  {
  }

  /** No positivity check: a buy of 0 leaves a zero entry, and a negative buy a negative holding. */
  lemma UncheckedBuys(symbol: string)
    ensures Bought(map[], symbol, 0) == map[symbol := 0]
    ensures Bought(map[], symbol, -1)[symbol] < 0
  {
  }

  /** No positivity check: selling a negative quantity passes the guard and raises the holding. */
  lemma NegativeSaleRaisesHolding(symbol: string)
    ensures CanSell(map[symbol := 10], symbol, -5)
    ensures Sold(map[symbol := 10], symbol, -5) == map[symbol := 15]
  {
  }

  /** A holding at the largest `int` wraps to the smallest one after buying one more share. */
  lemma BuyOverflowWraps(symbol: string)
    ensures Bought(map[symbol := MAX_INT as int32], symbol, 1)[symbol] == MIN_INT
  {
  }

  // ---------------------------------------------------------------------
  // The objects

  class StockHolding {
    const stock: Stock
    var quantity: int32

    constructor (stock: Stock, quantity: int32)
      ensures this.stock == stock && this.quantity == quantity
    {
      this.stock := stock;
      this.quantity := quantity;
    }

    method AddQuantity(amount: int32)
      modifies this
      ensures quantity == Wrap32(old(quantity) + amount)
    {
      quantity := Wrap32(quantity + amount);
    }

    method RemoveQuantity(amount: int32)
      modifies this
      ensures quantity == Wrap32(old(quantity) - amount)
    {
      quantity := Wrap32(quantity - amount);
    }

    method GetQuantity() returns (q: int32)
      ensures q == quantity
    {
      q := quantity;
    }
  }

  class User {
    const username: string
    const password: string
    var portfolio: map<string, StockHolding>

    /**
     * Every holding is filed under the symbol of its own stock; so two
     * symbols never share one holding object.
     */
    ghost predicate Valid()
      reads this
    {
      forall s | s in portfolio :: portfolio[s].stock.symbol == s
    }

    /** The quantity held per symbol. */
    ghost function Holdings(): map<string, int32>
      reads this, portfolio.Values
    {
      map s | s in portfolio :: portfolio[s].quantity
    }

    constructor (username: string, password: string)
      ensures this.username == username && this.password == password
      ensures portfolio == map[] && Valid()
    {
      this.username := username;
      this.password := password;
      portfolio := map[];
    }

    method BuyStock(stock: Stock, quantity: int32)
      requires Valid()
      modifies this, portfolio.Values
      ensures Valid()
      ensures Holdings() == Bought(old(Holdings()), stock.symbol, quantity)
      ensures forall h | h in portfolio.Values :: h in old(portfolio.Values) || fresh(h)
    {
      var holding: StockHolding;
      if stock.symbol in portfolio {
        holding := portfolio[stock.symbol];
        holding.AddQuantity(quantity);
      } else {
        holding := new StockHolding(stock, quantity);
      }
      portfolio := portfolio[stock.symbol := holding];
    }

    method SellStock(symbol: string, quantity: int32) returns (sold: bool)
      requires Valid()
      modifies this, portfolio.Values
      ensures Valid()
      ensures sold == CanSell(old(Holdings()), symbol, quantity)
      ensures sold ==> Holdings() == Sold(old(Holdings()), symbol, quantity)
      ensures !sold ==> Holdings() == old(Holdings()) && portfolio == old(portfolio)
      ensures portfolio.Values <= old(portfolio.Values)
    {
      if symbol in portfolio {
        var holding := portfolio[symbol];
        var held := holding.GetQuantity();
        if held >= quantity {
          holding.RemoveQuantity(quantity);
          var left := holding.GetQuantity();
          if left == 0 {
            portfolio := portfolio - {symbol};
          }
          return true;
        }
      }
      return false;
    }
  }

  /** The application object: the user registry and the stock market. */
  class TradingPlatform {
    var users: map<string, User>
    const stockMarket: map<string, Stock>

    /**
     * Every user is filed under its own username and is valid, every stock
     * under its own symbol, and no holding object belongs to two users.
     */
    ghost predicate Valid()
      reads this, users.Values
    {
      && (forall u | u in users :: users[u].username == u && users[u].Valid())
      && (forall s | s in stockMarket :: stockMarket[s].symbol == s)
      && (forall u, v | u in users && v in users && u != v :: users[u].portfolio.Values !! users[v].portfolio.Values)
    }

    /** Construction followed by `seedStockMarket`. */
    constructor ()
      ensures Valid()
      ensures users == map[] && stockMarket == SeededMarket
    {
      users := map[];
      stockMarket := SeededMarket;
    }

    /** The Register button: a taken username is refused, otherwise a new user with an empty portfolio is added. */
    method Register(username: string, password: string) returns (registered: bool)
      requires Valid()
      modifies this
      ensures Valid()
      ensures registered == (username !in old(users))
      ensures !registered ==> users == old(users)
      ensures registered ==> users.Keys == old(users.Keys) + {username}
      ensures registered ==> fresh(users[username]) && users[username].password == password
      ensures registered ==> users[username].portfolio == map[]
      ensures forall u | u in old(users) :: u in users && users[u] == old(users[u])
    {
      if username in users {
        return false;
      }
      var user := new User(username, password);
      users := users[username := user];
      registered := true;
    }

    /** The Login button: the user is returned exactly when the username is known and the password equal. */
    method Login(username: string, password: string) returns (user: User?)
      ensures user != null <==> username in users && users[username].password == password
      ensures user != null ==> user == users[username]
    {
      if username in users && users[username].password == password {
        user := users[username];
      } else {
        user := null;
      }
    }

    /**
     * The Buy button of a logged-in user: an unknown symbol is refused,
     * otherwise the purchase goes to that user's portfolio and no other's.
     */
    method BuyFromMarket(user: User, symbol: string, quantity: int32) returns (found: bool)
      requires Valid()
      requires user in users.Values
      modifies user, user.portfolio.Values
      ensures Valid()
      ensures found == (symbol in stockMarket)
      ensures found ==> user.Holdings() == Bought(old(user.Holdings()), symbol, quantity)
      ensures !found ==> user.Holdings() == old(user.Holdings())
      ensures forall u | u in users && users[u] != user :: users[u].Holdings() == old(users[u].Holdings())
    {
      if symbol !in stockMarket {
        return false;
      }
      user.BuyStock(stockMarket[symbol], quantity);
      found := true;
    }
  }
}
