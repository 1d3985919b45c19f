# Share ledgers and grade statistics of the CodeAlpha Java projects

This Dafny project models the business logic of three small Java desktop programs:

- **StockTradingPlatform.java.** A JavaFX stock trading simulator. It keeps a registry of users by username; login checks the password. Each user has a portfolio that maps a stock symbol to a mutable `StockHolding` object.
  - `buyStock` inserts a holding or increments it.
  - `sellStock` decrements a holding after checking that enough is held, and removes the symbol once the holding reaches 0.
  - Neither checks that the quantity is positive.
- **StockTradingSystem.java.** A second simulator. It keeps a `Map<String, Integer>` portfolio that the Buy and Sell handlers update after early-return guards:
  - the quantity must be positive;
  - a bought symbol must be a key of the seeded `marketData`;
  - a sale may not exceed the amount held.
- **CodeAlpha.java.** A console grade tracker (a class named `StudentGrades`).
  - `addGrades` appends typed grades to a list. It accepts only grades in 0..100 and retries any other line.
  - `getHighestGrade`, `getLowestGrade` and `getAverageGrade` scan the list.
  - `main` asks for statistics only when the list is non-empty.

Java `int` is modelled as the subset type `JavaInt.int32`. Every `int` addition and subtraction that the source performs goes through `JavaInt.Wrap32`, which is two's-complement wrap-around. There is one exception. The corrected buy of StockTradingSystem (`Buy`, `TradingSystem.HandleBuy`) refuses a buy whose total would overflow. It stores the exact sum, so no wrapping is needed (see Findings). Wrap-around matters in three places:

- In StockTradingSystem.java it breaks the positivity invariant of the portfolio (see Findings).
- In StockTradingPlatform.java a buy of a positive quantity can turn a holding negative (`BuyOverflowWraps`).
- In CodeAlpha.java the grade sum wraps once there are more than 21474836 grades of 100 (`GradeSumFitsInt`).

Modules:

- `JavaInt` (java_int.dfy): Java `int` arithmetic.
- `Wrappers` (wrappers.dfy): `Option`, used for input that may fail to parse.
- `StockTradingPlatform` (stock_trading_platform.dfy): the classes `StockHolding`, `User` and `TradingPlatform`, plus the quantity view `Bought`/`Sold` of a portfolio.
- `StockTradingSystem` (stock_trading_system.dfy): the class `TradingSystem`, the ledger functions `Buy`/`Sell`, and the invariant `Consistent`.
- `CodeAlpha` (code_alpha.dfy): the scanning methods, `AddGrades` over a `GradeList`, and the menu's `Query`.

Parsing is done by the caller.

- Symbols, quantities, grades and menu choices arrive already parsed.
- A line that `Integer.parseInt` rejects is `None`.
- The lines typed into `addGrades` are a finite `seq<Option<int32>>`. Running out of lines stands for `Scanner.nextLine` throwing.

Two facts about the code shape the model:

- **Positivity checks.** In StockTradingPlatform.java, `buyStock` and `sellStock` accept zero and negative quantities. Zero entries and negative holdings are therefore reachable there (`UncheckedBuys`, `NegativeSaleRaisesHolding`).
- **Listing order.** The portfolios are `HashMap`s, so listing them has no insertion order.

## Model

| member | source | states |
|---|---|---|
| JavaInt.Wrap32 | StockTradingPlatform.java:224-226 | Java `int` addition: the result is the one 32-bit value congruent to the true sum modulo 2^32, and equals the sum when it fits |
| JavaInt.WrapAdd | CodeAlpha.java:113-116 | accumulating with wrapping `+=` gives the true total wrapped once |
| StockTradingPlatform.Bought | StockTradingPlatform.java:170-178 | buying adds the symbol to the portfolio's keys and leaves every other symbol's quantity as it was |
| StockTradingPlatform.Sold | StockTradingPlatform.java:180-189 | a sale that passed the guard removes no key except its own and leaves every other symbol's quantity as it was |
| StockTradingPlatform.BuyNewSymbol | StockTradingPlatform.java:171-173 | buying a symbol not held creates a holding of exactly the bought quantity |
| StockTradingPlatform.BuyHeldSymbol | StockTradingPlatform.java:174-176 | buying a held symbol raises it by exactly the quantity when the `int` sum does not overflow |
| StockTradingPlatform.SellLowersHolding | StockTradingPlatform.java:182-186 | a successful sale, of any quantity the guard lets through (negative ones included), lowers the holding by exactly that quantity whenever the difference fits in an `int`; a holding sold down to 0 is no longer a key |
| StockTradingPlatform.TradesKeepNonNegative | StockTradingPlatform.java:170-189 | holdings stay non-negative while buys are non-negative and do not overflow and sales are non-negative |
| StockTradingPlatform.BuyThenSellRestores | StockTradingPlatform.java:170-189 | buying a quantity and selling it again passes the sale guard and gives back the original portfolio |
| StockTradingPlatform.UncheckedBuys | StockTradingPlatform.java:112-122 | with no positivity check, a buy of 0 leaves a zero entry and a buy of -1 a negative holding |
| StockTradingPlatform.NegativeSaleRaisesHolding | StockTradingPlatform.java:180-189 | selling -5 from a holding of 10 passes the guard and leaves 15 |
| StockTradingPlatform.BuyOverflowWraps | StockTradingPlatform.java:224-226 | one more share on a holding of 2147483647 wraps to -2147483648 |
| StockTradingPlatform.StockHolding.constructor | StockTradingPlatform.java:219-222 | a holding starts with the given stock and quantity |
| StockTradingPlatform.StockHolding.AddQuantity | StockTradingPlatform.java:224-226 | the quantity becomes the wrapped sum of old quantity and amount |
| StockTradingPlatform.StockHolding.RemoveQuantity | StockTradingPlatform.java:228-230 | the quantity becomes the wrapped difference of old quantity and amount |
| StockTradingPlatform.StockHolding.GetQuantity | StockTradingPlatform.java:232-234 | returns the current quantity without changing anything |
| StockTradingPlatform.User.constructor | StockTradingPlatform.java:157-160 | a new user has the given credentials and an empty portfolio |
| StockTradingPlatform.User.BuyStock | StockTradingPlatform.java:170-178 | the quantities become `Bought` of the old ones; every holding is still filed under its own stock's symbol; only fresh holdings join the portfolio |
| StockTradingPlatform.User.SellStock | StockTradingPlatform.java:180-190 | returns true exactly when the symbol is held with at least the quantity; then the quantities become `Sold` of the old ones, otherwise the portfolio is unchanged |
| StockTradingPlatform.TradingPlatform.constructor | StockTradingPlatform.java:73-77 | no users, and the stock market holds AAPL, GOOG and AMZN |
| StockTradingPlatform.TradingPlatform.Register | StockTradingPlatform.java:49-58 | a taken username is refused with `users` unchanged; otherwise exactly the new username is added, mapped to a fresh user with that password and an empty portfolio, and no existing user is replaced |
| StockTradingPlatform.TradingPlatform.Login | StockTradingPlatform.java:60-70 | returns a user exactly when the username is registered and its stored password equals the given one, and then it is that user |
| StockTradingPlatform.TradingPlatform.BuyFromMarket | StockTradingPlatform.java:112-122 | an unknown symbol is refused and changes nothing; otherwise the logged-in user's quantities become `Bought` of the old ones and no other user's holdings change |
| StockTradingSystem.HeldOrZero | StockTradingSystem.java:119 | `getOrDefault(symbol, 0)`: the held amount, or 0 for a symbol not held |
| StockTradingSystem.BuyAsWritten | StockTradingSystem.java:111-119 | the source's buy: a refused buy leaves the portfolio unchanged; an accepted one stores the wrapped `int` sum |
| StockTradingSystem.Buy | StockTradingSystem.java:111-119 | the corrected buy: a refused buy leaves the portfolio unchanged; an accepted one adds only its own symbol and keeps every other amount. Unlike the source at these lines, a buy whose total would exceed 2147483647 is refused with `QuantityTooLarge` |
| StockTradingSystem.Sell | StockTradingSystem.java:133-144 | a refused sale leaves the portfolio unchanged; any sale keeps every other symbol's amount and adds no key |
| StockTradingSystem.BuyOutcomes | StockTradingSystem.java:111-119 | a buy is refused as invalid quantity exactly when the quantity is ≤ 0, and as invalid symbol exactly when it is positive but not a market symbol; it succeeds exactly when the new amount fits in an `int`, and then the held amount is the old amount (0 if absent) plus the quantity |
| StockTradingSystem.SellOutcomes | StockTradingSystem.java:133-144 | on any portfolio, including one the source's overflow left with negative entries, a sale succeeds exactly when the quantity is positive and at most the held amount; it lowers the holding by exactly the quantity and deletes the key when nothing is left |
| StockTradingSystem.BuyThenSellRestores | StockTradingSystem.java:111-144 | a successful buy followed by a sale of the same quantity succeeds and gives back the original portfolio |
| StockTradingSystem.StepKeepsConsistent | StockTradingSystem.java:111-144 | one buy or sell keeps every amount positive and every key a market symbol |
| StockTradingSystem.RunKeepsConsistent | StockTradingSystem.java:76-81 | over any sequence of buys and sells, every amount stays positive and every key stays a market symbol |
| StockTradingSystem.BuyAgreesWithSourceWithoutOverflow | StockTradingSystem.java:119 | when the new amount fits in an `int`, the corrected buy and the source's buy agree |
| StockTradingSystem.BuyAsWrittenStoresNegative | StockTradingSystem.java:119 | two buys of 2147483647 AAPL from an empty portfolio store -2, violating the invariant |
| StockTradingSystem.TradingSystem.constructor | StockTradingSystem.java:76-81 | the market symbols are AAPL, GOOGL, AMZN and MSFT, and the portfolio starts empty |
| StockTradingSystem.TradingSystem.HandleBuy | StockTradingSystem.java:106-126 | the outcome and the new portfolio are those of `Buy` on the old portfolio; the ledger invariant is kept. Unlike the source, a buy whose total would exceed 2147483647 is refused with `QuantityTooLarge` and the portfolio is left as it was |
| StockTradingSystem.TradingSystem.HandleSell | StockTradingSystem.java:128-151 | the outcome and the new portfolio are those of `Sell` on the old portfolio; the ledger invariant is kept |
| CodeAlpha.AcceptedAreGrades | CodeAlpha.java:79-84 | every grade taken from input lies in 0..100, and there are no more of them than lines read |
| CodeAlpha.AcceptedAppend | CodeAlpha.java:74-89 | the grades taken from two stretches of input are those of the first followed by those of the second |
| CodeAlpha.SumBounds | CodeAlpha.java:112-118 | if every grade lies in lo..hi, the sum lies between lo·n and hi·n |
| CodeAlpha.SumBetweenExtremes | CodeAlpha.java:92-118 | lowest·n ≤ sum ≤ highest·n for the lowest and highest grades of a list of n |
| CodeAlpha.GradeSumFitsInt | CodeAlpha.java:112-116 | for at most 21474836 valid grades the `int` sum does not overflow |
| CodeAlpha.GetHighestGrade | CodeAlpha.java:92-100 | on a non-empty list, returns an element that is ≥ every element |
| CodeAlpha.GetLowestGrade | CodeAlpha.java:102-110 | on a non-empty list, returns an element that is ≤ every element |
| CodeAlpha.GetAverageGrade | CodeAlpha.java:112-118 | the accumulated sum is the true sum of the grades wrapped to 32 bits, and the divisor is the number of grades |
| CodeAlpha.Query | CodeAlpha.java:26-59 | choices 2–4 on an empty list answer "no grades"; otherwise they give the sum and count, a highest element or a lowest element; 1 and 5 pick adding and exiting, anything else is invalid |
| CodeAlpha.GradeList.constructor | CodeAlpha.java:6 | the list starts empty, so every stored grade is in range |
| CodeAlpha.AddGrades | CodeAlpha.java:64-90 | an unparsable count changes nothing. Otherwise the list becomes the old list followed by the valid grades of the lines read, in order. It stops right after the requested number of valid grades, or when input runs out. Every stored grade stays in 0..100 |

## Findings

| source | as written | input that shows it | evidently intended | confidence | as-written member | corrected member |
|---|---|---|---|---|---|---|
| StockTradingSystem.java:119 | stores `portfolio.getOrDefault(symbol, 0) + quantity` as a 32-bit `int`, which wraps | from an empty portfolio, buy 2147483647 AAPL twice: the portfolio then holds -2 AAPL | every held amount stays positive and every key stays a market symbol; a buy whose total does not fit in an `int` is refused | not executed | StockTradingSystem.BuyAsWrittenStoresNegative | StockTradingSystem.RunKeepsConsistent |

`TradingSystem.HandleBuy` uses the corrected `Buy`. It refuses an overflowing buy with the outcome `QuantityTooLarge` and leaves the portfolio unchanged. `BuyAgreesWithSourceWithoutOverflow` shows that it behaves exactly like the source whenever no overflow occurs.

## Left out

- All JavaFX and console plumbing: windows, layouts, text fields, alerts, `System.out` and `Scanner` prompts, clearing fields, and `updateMarketDataDisplay`. The handlers' error alerts appear as the `Outcome` and `Reply` values, and a sale's success as `SellStock`'s boolean.
- Parsing: `Integer.parseInt` and the `NumberFormatException` branches. Inputs arrive as `int32`, or as `Option<int32>` where a parse may fail.
- Everything priced in `double`:
  - `Stock.price`;
  - the values of `marketData` (only its key set is modelled);
  - `updatePortfolioDisplay` and its total value;
  - the `toString` of `StockHolding`.
- `CodeAlpha.GetAverageGrade` does not model the final floating-point division `(double) sum / grades.size()`. It returns the `int` sum and the count.
- `toUpperCase` on the symbol in `handleBuy`/`handleSell`. The model takes the symbol already upper-cased.
- `main`'s loop itself, and its retry on an unparsable menu choice. `Query` models one turn once the choice is parsed. Choice 1 is `AddGrades`.
- Launching the applications (`main`, `launch`, `start`), apart from the seeding that the constructors model.
- Password storage is plain text. Login is modelled as string equality only.
- StudentGrades.java is not part of this model. Its grades are `double`s and the rest of it is JavaFX event handling.
