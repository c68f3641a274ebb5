# ISUCOIN exchange, ISUBANK ledger and benchmarker in Dafny

This project models the core of the ISUCON8 final: the ISUCOIN chair
exchange, the ISUBANK ledger server it settles with, and the benchmarker
that drives and scores it.

- **The exchange** (modules `Book`, `Matching`, `Exchange`) is modelled
  once for all of its ports: Go (`model/trade.go` and `order.go`; the older
  `model.go` and `orders.go`; the single-file `handler.go`), Ruby, PHP and
  Node. A `Port` value selects the places where they differ. These are
  - the ORDER BY tie-breaks;
  - the status codes of `handler.go`;
  - Ruby's type check of the aggressor;
  - PHP's placeholder reservation id 0;
  - PHP and Node running the next matching round inside the candidate loop;
  - Node reporting every refused check as insufficient credit, and failing
    on any counter-order scan that finds a row.

  `Book` holds the tables and the read-only queries. `Matching` holds the
  pure state-transition functions over the whole `World` (tables, log
  events, bank requests). `Exchange.Engine` is the stateful engine whose
  methods are proved to end in exactly the state and result the
  `Matching` function gives. The bank's answers come from an arbitrary
  `script` (module `Ledger`), so every theorem holds for every behaviour of
  the bank.
- **The ledger server** (module `BankServer`, `blackbox/bank/main.go`)
  holds users, credit rows and five-minute reservations. Every request
  keeps the invariant that no user is overdrawn: committed credit plus
  unexpired debit reservations is never negative.
- **The benchmarker:**
  - `Isulog` checks the logger's records;
  - `BenchClient` checks the exchange's answers;
  - `BenchManager` keeps the score, the error limit, the test users and the
    level-up loop;
  - `BenchScenario` is one investor's order reconciliation, balances and
    trading decision;
  - `Portal` sets up a job's URLs from the target address;
  - `TaskWorker` runs score tasks in series.

Decimal text as `strconv.ParseInt` reads it and `%d` writes it is in
`Strconv`; `Option`, `Result`, the int64 range and Go's truncating
division are in `Common`.

In the Node port no attempt on a placed order ever trades
(`Matching.NodeNeverTrades`). Its scan turns each row the query returns
into an order with `new Order(...row)` (`webapp/nodejs/model/trades.ts:173-174`).
Spreading the row object into the constructor throws, so a scan that
finds any counter order fails, and the `finally` cancels the aggressor's
reservation. A scan that finds none leaves the amount unfilled. The loop
after it, whose counter-order reservations are not awaited, is never
reached. `Matching.ConcludeNode` states what that loop's commit would do.
Node's bank requests are taken as if the bank id and the settings were
read correctly (see "## Left out"). `handler.go` logs the `reserve_failed`
delete with order id 0 and no user id, and the owner's cancel without a
user id. The benchmarker's `OrderDelete` validation rejects both.

The benchmarker's investor is modelled as written: its tryTrade
(`BenchScenario.NormalScenario.TryTrade`) decides with the choice of kind
of `bench/scenario.go:428-449` as it stands, including its no-money
branch. The intended choice is modelled beside it (`ChooseKind`,
`DecideIntended`) and compared with it under "## Findings".

## Model

| member | source | states |
|---|---|---|
| Common.Quot | bench/src/bench/manager.go:176 | Go's int64 division truncates toward zero: the quotient's magnitude is that of the exact quotient rounded down and its sign is the product of the signs |
| Strconv.FormatNat | bench/src/bench/portal/structs.go:52-56 | %d of a natural number: at least one digit, no leading zero except for 0 itself |
| Strconv.FormatInt | bench/src/bench/portal/structs.go:52-56 | %d: a leading '-' exactly for negative numbers |
| Strconv.ParseInt | webapp/go/handler.go:603-614 | strconv.ParseInt(s, 10, 64): a parsed value is an int64, the empty string is a syntax error |
| Strconv.DigitsValueOfFormat | bench/src/bench/portal/structs.go:52-56 | the digits %d writes read back as the same number |
| Strconv.ParseFormatRoundTrip | webapp/go/handler.go:603-614 | every int64 written with %d is parsed back to itself |
| Strconv.ParsedTextIsNumeric | webapp/go/handler.go:608-612 | text that parses is an optional sign followed by at least one digit and nothing else |
| Book.KindOf | webapp/go/src/isucon8/isucoin/model/order.go:96-115 | the form value `type` is a buy exactly when it is "buy" and a sell exactly when it is "sell" |
| Book.LookupMeaning | webapp/go/src/isucon8/isucoin/model/order.go:53-55 | SELECT by id on an auto-increment table finds a row exactly when one has that id, and then finds that row |
| Book.Lookup | webapp/go/src/isucon8/isucoin/model/order.go:53-55 | SELECT by id; its contract is stated by Book.LookupMeaning |
| Book.Filter | webapp/go/src/isucon8/isucoin/model/order.go:30-32 | a WHERE clause keeps exactly the rows that satisfy it, and no more rows than the table has |
| Book.FilterNone | webapp/go/src/isucon8/isucoin/model/trade.go:200-202 | a WHERE clause that no row satisfies returns nothing |
| Book.InsertPermutes | webapp/go/src/isucon8/isucoin/model/order.go:31 | one insertion step of ORDER BY adds exactly the new row |
| Book.InsertSorted | webapp/go/src/isucon8/isucoin/model/order.go:31 | one insertion step keeps the rows in ORDER BY order |
| Book.RankPermutes | webapp/go/src/isucon8/isucoin/model/order.go:31 | ORDER BY returns a permutation of its rows |
| Book.RankSorted | webapp/go/src/isucon8/isucoin/model/order.go:31 | ORDER BY returns its rows sorted |
| Book.RankedQuery | webapp/go/src/isucon8/isucoin/model/order.go:30-36 | an ORDER BY query returns exactly the kept rows, as many as were kept, in order |
| Book.BeforeTransitive | webapp/go/src/isucon8/isucoin/model/trade.go:193-195 | the ORDER BY comparison over (price, created_at, id) is transitive |
| Book.BeforeTotal | webapp/go/src/isucon8/isucoin/model/trade.go:193-195 | of two rows with different ids exactly one comes first |
| Book.Best | webapp/go/src/isucon8/isucoin/model/order.go:61-67 | LIMIT 1 finds a row exactly when some row qualifies; the row it finds qualifies, and no qualifying row comes before it |
| Book.LowestSellIsBest | webapp/go/src/isucon8/isucoin/model/order.go:61-63 | the best sell exists exactly when an open sell does; it is an open sell, no open sell is cheaper, and equally cheap ones are not earlier |
| Book.HighestBuyIsBest | webapp/go/src/isucon8/isucoin/model/order.go:65-67 | the best buy exists exactly when an open buy does; it is an open buy, no open buy is dearer, and equally dear ones are not earlier |
| Book.LowestSell | webapp/go/src/isucon8/isucoin/model/order.go:61-63 | the cheapest open sell, earliest first; its contract is stated by Book.LowestSellIsBest |
| Book.HighestBuy | webapp/go/src/isucon8/isucoin/model/order.go:65-67 | the dearest open buy, earliest first; its contract is stated by Book.HighestBuyIsBest |
| Book.TradeChanceMeaning | webapp/go/src/isucon8/isucoin/model/trade.go:59-94 | HasTradeChanceByOrder is true exactly when the order exists, both sides of the book are open, and some open counter-order crosses its price |
| Book.ChanceForMeaning | webapp/go/src/isucon8/isucoin/model/trade.go:65-93 | for a found order: true exactly when both sides are open and an open counter-order crosses its price |
| Book.SellReaches | webapp/go/src/isucon8/isucoin/model/trade.go:82-85 | some open sell is priced at most x exactly when the lowest sell is |
| Book.BuyReaches | webapp/go/src/isucon8/isucoin/model/trade.go:86-89 | some open buy is priced at least x exactly when the highest buy is |
| Book.TradeChanceErrors | webapp/go/src/isucon8/isucoin/model/trade.go:60-63 | the trade chance is an error exactly for a missing order or, outside Node, an order of another type |
| Book.TradeChance | webapp/go/src/isucon8/isucoin/model/trade.go:59-94 | HasTradeChanceByOrder; its contract is stated by Book.TradeChanceMeaning and Book.TradeChanceErrors |
| Book.ChanceFor | webapp/go/src/isucon8/isucoin/model/trade.go:65-93 | the chance of a found order; its contract is stated by Book.ChanceForMeaning |
| Book.CounterOrdersSpec | webapp/go/src/isucon8/isucoin/model/trade.go:190-196 | the counter-order scan returns exactly the open orders of the other side that cross the aggressor's price, in the port's order |
| Book.CounterOrders | webapp/go/src/isucon8/isucoin/model/trade.go:190-196 | the counter-order query; its contract is stated by Book.CounterOrdersSpec |
| Book.CounterOrdersDistinct | webapp/go/src/isucon8/isucoin/model/trade.go:190-196 | over an auto-increment table the scan never returns the same row twice |
| Book.FilterDistinct | webapp/go/src/isucon8/isucoin/model/order.go:30-36 | a WHERE clause keeps rows with distinct ids distinct |
| Book.RankDistinct | webapp/go/src/isucon8/isucoin/model/order.go:31 | ORDER BY keeps rows with distinct ids distinct |
| Book.OrdersOfUserSpec | webapp/go/src/isucon8/isucoin/model/order.go:30-32 | a user's list holds exactly their open or traded orders, by created_at (by id in model.go, orders.go and handler.go) |
| Book.OrdersOfUser | webapp/go/src/isucon8/isucoin/model/order.go:30-32 | GetOrdersByUserID; its contract is stated by Book.OrdersOfUserSpec |
| Book.TradedSinceSpec | webapp/go/src/isucon8/isucoin/model/order.go:34-36 | exactly the user's orders traded after the cursor, by created_at |
| Book.TradedSince | webapp/go/src/isucon8/isucoin/model/order.go:34-36 | GetOrdersByUserIDAndLastTradeId; its contract is stated by Book.TradedSinceSpec |
| Book.TradeIdList | webapp/go/src/isucon8/isucoin/model/orders.go:52-55 | the IN list is never empty: an empty list of trade ids becomes [0], any other is kept |
| Book.OrdersWithTradeIdsSpec | webapp/go/src/isucon8/isucoin/model/orders.go:52-65 | exactly the user's orders with one of the trade ids; none for an empty list |
| Book.OrdersWithTradeIds | webapp/go/src/isucon8/isucoin/model/orders.go:52-65 | the orders of a user with listed trade ids; its contract is stated by Book.OrdersWithTradeIdsSpec |
| Book.ScanOrder | webapp/go/src/isucon8/isucoin/model/orders.go:32-46 | NULL closed_at stays absent and NULL trade_id becomes 0 |
| Book.ScanOrderRoundTrip | webapp/go/src/isucon8/isucoin/model/orders.go:32-46 | no row loses information while trade ids are never 0 |
| Book.FetchOrderRelation | webapp/go/src/isucon8/isucoin/model/order.go:69-82 | the owner is always loaded and the trade exactly when trade_id > 0; it fails exactly when either lookup finds nothing |
| Book.JsonKeys | webapp/php/src/Isucon8/Isucoin/Model/Order.php:10-30 | the seven fixed keys are always present |
| Book.JsonSerializeKeys | webapp/php/src/Isucon8/Isucoin/Model/Order.php:10-30 | closed_at, user and trade appear exactly when non-null, and trade_id is always an integer |
| Ledger.Answer | webapp/go/src/isucon8/isubank/isubank.go:68-140 | a malformed commit or cancel list is refused; commit and cancel only succeed or fail; check and reserve get the bank's own answer |
| Ledger.HeldBounded | blackbox/bank/main.go:294-364 | every held reservation was handed out by one of the requests sent |
| Ledger.HeldAppend | blackbox/bank/main.go:294-561 | one more request changes the held reservations exactly as its answer says |
| Ledger.CancelRestores | webapp/go/src/isucon8/isucoin/model/trade.go:177-188 | cancelling the reservations that were added gives back the reservations held before |
| Ledger.Client.Call | webapp/go/src/isucon8/isubank/isubank.go:142-168 | each request is recorded, and its reply is the bank's answer to that request number |
| Matching.EvolvesTransitive | webapp/go/src/isucon8/isucoin/model/trade.go:141 | "rows only close" is transitive |
| Matching.EvolvesTable | webapp/go/src/isucon8/isucoin/model/trade.go:141 | a later state of an auto-increment table is one |
| Matching.EvolvesCount | webapp/go/src/isucon8/isucoin/model/order.go:152-155 | the number of open orders never grows, and shrinks once an open order closes |
| Matching.SetClosedEvolves | webapp/go/src/isucon8/isucoin/model/order.go:152-155 | setting closed_at closes exactly that open row and keeps the table a later state |
| Matching.SetTradedEvolves | webapp/go/src/isucon8/isucoin/model/trade.go:141 | setting trade_id and closed_at closes that row with the trade id |
| Matching.InsertOrder | webapp/go/src/isucon8/isucoin/model/order.go:116-130 | the INSERT of an open order with the next id and its `<type>.order` log; its contract is stated by Matching.AddOrderSpec |
| Matching.AddOrder | webapp/go/src/isucon8/isucoin/model/order.go:84-131 | AddOrder; its contract is stated by Matching.AddOrderSpec and Matching.AddOrderPlaced |
| Matching.CancelOrder | webapp/go/src/isucon8/isucoin/model/order.go:152-162 | cancelOrder closes the row and logs the delete with the reason; its contract is stated by Matching.DeleteOrderSpec and Matching.ReserveOrderSpec |
| Matching.DeleteOrder | webapp/go/src/isucon8/isucoin/model/order.go:133-162 | DeleteOrder; its contract is stated by Matching.DeleteOrderSpec |
| Matching.ReserveAmount | webapp/go/src/isucon8/isucoin/model/trade.go:101-104 | the reserved amount is amount × price in size, and a debit exactly for a buy |
| Matching.ReserveOrder | webapp/go/src/isucon8/isucoin/model/trade.go:96-124 | one reserve request of amount × price; a row changes only by cancelling the order; the reference is pending exactly in Node when not awaited |
| Matching.VisitCandidate | webapp/go/src/isucon8/isucoin/model/trade.go:204-221 | every other row stays as it was, and the candidate's row either stays or is closed at now; a taken order is its open row, unchanged, and fits the rest; outside Node its reservation is fresh and held; a skip holds nothing new |
| Matching.VisitRefusedCloses | webapp/go/src/isucon8/isucoin/model/trade.go:96-124 | outside Node, a fitting open candidate whose reservation is refused for insufficient credit is skipped and its row closed |
| Matching.TotalAppend | webapp/go/src/isucon8/isucoin/model/trade.go:222-224 | the taken amount grows by the taken order's amount |
| Matching.Next | webapp/go/src/isucon8/isucoin/model/trade.go:204-228 | one pass of the scan loop leads to a later scan state; only the candidate's row can change, by closing at now; the taken list stays or grows by the candidate's current row |
| Matching.FillFromKeeps | webapp/go/src/isucon8/isucoin/model/trade.go:204-228 | over candidates with distinct ids, the scan takes no order twice and changes only candidates' rows, each by closing it at now |
| Matching.FillKeeps | webapp/go/src/isucon8/isucoin/model/trade.go:190-228 | the whole scan takes distinct orders and leaves every row as it was except counter orders it closed at now |
| Matching.LaterTransitive | webapp/go/src/isucon8/isucoin/model/trade.go:204-228 | scan states only move forward |
| Matching.FillFromLater | webapp/go/src/isucon8/isucoin/model/trade.go:204-228 | the end of the scan is a later state of its start |
| Matching.Fill | webapp/go/src/isucon8/isucoin/model/trade.go:168-228 | the whole scan takes only crossing counter-orders, keeps taken plus rest equal to the amount, and holds one reservation per taken order |
| Matching.RunTrade | webapp/go/src/isucon8/isucoin/model/trade.go:239-298 | runTrade only closes rows and only appends trades and bank requests; it stops only on insufficient credit or a failure, never on a trade or a missing or closed candidate |
| Matching.RunCandidates | webapp/go/src/isucon8/isucoin/model/trade.go:270-297 | the candidate loop only closes rows and only appends trades and bank requests; it stops only on insufficient credit or a failure |
| Matching.RunTradeDone | webapp/go/src/isucon8/isucoin/model/trade.go:239-298 | outside PHP and Node, a runTrade that ends without error ended after a round in which the book no longer crossed, or both candidates found no order or a closed one |
| Matching.RoundDone | webapp/go/src/isucon8/isucoin/model/trade.go:263-297 | the same for a round whose book crosses |
| Matching.SecondCandidate | webapp/go/src/isucon8/isucoin/model/trade.go:270-297 | the same once the first candidate found no match |
| Matching.RunTradeDoneFrom | webapp/go/src/isucon8/isucoin/model/trade.go:283-284 | a round that traded hands over to the next round, whose end is then the end |
| Matching.IdleHere | webapp/go/src/isucon8/isucoin/model/trade.go:240-297 | a round with nothing to trade is where runTrade ends |
| Matching.RoundStarts | webapp/go/src/isucon8/isucoin/model/trade.go:240-268 | a crossing book starts a round over its two candidates |
| Matching.CandidateStep | webapp/go/src/isucon8/isucoin/model/trade.go:270-297 | a trade starts over, no match goes to the next candidate, anything else stops the loop |
| Matching.CandidatesEnd | webapp/go/src/isucon8/isucoin/model/trade.go:270-297 | with every candidate tried, the round ends where it is |
| Matching.AfterTrade | webapp/php/src/Isucon8/Isucoin/Model/Trade.php:333-362 | what follows a trade only closes rows and only appends |
| Matching.AttemptShrinks | webapp/go/src/isucon8/isucoin/model/trade.go:271-284 | a transaction leaves a later table, and a trade closes at least one open order |
| Matching.ReleaseKeeps | webapp/go/src/isucon8/isucoin/model/trade.go:177-188 | the deferred cancel touches neither table and only appends bank requests |
| Matching.CloseTradedFrame | webapp/go/src/isucon8/isucoin/model/trade.go:140-151 | closing a trade's rows leaves the trade table and the bank requests alone |
| Matching.CloseTradedEvolves | webapp/go/src/isucon8/isucoin/model/trade.go:140-151 | closing a trade's rows only closes rows that were open |
| Matching.CloseTradedMarks | webapp/go/src/isucon8/isucoin/model/trade.go:140-151 | every row of the trade ends closed with the trade id |
| Matching.CloseTradedKeeps | webapp/go/src/isucon8/isucoin/model/trade.go:140-151 | closing a trade's rows leaves every row it does not name as it was |
| Matching.SettleKeeps | webapp/go/src/isucon8/isucoin/model/trade.go:126-160 | a settled trade leaves every row but the aggressor's and the taken orders' as it was |
| Matching.SettleEvolves | webapp/go/src/isucon8/isucoin/model/trade.go:126-160 | commitReservedOrder only closes open rows and appends at most one trade |
| Matching.SettleMarks | webapp/go/src/isucon8/isucoin/model/trade.go:126-160 | a settled trade closes the aggressor and its counter orders with the new trade id |
| Matching.ConcludeEvolves | webapp/go/src/isucon8/isucoin/model/trade.go:229-236 | the end of an attempt only closes rows |
| Matching.MatchEvolves | webapp/go/src/isucon8/isucoin/model/trade.go:190-236 | the part after the aggressor's reservation only closes rows |
| Matching.TryTradeEvolves | webapp/go/src/isucon8/isucoin/model/trade.go:162-237 | tryTrade only closes rows, only appends trades and requests, adds a trade only when it trades, and a trade closes the aggressor |
| Matching.AggressEvolves | webapp/go/src/isucon8/isucoin/model/trade.go:168-236 | the same, once the aggressor is found open |
| Matching.Release | webapp/go/src/isucon8/isucoin/model/trade.go:177-188 | the deferred cancel of the reservations; its contract is stated by Matching.ReleaseKeeps and Matching.ReleaseHeld |
| Matching.CloseTraded | webapp/go/src/isucon8/isucoin/model/trade.go:140-151 | closing a trade's rows; its contract is stated by Matching.CloseTradedFrame, Matching.CloseTradedEvolves and Matching.CloseTradedMarks |
| Matching.Settle | webapp/go/src/isucon8/isucoin/model/trade.go:126-160 | commitReservedOrder; its contract is stated by Matching.SettleEvolves, Matching.SettleMarks and Matching.SettleHeld |
| Matching.Match | webapp/go/src/isucon8/isucoin/model/trade.go:190-236 | the scan and commit after the aggressor's reservation (in Node a non-empty scan fails, webapp/nodejs/model/trades.ts:173-174); its contract is stated by Matching.MatchEvolves, Matching.MatchTraded, Matching.MatchHeld and Matching.MatchNode |
| Matching.Conclude | webapp/go/src/isucon8/isucoin/model/trade.go:229-236 | the end of an attempt; its contract is stated by Matching.ConcludeEvolves, Matching.ConcludeTraded and Matching.ConcludeHeld |
| Matching.TryTrade | webapp/go/src/isucon8/isucoin/model/trade.go:162-237 | tryTrade; its contract is stated by Matching.TryTradeEvolves, Matching.TryTradeTraded, Matching.TryTradeOpen and Matching.TryTradeReleases |
| Matching.Aggress | webapp/go/src/isucon8/isucoin/model/trade.go:168-236 | tryTrade once the aggressor is found open; its contract is stated by Matching.AggressEvolves, Matching.AggressTraded, Matching.AggressHeld, Matching.AggressReserved and Matching.AggressRefused |
| Matching.Attempt | webapp/go/src/isucon8/isucoin/model/trade.go:271-284 | one candidate's transaction; its contract is stated by Matching.AttemptShrinks and Matching.AttemptRollsBack |
| Matching.Candidates | webapp/go/src/isucon8/isucoin/model/trade.go:263-268 | the two candidates in order; its contract is stated by Matching.CandidatesOrder |
| Matching.TableRow | webapp/go/src/isucon8/isucoin/model/order.go:57-59 | a row of an auto-increment table sits at its id |
| Matching.TakenCross | webapp/go/src/isucon8/isucoin/model/trade.go:190-228 | a taken order is one of the crossing counter-orders the scan returned |
| Matching.MatchTraded | webapp/go/src/isucon8/isucoin/model/trade.go:190-236 | a trade appends one trade row with the aggressor's amount and price; the taken orders are distinct rows, cross, add up to its amount and end closed with the trade id; every other row is as it was or a counter order closed without a trade after a refused reservation |
| Matching.ConcludeTraded | webapp/go/src/isucon8/isucoin/model/trade.go:229-236 | the same for the end of the attempt, from a scan that took distinct orders and closed only counter orders |
| Matching.ReleaseHeld | webapp/go/src/isucon8/isucoin/model/trade.go:177-188 | the deferred cancel gives back the reservations held before, unless the bank refused it |
| Matching.SettleHeld | webapp/go/src/isucon8/isucoin/model/trade.go:152-158 | the commit, or else the deferred cancel, gives back the reservations held before |
| Matching.ConcludeHeld | webapp/go/src/isucon8/isucoin/model/trade.go:229-236 | the end of an attempt releases what the scan reserved |
| Matching.MatchHeld | webapp/go/src/isucon8/isucoin/model/trade.go:190-236 | everything reserved after the aggressor is released too |
| Matching.FillHeld | webapp/go/src/isucon8/isucoin/model/trade.go:204-228 | the scan adds to the held reservations exactly the fresh ids it collects |
| Matching.AggressHeld | webapp/go/src/isucon8/isucoin/model/trade.go:168-236 | an attempt on an open aggressor releases everything it reserved (outside Node) |
| Matching.AggressReserved | webapp/go/src/isucon8/isucoin/model/trade.go:168-176 | once the aggressor's own reservation goes through, the attempt goes on to the scan and commit |
| Matching.AggressRefused | webapp/php/src/Isucon8/Isucoin/Model/Trade.php:215-292 | when the aggressor's own reservation fails the attempt ends as credit short or failed, and only the PHP port then cancels its placeholder reservation 0 |
| Matching.PlaceholderCancelKeeps | webapp/php/src/Isucon8/Isucoin/Model/Trade.php:280-291 | the PHP cancel of the placeholder reservation 0 leaves the reservations the bank holds as they were, unless the bank refuses the cancel |
| Matching.TryTradeReleases | webapp/go/src/isucon8/isucoin/model/trade.go:162-237 | tryTrade leaves the bank holding what it held before, unless its last commit or cancel was refused (outside Node) |
| Matching.ConcludeNode | webapp/nodejs/model/trades.ts:175-195 | the end of Node's scan loop, which no attempt reaches: a commit naming a pending, un-awaited reservation never trades |
| Matching.MatchNode | webapp/nodejs/model/trades.ts:160-205 | in Node the part after the aggressor's reservation never trades: a non-empty scan throws at the row mapping and an empty one leaves the amount unfilled |
| Matching.NodeNeverTrades | webapp/nodejs/model/trades.ts:154-208 | in Node no attempt on a placed order ever trades |
| Matching.TryTradeTraded | webapp/go/src/isucon8/isucoin/model/trade.go:162-237 | a traded attempt had an open aggressor, appends one trade of its amount and price, and closes it and distinct crossing counter-orders adding up to its amount with the trade id; every other row is as it was or a counter order closed without a trade |
| Matching.TryTradeOpen | webapp/go/src/isucon8/isucoin/model/trade.go:162-166 | an order found open is traded as that aggressor; a missing or closed one ends the attempt with the state unchanged and no trade |
| Matching.AggressTraded | webapp/go/src/isucon8/isucoin/model/trade.go:168-236 | the same, once the aggressor is found open |
| Matching.AddOrderSpec | webapp/go/src/isucon8/isucoin/model/order.go:84-131 | invalid amount, price or type changes nothing; a sell is inserted without the bank; a buy is inserted exactly when the bank confirms price × amount; a refusal logs buy.error; a new order takes the next id and is open |
| Matching.AddOrderPlaced | webapp/go/src/isucon8/isucoin/model/order.go:85-87 | placing an order keeps every row positive and auto-numbered |
| Matching.EvolvesPlaced | webapp/go/src/isucon8/isucoin/model/trade.go:141 | closing rows keeps a placed table placed |
| Matching.DeleteOrderSpec | webapp/go/src/isucon8/isucoin/model/order.go:133-162 | missing, foreign and closed orders change nothing; otherwise exactly that row gets closed_at and keeps its trade id, and a delete is logged |
| Matching.ReserveOrderSpec | webapp/go/src/isucon8/isucoin/model/trade.go:96-124 | insufficient credit cancels the order with reason reserve_failed (with handler.go's and Node's differences in logging); any other refusal cancels nothing |
| Matching.RunTradeIdle | webapp/go/src/isucon8/isucoin/model/trade.go:240-261 | runTrade changes nothing unless both sides are open and the lowest sell is no dearer than the highest buy |
| Matching.CandidatesOrder | webapp/go/src/isucon8/isucoin/model/trade.go:263-268 | the larger order goes first; on equal amounts the buy does |
| Matching.AttemptRollsBack | webapp/go/src/isucon8/isucoin/model/trade.go:271-284 | a failed transaction leaves the tables as they were |
| Exchange.FormInt | webapp/go/handler.go:603-614 | an empty form value is an error; a read value is an int64 that ParseInt reads |
| Exchange.FormIntRoundTrip | webapp/go/handler.go:603-614 | every int64 in decimal is read back |
| Exchange.ErrcodeWrap | webapp/go/handler.go:77-85 | no error stays none; an error gets the status code |
| Exchange.StatusOf | webapp/go/handler.go:583-587 | a coded error answers with its own status, any other with the fallback |
| Exchange.TxScorp | webapp/go/handler.go:616-634 | table writes are kept exactly when f returned no error and did not panic; logs and bank calls always stay |
| Exchange.AddStatus | webapp/go/handler.go:361-431 | invalid input and insufficient credit are 400, any other bank failure 500 |
| Exchange.DeleteStatus | webapp/go/handler.go:500-529 | not found and already closed are 404, a failed lookup 500 |
| Exchange.Engine.AddOrder | webapp/go/src/isucon8/isucoin/model/order.go:84-131 | ends in exactly the state and result of Matching.AddOrder |
| Exchange.Engine.CancelOrder | webapp/go/src/isucon8/isucoin/model/order.go:152-162 | ends in exactly Matching.CancelOrder's state |
| Exchange.Engine.DeleteOrder | webapp/go/src/isucon8/isucoin/model/order.go:133-150 | ends in exactly the state and result of Matching.DeleteOrder |
| Exchange.Engine.ReserveOrder | webapp/go/src/isucon8/isucoin/model/trade.go:96-124 | ends in exactly the state and result of Matching.ReserveOrder |
| Exchange.Engine.Release | webapp/go/src/isucon8/isucoin/model/trade.go:177-188 | ends in exactly the state and outcome of Matching.Release |
| Exchange.Engine.CloseTraded | webapp/go/src/isucon8/isucoin/model/trade.go:140-151 | ends in exactly Matching.CloseTraded's state |
| Exchange.Engine.CommitReservedOrder | webapp/go/src/isucon8/isucoin/model/trade.go:126-160 | ends in exactly the state and outcome of Matching.Settle |
| Exchange.Engine.VisitCounter | webapp/go/src/isucon8/isucoin/model/trade.go:205-221 | ends in exactly Matching.VisitCandidate's state and verdict |
| Exchange.Engine.ScanStep | webapp/go/src/isucon8/isucoin/model/trade.go:204-228 | one loop pass ends in exactly Matching.Next's scan state |
| Exchange.Engine.ScanCounters | webapp/go/src/isucon8/isucoin/model/trade.go:204-228 | the loop ends in exactly Matching.Fill's scan state |
| Exchange.Engine.ScanFrom | webapp/go/src/isucon8/isucoin/model/trade.go:204-228 | the loop, started from the aggressor's amount and its own reservation, ends in exactly the scan state Matching.FillFrom gives |
| Exchange.Engine.TryTrade | webapp/go/src/isucon8/isucoin/model/trade.go:162-237 | ends in exactly the state and outcome of Matching.TryTrade |
| Exchange.Engine.MatchOrder | webapp/go/src/isucon8/isucoin/model/trade.go:190-236 | ends in exactly the state and outcome of Matching.Match |
| Exchange.Engine.Attempt | webapp/go/src/isucon8/isucoin/model/trade.go:271-284 | ends in exactly the state and outcome of Matching.Attempt |
| Exchange.Engine.RunTrade | webapp/go/src/isucon8/isucoin/model/trade.go:239-298 | ends in exactly the state and result of Matching.RunTrade |
| Exchange.Engine.PlaceOrder | webapp/go/handler.go:369-456 | as Exchange.Placement says: a failed placement answers its status with the tables rolled back; a placed order answers 500 when the trade-chance lookup fails, else 200 with its id, and matching runs when it has a trade chance |
| Exchange.Engine.PostOrders | webapp/go/handler.go:369-456 | amount and then price must be positive int64 form values, otherwise 400 and nothing changes; then the placement ends as Exchange.Placement says (a failure answered with its status and undone; a success 500 when the trade-chance lookup fails, else 200 with the next id, the matching run when the order has a trade chance) |
| Exchange.Engine.DeleteOrders | webapp/go/handler.go:479-537 | an id that is not an int64 is 400 and changes nothing; otherwise the cancel's state, and its status or the echoed id |
| BankServer.ReplyOf | webapp/go/src/isucon8/isubank/isubank.go:68-106 | the client recognises exactly "credit is insufficient" and "bank_id not found"; a 200 is success |
| BankServer.RowsOf | blackbox/bank/main.go:366-467 | a commit writes one credit row per reservation, with its amount |
| BankServer.FindUser | blackbox/bank/main.go:563-590 | the user with that bank id, or none exactly when no user has it |
| BankServer.UserSumAppend | blackbox/bank/main.go:611-623 | a user's sum over appended rows is the sum of the two parts |
| BankServer.UserSum | blackbox/bank/main.go:616 | the credit sum of a user; its contract is stated by BankServer.UserSumAppend and BankServer.UserSumSnoc |
| BankServer.RowsOfSum | blackbox/bank/main.go:366-467 | the rows a commit writes add up, per user, to the committed reservations |
| BankServer.DebitSnoc | blackbox/bank/main.go:294-364 | one more reservation adds its amount to the reserved sum exactly when it is an unexpired debit of that user |
| BankServer.DebitSplit | blackbox/bank/main.go:469-561 | deleting reservations takes exactly their debits out of the reserved sum |
| BankServer.DebitMonotone | blackbox/bank/main.go:294-364 | as time passes the reserved debit sum only grows |
| BankServer.DebitSum | blackbox/bank/main.go:336 | the unexpired debit sum of a user; its contract is stated by BankServer.DebitSnoc, BankServer.DebitSplit and BankServer.DebitMonotone |
| BankServer.Keep | blackbox/bank/main.go:413 | the rows SELECT … WHERE id IN finds; its contract is stated by BankServer.KeepDropSplit and BankServer.KeepCount |
| BankServer.Drop | blackbox/bank/main.go:451 | the rows left by DELETE … WHERE id IN; its contract is stated by BankServer.KeepDropSplit |
| BankServer.KeepDropSplit | blackbox/bank/main.go:413-451 | the rows selected and the rows left by the delete together are the table: the first all listed, the second none |
| BankServer.CommitCovers | blackbox/bank/main.go:366-467 | unexpired reservations add up to at least their debits |
| BankServer.Found | blackbox/bank/main.go:366-467 | the ids counted are the listed ids of rows (unexpired when a time is given) |
| BankServer.FoundMeans | blackbox/bank/main.go:366-467 | an id is counted exactly when it is listed and names a counted row |
| BankServer.FoundBelow | blackbox/bank/main.go:366-467 | counted ids stay below any bound all ids are below |
| BankServer.CountIsCard | blackbox/bank/main.go:366-467 | with unique ids the count is the number of distinct ids found |
| BankServer.DistinctSnoc | blackbox/bank/main.go:366-467 | a list stays distinct when an unlisted id is appended |
| BankServer.CardOfList | blackbox/bank/main.go:366-467 | a list has at least as many entries as distinct ids, exactly as many when distinct |
| BankServer.CountPasses | blackbox/bank/main.go:366-467 | a passing count means the listed ids are distinct and each names a counted row |
| BankServer.CountMet | blackbox/bank/main.go:366-467 | distinct listed ids that each name a counted row make the count pass |
| BankServer.CountAtMost | blackbox/bank/main.go:366-467 | the count never exceeds the length of the list |
| BankServer.CountCheck | blackbox/bank/main.go:366-561 | the count checks of commit and cancel pass exactly when the listed ids are distinct and each names such a row |
| BankServer.LiveRows | blackbox/bank/main.go:366-467 | when each listed id names an unexpired row, every row it names is unexpired |
| BankServer.CommitReadsBack | blackbox/bank/main.go:366-467 | once commit's count passes, the rows read back are one per listed id, so its second check cannot fail |
| BankServer.CountLive | blackbox/bank/main.go:366-561 | passing the unexpired count passes the plain one |
| BankServer.Bank.Register | blackbox/bank/main.go:152-181 | an empty bank id is 400, a used one 400; otherwise a new user with no credit is added |
| BankServer.Bank.FilterBankId | blackbox/bank/main.go:563-590 | an empty bank id is 400, an unknown one 404, a known one its user id, which is then cached |
| BankServer.Bank.ModifyCredit | blackbox/bank/main.go:611-623 | a credit row is appended and the user's credit becomes the sum of their rows |
| BankServer.Bank.AddCredit | blackbox/bank/main.go:185-221 | a non-positive amount is 400; a known user's balance grows by the amount |
| BankServer.Bank.Check | blackbox/bank/main.go:240-292 | a negative price is 400; otherwise insufficient credit exactly when the balance is below the price; nothing else changes |
| BankServer.Bank.Reserve | blackbox/bank/main.go:294-364 | a price of 0 is 400; a debit is refused exactly when committed credit plus unexpired debits plus it would be negative; a reservation expires five minutes later |
| BankServer.Bank.ReserveFor | blackbox/bank/main.go:328-351 | for a known user a debit passes exactly when committed credit plus unexpired debits plus it is not negative; a pass appends one reservation with the next id expiring five minutes later, a refusal changes no reservation |
| BankServer.Bank.Insert | blackbox/bank/main.go:335-352 | a reservation that passed its checks is inserted with the next id |
| BankServer.Bank.ApplyReservations | blackbox/bank/main.go:430-450 | each selected reservation is applied to its user's credit, in table order |
| BankServer.Bank.Settle | blackbox/bank/main.go:410-460 | the listed reservations are applied and then deleted |
| BankServer.Bank.Commit | blackbox/bank/main.go:366-467 | an empty list is 400; unless the ids are distinct and each names an unexpired reservation nothing changes; otherwise all are applied and deleted |
| BankServer.Bank.Cancel | blackbox/bank/main.go:469-561 | an empty list is 400; unless the ids are distinct and each names a reservation nothing changes; otherwise they are deleted and credit is untouched |
| BankServer.UserSumSnoc | blackbox/bank/main.go:611-623 | one more credit row adds its amount to its user's sum |
| BankServer.NoDebitsAbove | blackbox/bank/main.go:294-364 | a solvent user's sum is not negative when no unexpired debit counts against it |
| BankServer.ReserveKeepsValid | blackbox/bank/main.go:294-364 | a reservation that passed the balance check keeps the table well formed and everyone solvent |
| BankServer.SettleKeepsValid | blackbox/bank/main.go:366-467 | the state after a commit is again a valid one |
| BankServer.CommitKeepsValid | blackbox/bank/main.go:366-467 | committing unexpired reservations keeps the reserve table well formed and everyone solvent |
| BankServer.CancelKeepsValid | blackbox/bank/main.go:469-561 | deleting reservations without touching credit keeps everyone solvent |
| BankServer.DropKeepsBooked | blackbox/bank/main.go:469-561 | deleting rows keeps the reserve table well formed |
| Isulog.ValidateSignup | bench/src/bench/isulog/isulog.go:52-63 | a signup record is valid exactly when bank_id, name and user_id are set, else the first missing one's message |
| Isulog.ValidateSignin | bench/src/bench/isulog/isulog.go:69-74 | a signin record needs its user_id |
| Isulog.ValidateOrder | bench/src/bench/isulog/isulog.go:83-97 | an order record needs its order_id, user_id, amount and price |
| Isulog.ValidateBuyError | bench/src/bench/isulog/isulog.go:106-120 | a buy error record needs its user_id, error, amount and price |
| Isulog.ValidateTrade | bench/src/bench/isulog/isulog.go:128-139 | a trade record needs its trade_id, amount and price |
| Isulog.ValidateOrderTrade | bench/src/bench/isulog/isulog.go:149-166 | an order trade record needs its order_id, trade_id, user_id, amount and price |
| Isulog.ValidateOrderDelete | bench/src/bench/isulog/isulog.go:174-185 | a delete record needs its order_id, user_id and reason |
| Isulog.ValidateDetail | bench/src/bench/isulog/isulog.go:261-349 | the validation of the structure the tag names; used by Isulog.Decode, whose contract states it |
| Isulog.Shape | bench/src/bench/isulog/isulog.go:261-349 | a known tag decodes into the structure it names, whose tag is that tag |
| Isulog.Decode | bench/src/bench/isulog/isulog.go:261-349 | an unknown tag, an undecodable payload and a payload that fails validation are the three errors; otherwise the decoded structure |
| Isulog.Stop | bench/src/bench/isulog/isulog.go:261-349 | the index of the first failing record: every record before it passes |
| Isulog.FirstError | bench/src/bench/isulog/isulog.go:261-349 | no error exactly when every record passes, else the first failing record's error |
| Isulog.FetchFailsAtFirst | bench/src/bench/isulog/isulog.go:261-349 | the error comes from a record none of whose predecessors failed |
| Isulog.Entries | bench/src/bench/isulog/isulog.go:261-349 | one entry per record, with its tag and payload |
| Isulog.FetchLogDetails | bench/src/bench/isulog/isulog.go:261-349 | the first failing record's error; every record up to and including it with a known tag has its typed field set, later ones are untouched |
| Isulog.Log.FillDetail | bench/src/bench/isulog/isulog.go:263-346 | a known tag sets the typed field: to the decoded payload, or to a zero structure when the payload does not decode; an unknown tag leaves the detail as it was |
| Isulog.ZeroDetailInvalid | bench/src/bench/isulog/isulog.go:263-346 | the zero structure left by a failed decode never passes its tag's validation |
| Isulog.FillAt | bench/src/bench/isulog/isulog.go:262-346 | filling one record of the list leaves every other record's detail as it was |
| Isulog.DecodedIsFilled | bench/src/bench/isulog/isulog.go:263-346 | a record that decodes is filled with exactly what it decodes to |
| BenchClient.TrimLeft | bench/src/bench/client.go:57 | the leading spaces removed: a suffix that is empty or starts with a non-space |
| BenchClient.TrimRight | bench/src/bench/client.go:57 | the trailing spaces removed: a prefix that is empty or ends with a non-space |
| BenchClient.FirstNonSpace | bench/src/bench/client.go:57 | the left cut of TrimSpace: every character before it is a space and the one at it is not |
| BenchClient.LastNonSpace | bench/src/bench/client.go:57 | the right cut of TrimSpace: every character from it on is a space and the one before it is not |
| BenchClient.TrimSpaceSlice | bench/src/bench/client.go:57 | TrimSpace gives the slice between leading and trailing spaces, which neither starts nor ends with a space |
| BenchClient.TrimSpaceTrimmed | bench/src/bench/client.go:57 | a string that neither starts nor ends with a space is its own trim |
| BenchClient.TrimSpaceIdempotent | bench/src/bench/client.go:57 | trimming twice is trimming once |
| BenchClient.ContainsHtml | bench/src/bench/client.go:59 | true exactly when "<html" occurs at some position, case-insensitively |
| BenchClient.ErrorBody | bench/src/bench/client.go:56-64 | the body is trimmed; over 200 runes it becomes "(html)" when it holds a tag, else its first 200 runes and "..." |
| BenchClient.CutHasNoHtml | bench/src/bench/client.go:58-63 | a cut-down body holds no HTML tag |
| BenchClient.ErrorBodyIdempotent | bench/src/bench/client.go:56-64 | shortening a shortened body changes nothing |
| BenchClient.CutIsKept | bench/src/bench/client.go:58-63 | a body cut to 200 runes and "..." is left as it is |
| BenchClient.ShortIsKept | bench/src/bench/client.go:56-64 | a trimmed body within 200 runes is kept as it is |
| BenchClient.HtmlIsKept | bench/src/bench/client.go:58-60 | the "(html)" placeholder is kept as it is |
| BenchClient.ErrorWithStatus | bench/src/bench/client.go:56-70 | keeps the status and message, and carries the shortened body |
| BenchClient.MyOrdersErrorMeans | bench/src/bench/client.go:567-588 | testMyOrder passes exactly when every order is the client's own, with its user and trade, and created_at never decreases |
| BenchClient.MyOrdersErrorFirst | bench/src/bench/client.go:567-588 | it fails at the first order that fails, with that order's problem |
| BenchClient.OrderProblem | bench/src/bench/client.go:570-584 | the first failing check on one order; its contract is stated by BenchClient.MyOrdersErrorMeans and BenchClient.MyOrdersErrorFirst |
| BenchClient.MyOrdersError | bench/src/bench/client.go:567-588 | testMyOrder's answer; its contract is stated by BenchClient.MyOrdersErrorMeans |
| BenchClient.Removed | bench/src/bench/client.go:108-110 | closed without a trade; used by BenchScenario.Step |
| BenchClient.SigninCheck | bench/src/bench/client.go:376-393 | a 200 with the client's name and a non-zero id succeeds with that id; a non-200 is "POST /signin failed." |
| BenchClient.AddOrderCheck | bench/src/bench/client.go:483-516 | a 200 with a non-zero id succeeds with the order asked for, open and untraded; a non-200 fails with its status |
| BenchClient.DeleteOrderCheck | bench/src/bench/client.go:543-565 | succeeds exactly when the answer is 200 and echoes the id |
| BenchClient.Client.Signin | bench/src/bench/client.go:376-393 | a good answer stores the id it carries; a bad one leaves the client as it was |
| BenchClient.Client.TestMyOrder | bench/src/bench/client.go:567-588 | the loop returns exactly MyOrdersError, which is none exactly when the orders are the client's own and in order |
| BenchClient.Client.Info | bench/src/bench/client.go:447-481 | a good answer has a non-zero cursor and only the client's own traded orders, in order |
| BenchClient.Client.GetOrders | bench/src/bench/client.go:518-541 | a good answer lists only the client's own orders, in created_at order |
| BenchClient.ExchangeOrdersPass | bench/src/bench/client.go:567-588 | the exchange's GET /orders answer, on a port that orders by created_at, passes testMyOrder and lists no removed order |
| BenchManager.ErrorLimit | bench/src/bench/manager.go:128-133 | score/500 clamped to [20, 50] |
| BenchManager.Total | bench/src/bench/manager.go:174-180 | TotalScore; its contract is stated by BenchManager.TotalBounds and BenchManager.TotalMonotone |
| BenchManager.TotalBounds | bench/src/bench/manager.go:174-180 | errors only lower a non-negative score, and with at most 50 of them at least half is kept |
| BenchManager.TotalMonotone | bench/src/bench/manager.go:174-180 | each further error lowers the total by the same non-negative step score/100 |
| BenchManager.FirstAtLeast | bench/src/bench/manager.go:305-316 | the first user whose cost reaches the bound, or none when no one's does |
| BenchManager.MaxCost | bench/src/bench/manager.go:305-316 | the highest cost on the list, held by some user |
| BenchManager.NextIndex | bench/src/bench/manager.go:305-316 | the index nextTestUser takes, always on the list; its contract is stated by BenchManager.NextIndexIsFirst |
| BenchManager.NextIndexIsFirst | bench/src/bench/manager.go:305-316 | the user taken is the first whose cost reaches the smaller of the asked cost and the highest cost |
| BenchManager.NextIndexAt | bench/src/bench/manager.go:309-313 | the first user whose cost reaches the asked cost is the one taken |
| BenchManager.NextIndexLowers | bench/src/bench/manager.go:309-315 | while no user reaches the cost, the search goes on one lower |
| BenchManager.Without | bench/src/bench/manager.go:312 | the list with one user taken out, the others kept in order |
| BenchManager.WithoutKeepsOthers | bench/src/bench/manager.go:312 | taking a user out removes exactly that one |
| BenchManager.CountActiveAll | bench/src/bench/manager.go:190-198 | every scenario is active exactly when none has retired |
| BenchManager.CountActive | bench/src/bench/manager.go:190-198 | the number of scenarios not retired, at most their number |
| BenchManager.Pow2AboveLevel | bench/src/bench/manager.go:404-418 | the level-up threshold 2^level grows faster than the level |
| BenchManager.Manager.AddScore | bench/src/bench/manager.go:110-112 | the score grows by the amount and nothing else changes |
| BenchManager.Manager.AppendError | bench/src/bench/manager.go:118-139 | no error changes nothing; an error is recorded and returns an error, setting overError, exactly when the count reaches the limit |
| BenchManager.Manager.TotalScore | bench/src/bench/manager.go:174-180 | never above a non-negative score, and at least half of it within 50 errors |
| BenchManager.Manager.FinalScore | bench/src/bench/manager.go:167-172 | 0 once over the error limit, else the total score |
| BenchManager.Manager.FinalScoreAtLeastHalf | bench/src/bench/manager.go:167-180 | a run within its error limit keeps at least half its score |
| BenchManager.Manager.ActiveUsers | bench/src/bench/manager.go:190-198 | the number of scenarios that have not retired |
| BenchManager.Manager.NextTestUser | bench/src/bench/manager.go:305-316 | the zero user when none is left; otherwise the first user reaching the cost (lowered as needed), taken off the list |
| BenchManager.Manager.LevelUp | bench/src/bench/manager.go:404-418 | the level rises while the score reaches 2^level·100 and errors are at most 20, with two investors per level |
| BenchScenario.FindById | bench/scenario.go:322-330 | the first order with the id, none exactly when no order has it |
| BenchScenario.FindOrder | bench/scenario.go:322-330 | the search loop finds exactly FindById's order |
| BenchScenario.Step | bench/scenario.go:322-346 | a listed order takes the exchange's copy; an unlisted removed one stays; an unlisted sell is lost; an unlisted buy is closed now |
| BenchScenario.Reconcile | bench/scenario.go:322-346 | the walk keeps one entry per local order |
| BenchScenario.ReconcileStop | bench/scenario.go:331-340 | a lost sell ends the walk, leaving the rest untouched |
| BenchScenario.ReconcileAdvance | bench/scenario.go:322-346 | passing an entry gives it its new value and goes on |
| BenchScenario.MissingSticks | bench/scenario.go:331-340 | after a lost sell the later orders are left as they were |
| BenchScenario.ReconcileMeans | bench/scenario.go:322-346 | without a lost sell every listed order is as the exchange sent it and every unlisted one closed |
| BenchScenario.TradedAreListed | bench/scenario.go:322-346 | every order reported as newly traded is listed by the exchange with its trade |
| BenchScenario.Share | bench/scenario.go:348-370 | a traded order moves isu and credit and reserves nothing; an open one only reserves |
| BenchScenario.Tally | bench/scenario.go:348-370 | the balances of a list of orders; its contract is stated by BenchScenario.TallyAppend, BenchScenario.TradeSidesCancel, BenchScenario.ReservedNonNegative and BenchScenario.UntradedMovesNothing |
| BenchScenario.TallyAppend | bench/scenario.go:348-370 | the balances of two lists are the sum of their balances |
| BenchScenario.TradeSidesCancel | bench/scenario.go:348-370 | the sell and buy sides of a trade together move nothing |
| BenchScenario.ReservedNonNegative | bench/scenario.go:348-370 | open orders of positive amount and price reserve nothing negative |
| BenchScenario.UntradedMovesNothing | bench/scenario.go:348-370 | orders without a trade move no isu or credit |
| BenchScenario.ChooseKindAsWritten | bench/scenario.go:428-449 | the choice as written: always buy or sell; a justprice investor with credit for more than ten orders buys, else one with isu for more than ten sells; otherwise no isu to sell means buy, no money to buy also means buy, and the coin decides the rest |
| BenchScenario.ChooseKind | bench/scenario.go:428-449 | the intended choice, as the comment of the no-money branch says: the same two market branches; otherwise no isu to sell means buy, no money to buy means sell, and the coin decides the rest |
| BenchScenario.ChooseKindDiffers | bench/scenario.go:442-444 | the written and intended choices differ only in the no-money branch |
| BenchScenario.PlanOrder | bench/scenario.go:450-463 | the order placed keeps the kind and price, its amount is clamped to what can be paid for or delivered, and below 1 nothing is placed |
| BenchScenario.QuotBelow | bench/scenario.go:450-463 | a positive quotient times the divisor stays within the dividend |
| BenchScenario.Buyable | bench/scenario.go:416-420 | the divisor is the lowest sell or else the last trade price; it panics exactly when that is 0, and free credit below a positive lowest sell buys 0 |
| BenchScenario.OrderPrice | bench/scenario.go:411-440 | a market buy takes the lowest sell, a market sell the highest buy, and any other order the last trade price nudged |
| BenchScenario.Decide | bench/scenario.go:409-463 | as written: a zero divisor panics; a placed order is a buy or a sell of at least 1, a sell no more than the isu held, a buy at a positive price no dearer than the free credit, and outside a market order at the nudged price |
| BenchScenario.DecideIntended | bench/scenario.go:409-463 | the same bounds with the intended choice of kind |
| BenchScenario.QuotSmall | bench/scenario.go:416-420 | a non-negative dividend below the divisor gives 0 |
| BenchScenario.NoMoneyNeverSells | bench/scenario.go:428-444 | for every investor, justprice or not, with free credit below the lowest sell and isu to sell: in the market-sell branch the decision as written sells the whole amount at the highest buy; every other such investor reaches the no-money branch and never places a sell, and places nothing when the nudged price is above the free credit |
| BenchScenario.NoMoneySells | bench/scenario.go:428-444 | in the same situation, for every investor, the intended decision sells the whole amount: at the highest buy in the market-sell branch, else at the nudged price |
| BenchScenario.Distance | bench/scenario.go:385-390 | how far an order is from the market; the order cancelled is the one maximising it (BenchScenario.FurthestUpTo) |
| BenchScenario.CountWaiting | bench/scenario.go:117-125 | the number of orders not closed, at most the list's length |
| BenchScenario.CloseOneWaiting | bench/scenario.go:117-125 | closing a waiting order leaves one fewer waiting |
| BenchScenario.WaitingExists | bench/scenario.go:117-125 | some order waits exactly when the count is positive |
| BenchScenario.NormalScenario.WaitingOrders | bench/scenario.go:117-125 | the loop counts exactly the orders not closed |
| BenchScenario.LastOpenBefore | bench/scenario.go:300-305 | the last of the first n orders not closed, none exactly when all of them are closed |
| BenchScenario.FurthestUpTo | bench/scenario.go:380-396 | of the first n orders not closed, one furthest from the market and the earliest of equally far ones; none exactly when all are closed |
| BenchScenario.ReflectFails | bench/scenario.go:298-320 | the reflect check fails: not skipped, and the last open local order is a sell the exchange does not list; used by FetchOrders |
| BenchScenario.NormalScenario.LastOpen | bench/scenario.go:298-305 | the loop finds exactly LastOpenBefore's order: the last not closed, none exactly when every order is closed |
| BenchScenario.NormalScenario.Furthest | bench/scenario.go:380-396 | the loop finds exactly FurthestUpTo's order: the open order furthest from the market, the earliest of equally far ones; none exactly when none is open |
| BenchScenario.NormalScenario.TallyOrders | bench/scenario.go:348-370 | the loop computes exactly the balances Tally gives |
| BenchScenario.NormalScenario.FetchOrders | bench/scenario.go:291-372 | no error exactly when the fetch succeeded, the reflect check passed and no sell was lost; a failed fetch or reflect check changes nothing; on success the orders are reconciled and the balances recomputed from the exchange's list |
| BenchScenario.NormalScenario.ReconcileOrders | bench/scenario.go:322-346 | the local orders become exactly Reconcile's, an error exactly when a sell was lost |
| BenchScenario.NormalScenario.ReconcileList | bench/scenario.go:322-346 | the loop computes exactly Reconcile's orders, traded list and error |
| BenchScenario.NormalScenario.TryTrade | bench/scenario.go:374-477 | with enough waiting orders it asks to delete FurthestUpTo's order, fails exactly when the answer is an error other than 404, and otherwise closes that order now; else it sends Decide's order (as written), panics or idles as Decide says, appends a placed order, accepts a 400 about the balance and fails on any other error |
| BenchScenario.NormalScenario.CancelFurthest | bench/scenario.go:380-408 | the cancelling branch of tryTrade, with the same contract |
| BenchScenario.NormalScenario.PlaceDecided | bench/scenario.go:409-476 | the placing branch of tryTrade, with the same contract |
| BenchScenario.MentionsBalance | bench/scenario.go:468 | the error text holds "残高"; used by PlaceDecided through BalanceShort |
| Portal.FirstDot | bench/src/bench/portal/structs.go:42 | the first '.' of the address, none exactly when there is none |
| Portal.SplitN | bench/src/bench/portal/structs.go:42 | strings.SplitN: between 1 and n parts, only the last of n parts holds dots |
| Portal.JoinSplitN | bench/src/bench/portal/structs.go:42-45 | splitting and joining back gives the address again |
| Portal.SplitNJoin | bench/src/bench/portal/structs.go:42-45 | joining parts and splitting again gives the parts back |
| Portal.Dec64 | bench/src/bench/portal/structs.go:51 | team − 1 on an int64, wrapping at the bottom of the range |
| Portal.Job.Setup | bench/src/bench/portal/structs.go:41-58 | an address that does not split into four parts, or whose third is not an int64, is refused and nothing changes; otherwise the URLs of team (third − 1) on server (fourth) |
| Portal.SetupOfSubnet | bench/src/bench/portal/structs.go:41-58 | a.b.(t+1).num sets up the URLs of team t on server num |
| Portal.NoDotInDigits | bench/src/bench/portal/structs.go:46-50 | a decimal number has no dot |
| Portal.ShortAddressRefused | bench/src/bench/portal/structs.go:42-45 | an address of fewer than four parts is refused |
| TaskWorker.ScoreOf | bench/taskworker/task.go:30-35 | an error other than a passed deadline voids the score |
| TaskWorker.ExecRunner | bench/taskworker/task.go:61-65 | an exec task reports its fixed score next to the step's own error |
| TaskWorker.KeptScore | bench/taskworker/task.go:42-52 | a score task keeps its runner's score, or 0 when the runner failed |
| TaskWorker.ExecFailureStops | bench/taskworker/task.go:61-65 | a failed exec step stops a serial run and keeps no score |
| TaskWorker.ScoreTask.WriteError | bench/taskworker/task.go:22-24 | the error is replaced and the score kept |
| TaskWorker.ScoreTask.Score | bench/taskworker/task.go:30-35 | the kept score, or 0 when an error other than a passed deadline was written |
| TaskWorker.ScoreTask.Run | bench/taskworker/task.go:42-52 | the score is the runner's, or 0 when it failed; "no score" is not reported as a failure |
| TaskWorker.Gain | bench/taskworker/task.go:92 | one task's kept score; its contract is stated by TaskWorker.GainSumNonNegative |
| TaskWorker.GainSum | bench/taskworker/task.go:92 | the scores collected; its contract is stated by TaskWorker.GainSumAppend and TaskWorker.GainSumNonNegative |
| TaskWorker.GainSumAppend | bench/taskworker/task.go:92 | the score collected over two runs of tasks is their sum |
| TaskWorker.GainSumNonNegative | bench/taskworker/task.go:92 | tasks that earn nothing negative add nothing negative |
| TaskWorker.StopFrom | bench/taskworker/task.go:84-91 | the run stops at the first task met once the context is done or whose runner fails |
| TaskWorker.StopAt | bench/taskworker/task.go:84-91 | the same, from the first task |
| TaskWorker.ErrorIsFirstFailure | bench/taskworker/task.go:84-95 | a run not cut short by the context runs every task exactly when none fails |
| TaskWorker.SerialTask.Add | bench/taskworker/task.go:79-81 | a task added goes to the end of the list |
| TaskWorker.SerialTask.Run | bench/taskworker/task.go:83-96 | the score grows by what each task before the stop earned; the error is the context's, the failing runner's, or none when all ran |

## Left out

- Integer widths. Apart from `Portal.Dec64` and the int64 range of form
  values, amounts and prices are unbounded integers. The int64 wrap-around
  of `price * amount` in the exchange is not modelled.
- BenchManager.Manager.LevelUp: does not model the int64 overflow of the threshold beyond level 56, because integers are unbounded here.
- Book.Before: where an ORDER BY stops at created_at (or at price and
  created_at), MySQL may return rows equal on every listed column in any
  order. The model breaks such ties by id, so it fixes one of the orders
  MySQL may return, and LowestSell, HighestBuy and the user's order lists
  inherit that choice.
- Matching.RunTradeDone: stated for the Go and Ruby ports only. In PHP and
  Node a trade runs the next round inside the candidate loop, and the loop
  then goes on to the next candidate, so an error-free end can follow a
  trade there.
- Node's bank requests are modelled as if the bank id and the settings
  were read correctly. As written, `reserveOrder` sends
  `order.user.bankId`, but the `User` object has only `bank_id`
  (`webapp/nodejs/model/users.ts:28-36`). `getSetting` returns the whole
  row, not its `val` (`webapp/nodejs/model/settings.ts:17-22`). The bank
  would then refuse every Node request. The bank's answers are an
  arbitrary `script`, so every theorem also covers that bank, but no
  theorem singles it out.
- Matching.VisitCandidate: Node's own loop skips a candidate it cannot
  re-read instead of aborting; it is not modelled, because no Node
  attempt reaches that loop.
- Ruby's `to_i` on form values is not modelled. The form-value reading is
  `handler.go`'s `formvalInt64`.
- Concurrency. Requests are served one at a time, with no locks. The
  bank's Commit second check is then unreachable (`BankServer.CommitReadsBack`)
  and is omitted. The counter-order re-lock cannot see a row closed by
  another session.
- The ledger server's `/initialize`, which truncates the tables but keeps
  the bank-id cache, is not modelled.
- Time, randomness and I/O are parameters: the clock `now`, the scenario's
  random draws, the bank's answers (`script`), and the client's HTTP
  answers (`Reply`, whose JSON is already decoded or absent). HTTP
  transport, retries, JSON parsing and session cookies are left out.
- Isulog.FetchLogDetails: a payload that decodes only partly is not modelled; a payload either decodes whole or not at all, and in the second case the typed field holds the zero structure.
- Error messages keep their fixed text. Values formatted into them
  (`%d`, `%s`) are dropped.
- BenchClient.ContainsHtml: `strings.ToLower` is modelled on ASCII letters only, the only ones that can lower-case into "<html".
- BenchScenario.NormalScenario.FetchOrders: orders are values, so the shared references between the local list and the exchange's list is not modelled.
- The scenario's retirement and the manager's goroutine scheduling,
  WebSocket reporting and state file are not modelled.
- The Python port and the web frameworks' routing (`webapp/nodejs/index.ts`,
  `app.rb`, `Web.php`) are not part of this model. The Go handler's order
  routes stand for them.
- Candlestick data, signup, signin and info of the exchange are not part of
  this model.

## Findings

| source | as written | input that shows it | evidently intended | confidence | as-written member | corrected member |
|---|---|---|---|---|---|---|
| bench/scenario.go:442-444 | with no money to buy (`buyable < 1`) the investor still chooses a buy | free credit 50, lowest sell 100 (buyable 0), isu 3, amount 1, last trade 100 and nudge +1 (price 101): a buy clamped to 0, so nothing is placed; with price 10 instead it buys 1 at 10 and never sells | choose a sell, as the branch's comment says | high, not executed | BenchScenario.NoMoneyNeverSells | BenchScenario.NoMoneySells |

`BenchScenario.NormalScenario.TryTrade` keeps the decision as written, so
that it models the benchmarker's code as it stands. `BenchScenario.DecideIntended`
is the corrected decision, with `BenchScenario.NoMoneySells` proved about
it.
