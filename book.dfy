// The order book of the ISUCOIN exchange: the rows of the `orders` and
// `trade` tables, the orderings the SQL queries ask for, and the read-only
// queries built on them (best sell, best buy, counter-order scans, a user's
// order lists), the trade-chance predicate and the row/JSON mappings.
module Book {
  import opened Common

  /** The language ports of the exchange; they differ in small details. */
  datatype Port =
    | GoModel    // webapp/go/src/isucon8/isucoin/model/trade.go, order.go
    | GoLegacy   // webapp/go/src/isucon8/isucoin/model/model.go, orders.go
    | GoHandler  // webapp/go/handler.go
    | Ruby       // webapp/ruby/models/*.rb, webapp/ruby/app.rb
    | Php        // webapp/php/src/Isucon8/Isucoin/Model/*.php
    | Node       // webapp/nodejs/model/*.ts

  /** The `type` column: "buy", "sell", or any other text the table may hold. */
  datatype Kind = Buy | Sell | OtherKind(name: string)

  function KindName(k: Kind): string
  {
    match k
    case Buy => "buy"
    case Sell => "sell"
    case OtherKind(n) => n
  }

  /** The form value `type` read as a kind. */
  function KindOf(s: string): (k: Kind)
    ensures k == Buy <==> s == "buy"
    ensures k == Sell <==> s == "sell"
  {
    if s == "buy" then Buy else if s == "sell" then Sell else OtherKind(s)
  }

  /**
   * A row of `orders`. `closedAt` is NULL while the order is open; `tradeId`
   * is 0 for NULL (trade ids start at 1).
   */
  datatype Order = Order(
    id: nat, kind: Kind, userId: nat, amount: int, price: int,
    createdAt: int, closedAt: Option<int>, tradeId: nat)

  /** A row of `trade`. */
  datatype Trade = Trade(id: nat, amount: int, price: int, createdAt: int)

  predicate IsOpen(o: Order)
  {
    o.closedAt.None?
  }

  /** An auto-increment table: the row at index i has id i + 1. */
  predicate Table(rows: seq<Order>)
  {
    forall i :: 0 <= i < |rows| ==> rows[i].id == i + 1
  }

  /** No two rows of `s` share an id. */
  predicate DistinctIds(s: seq<Order>)
  {
    forall i, j :: 0 <= i < j < |s| ==> s[i].id != s[j].id
  }

  lemma DistinctTail(s: seq<Order>)
    requires DistinctIds(s) && s != []
    ensures DistinctIds(s[1..])
    ensures forall y :: y in s[1..] ==> y.id != s[0].id
  {
    forall y | y in s[1..] ensures y.id != s[0].id {
      var m :| 0 <= m < |s[1..]| && s[1..][m] == y;
      assert s[m + 1] == y;
    }
  }

  /** The table as order placement leaves it: every amount and price is positive. */
  predicate Placed(rows: seq<Order>)
  {
    Table(rows) &&
    forall i :: 0 <= i < |rows| ==>
      rows[i].amount > 0 && rows[i].price > 0 && (IsOpen(rows[i]) ==> rows[i].tradeId == 0)
  }

  /** `SELECT * FROM orders WHERE id = ?` on an auto-increment table. */
  function Lookup(rows: seq<Order>, id: int): Option<Order>
    requires Table(rows)
  {
    if 1 <= id <= |rows| then Some(rows[id - 1]) else None
  }

  /** The lookup finds a row exactly when one has the id, and then it finds that row. */
  lemma LookupMeaning(rows: seq<Order>, id: int)
    requires Table(rows)
    ensures Lookup(rows, id).Some? <==> exists i :: 0 <= i < |rows| && rows[i].id == id
    ensures forall o :: o in rows && o.id == id ==> Lookup(rows, id) == Some(o)
  {
  }

  /** Rows kept by a WHERE clause, in table order. */
  function Filter(rows: seq<Order>, keep: Order -> bool): (r: seq<Order>)
    ensures forall x :: x in r <==> x in rows && keep(x)
    ensures forall i :: 0 <= i < |r| ==> keep(r[i])
    ensures |r| <= |rows|
  {
    if rows == [] then []
    else (if keep(rows[0]) then [rows[0]] else []) + Filter(rows[1..], keep)
  }

  lemma {:induction false} FilterNone(rows: seq<Order>, keep: Order -> bool)
    requires forall i :: 0 <= i < |rows| ==> !keep(rows[i])
    ensures Filter(rows, keep) == []
  {
    if rows != [] {
      FilterNone(rows[1..], keep);
    }
  }

  // ---------------------------------------------------------------------
  // ORDER BY

  datatype Dir = Ignore | Asc | Desc

  /**
   * An ORDER BY clause over (price, created_at, id). The id comes last in
   * every ordering: where a query stops at created_at, MySQL leaves the
   * order of full ties open, and the model settles them by id.
   */
  datatype Ordering = Ordering(price: Dir, created: Dir, idDesc: bool)

  predicate Before(k: Ordering, a: Order, b: Order)
  {
    if k.price != Ignore && a.price != b.price then
      (if k.price == Asc then a.price < b.price else a.price > b.price)
    else if k.created != Ignore && a.createdAt != b.createdAt then
      (if k.created == Asc then a.createdAt < b.createdAt else a.createdAt > b.createdAt)
    else if k.idDesc then a.id > b.id
    else a.id < b.id
  }

  lemma BeforeTransitive(k: Ordering, a: Order, b: Order, c: Order)
    requires Before(k, a, b) && Before(k, b, c)
    ensures Before(k, a, c)
  {
  }

  lemma BeforeTotal(k: Ordering, a: Order, b: Order)
    requires a.id != b.id
    ensures Before(k, a, b) != Before(k, b, a)
  {
  }

  /** No later element comes strictly before an earlier one. */
  predicate Sorted(k: Ordering, s: seq<Order>)
  {
    forall i, j :: 0 <= i < j < |s| ==> !Before(k, s[j], s[i])
  }

  function Insert(k: Ordering, x: Order, s: seq<Order>): seq<Order>
  {
    if s == [] then [x]
    else if Before(k, x, s[0]) then [x] + s
    else [s[0]] + Insert(k, x, s[1..])
  }

  /** The rows of `s` in the order `k` asks for (an insertion sort). */
  function Rank(k: Ordering, s: seq<Order>): seq<Order>
  {
    if s == [] then [] else Insert(k, s[0], Rank(k, s[1..]))
  }

  lemma {:induction false} InsertPermutes(k: Ordering, x: Order, s: seq<Order>)
    ensures multiset(Insert(k, x, s)) == multiset(s) + multiset{x}
  {
    if s != [] && !Before(k, x, s[0]) {
      InsertPermutes(k, x, s[1..]);
      assert s == [s[0]] + s[1..];
    }
  }

  lemma {:induction false} InsertSorted(k: Ordering, x: Order, s: seq<Order>)
    requires Sorted(k, s)
    ensures Sorted(k, Insert(k, x, s))
  {
    if s == [] {
    } else if Before(k, x, s[0]) {
      var r := [x] + s;
      forall i, j | 0 <= i < j < |r| ensures !Before(k, r[j], r[i]) {
        if i == 0 && Before(k, r[j], x) {
          if j == 1 {
            assert Before(k, s[0], s[0]) by { BeforeTransitive(k, s[0], x, s[0]); }
          } else {
            BeforeTransitive(k, r[j], x, s[0]);
          }
        }
      }
    } else {
      InsertSorted(k, x, s[1..]);
      InsertPermutes(k, x, s[1..]);
      var t := Insert(k, x, s[1..]);
      var r := [s[0]] + t;
      forall j | 0 < j < |r| ensures !Before(k, r[j], s[0]) {
        var y := r[j];
        assert y in multiset(t);
        assert y in multiset(s[1..]) + multiset{x};
        if y != x {
          assert y in s[1..];
          var m :| 0 <= m < |s[1..]| && s[1..][m] == y;
          assert s[m + 1] == y;
        }
      }
    }
  }

  lemma {:induction false} RankPermutes(k: Ordering, s: seq<Order>)
    ensures multiset(Rank(k, s)) == multiset(s)
  {
    if s != [] {
      RankPermutes(k, s[1..]);
      InsertPermutes(k, s[0], Rank(k, s[1..]));
      assert s == [s[0]] + s[1..];
    }
  }

  lemma {:induction false} RankSorted(k: Ordering, s: seq<Order>)
    ensures Sorted(k, Rank(k, s))
  {
    if s != [] {
      RankSorted(k, s[1..]);
      InsertSorted(k, s[0], Rank(k, s[1..]));
    }
  }

  /** What an ORDER BY query returns: exactly the kept rows, in order `k`. */
  lemma RankedQuery(k: Ordering, rows: seq<Order>, keep: Order -> bool)
    ensures Sorted(k, Rank(k, Filter(rows, keep)))
    ensures forall x :: x in Rank(k, Filter(rows, keep)) <==> x in rows && keep(x)
    ensures |Rank(k, Filter(rows, keep))| == |Filter(rows, keep)|
  {
    var f := Filter(rows, keep);
    RankSorted(k, f);
    RankPermutes(k, f);
    assert |multiset(Rank(k, f))| == |multiset(f)|;
    forall x ensures x in Rank(k, f) <==> x in f {
      assert x in Rank(k, f) <==> x in multiset(Rank(k, f));
    }
  }

  lemma {:induction false} FilterDistinct(rows: seq<Order>, keep: Order -> bool)
    requires DistinctIds(rows)
    ensures DistinctIds(Filter(rows, keep))
  {
    if rows != [] {
      DistinctTail(rows);
      FilterDistinct(rows[1..], keep);
    }
  }

  lemma {:induction false} InsertDistinct(k: Ordering, x: Order, s: seq<Order>)
    requires DistinctIds(s) && forall y :: y in s ==> y.id != x.id
    ensures DistinctIds(Insert(k, x, s))
  {
    if s != [] && !Before(k, x, s[0]) {
      DistinctTail(s);
      InsertDistinct(k, x, s[1..]);
      InsertPermutes(k, x, s[1..]);
      var t := Insert(k, x, s[1..]);
      forall y | y in t ensures y.id != s[0].id {
        assert y in multiset(s[1..]) + multiset{x};
      }
    }
  }

  lemma {:induction false} RankDistinct(k: Ordering, s: seq<Order>)
    requires DistinctIds(s)
    ensures DistinctIds(Rank(k, s))
  {
    if s != [] {
      DistinctTail(s);
      RankDistinct(k, s[1..]);
      RankPermutes(k, s[1..]);
      forall y | y in Rank(k, s[1..]) ensures y.id != s[0].id {
        assert y in multiset(s[1..]);
      }
      InsertDistinct(k, s[0], Rank(k, s[1..]));
    }
  }

  // ---------------------------------------------------------------------
  // LIMIT 1 queries

  /** The first row of an ORDER BY ... LIMIT 1 query; None for no rows. */
  function Best(rows: seq<Order>, keep: Order -> bool, k: Ordering): (r: Option<Order>)
    ensures r.Some? <==> exists i :: 0 <= i < |rows| && keep(rows[i])
    ensures r.Some? ==> r.value in rows && keep(r.value)
    ensures r.Some? ==> forall o :: o in rows && keep(o) ==> !Before(k, o, r.value)
  {
    RankedQuery(k, rows, keep);
    var ranked := Rank(k, Filter(rows, keep));
    if ranked == [] then
      assert forall i :: 0 <= i < |rows| ==> !keep(rows[i]) by {
        forall i | 0 <= i < |rows| ensures !keep(rows[i]) {
          assert rows[i] in rows;
        }
      }
      None
    else
      assert forall o :: o in rows && keep(o) ==> !Before(k, o, ranked[0]) by {
        forall o | o in rows && keep(o) ensures !Before(k, o, ranked[0]) {
          assert o in ranked;
          var j :| 0 <= j < |ranked| && ranked[j] == o;
          if j == 0 {
            assert !Before(k, o, o);
          }
        }
      }
      assert ranked[0] in rows;
      Some(ranked[0])
  }

  function OpenOfKind(kind: Kind): Order -> bool
  {
    o => IsOpen(o) && o.kind == kind
  }

  /**
   * The ORDER BY of GetLowestSellOrder / GetHighestBuyOrder: price, then
   * created_at, except in model.go, orders.go and handler.go, which break
   * price ties by id.
   */
  function BestOrdering(p: Port, side: Kind): Ordering
  {
    Ordering(if side == Sell then Asc else Desc,
             if p == GoLegacy || p == GoHandler then Ignore else Asc,
             false)
  }

  function LowestSell(rows: seq<Order>, p: Port): Option<Order>
  {
    Best(rows, OpenOfKind(Sell), BestOrdering(p, Sell))
  }

  function HighestBuy(rows: seq<Order>, p: Port): Option<Order>
  {
    Best(rows, OpenOfKind(Buy), BestOrdering(p, Buy))
  }

  /**
   * The best open sell is the cheapest one, and among the cheapest the
   * earliest created (by id in the ports that tie-break on id).
   */
  lemma LowestSellIsBest(rows: seq<Order>, p: Port)
    ensures LowestSell(rows, p).Some? <==> exists o :: o in rows && IsOpen(o) && o.kind == Sell
    ensures LowestSell(rows, p).Some? ==>
      var best := LowestSell(rows, p).value;
      best in rows && IsOpen(best) && best.kind == Sell &&
      forall o :: o in rows && IsOpen(o) && o.kind == Sell ==>
        best.price < o.price ||
        (best.price == o.price && (p == GoLegacy || p == GoHandler || best.createdAt <= o.createdAt))
  {
    var keep := OpenOfKind(Sell);
    if exists o :: o in rows && IsOpen(o) && o.kind == Sell {
      var o :| o in rows && IsOpen(o) && o.kind == Sell;
      var i :| 0 <= i < |rows| && rows[i] == o;
      assert keep(rows[i]);
    }
  }

  /** The best open buy is the dearest one, and among those the earliest. */
  lemma HighestBuyIsBest(rows: seq<Order>, p: Port)
    ensures HighestBuy(rows, p).Some? <==> exists o :: o in rows && IsOpen(o) && o.kind == Buy
    ensures HighestBuy(rows, p).Some? ==>
      var best := HighestBuy(rows, p).value;
      best in rows && IsOpen(best) && best.kind == Buy &&
      forall o :: o in rows && IsOpen(o) && o.kind == Buy ==>
        best.price > o.price ||
        (best.price == o.price && (p == GoLegacy || p == GoHandler || best.createdAt <= o.createdAt))
  {
    var keep := OpenOfKind(Buy);
    if exists o :: o in rows && IsOpen(o) && o.kind == Buy {
      var o :| o in rows && IsOpen(o) && o.kind == Buy;
      var i :| 0 <= i < |rows| && rows[i] == o;
      assert keep(rows[i]);
    }
  }

  // ---------------------------------------------------------------------
  // Trade chance

  datatype ChanceError = OrderMissing | UnknownType

  /**
   * HasTradeChanceByOrder: false when either side of the book is empty; a
   * buy crosses when the lowest sell is no dearer, a sell when the highest
   * buy is no cheaper; another type is an error (false in the Node port).
   */
  function TradeChance(rows: seq<Order>, orderId: int, p: Port): Result<bool, ChanceError>
    requires Table(rows)
  {
    match Lookup(rows, orderId)
    case None => Err(OrderMissing)
    case Some(order) => ChanceFor(rows, order, p)
  }

  /** The trade chance of an order that was found. */
  function ChanceFor(rows: seq<Order>, order: Order, p: Port): Result<bool, ChanceError>
  {
    match (LowestSell(rows, p), HighestBuy(rows, p))
    case (None, _) => Ok(false)
    case (_, None) => Ok(false)
    case (Some(lowest), Some(highest)) =>
      match order.kind
      case Buy => Ok(lowest.price <= order.price)
      case Sell => Ok(order.price <= highest.price)
      case OtherKind(_) => if p == Node then Ok(false) else Err(UnknownType)
  }

  predicate HasOpen(rows: seq<Order>, kind: Kind)
  {
    exists o :: o in rows && IsOpen(o) && o.kind == kind
  }

  /** An open order of the other side that the given order's price reaches. */
  predicate Crosses(rows: seq<Order>, order: Order)
  {
    (order.kind == Buy && exists s :: s in rows && IsOpen(s) && s.kind == Sell && s.price <= order.price) ||
    (order.kind == Sell && exists b :: b in rows && IsOpen(b) && b.kind == Buy && order.price <= b.price)
  }

  /**
   * The trade chance read without the best-order queries: the order exists,
   * both sides of the book are non-empty, and some open counter-order
   * crosses its price. Errors only for a missing order or an unknown type.
   */
  lemma TradeChanceMeaning(rows: seq<Order>, orderId: int, p: Port)
    requires Table(rows)
    ensures TradeChance(rows, orderId, p) == Ok(true) <==>
      Lookup(rows, orderId).Some? && HasOpen(rows, Sell) && HasOpen(rows, Buy) &&
      Crosses(rows, Lookup(rows, orderId).value)
  {
    if Lookup(rows, orderId).Some? {
      ChanceForMeaning(rows, Lookup(rows, orderId).value, p);
    }
  }

  lemma ChanceForMeaning(rows: seq<Order>, order: Order, p: Port)
    ensures ChanceFor(rows, order, p) == Ok(true) <==> HasOpen(rows, Sell) && HasOpen(rows, Buy) && Crosses(rows, order)
  {
    SellReaches(rows, p, order.price);
    BuyReaches(rows, p, order.price);
  }

  /** Some open sell is priced at most x exactly when the lowest sell is. */
  lemma SellReaches(rows: seq<Order>, p: Port, x: int)
    ensures LowestSell(rows, p).Some? <==> HasOpen(rows, Sell)
    ensures LowestSell(rows, p).Some? ==>
      ((exists s :: s in rows && IsOpen(s) && s.kind == Sell && s.price <= x) <==> LowestSell(rows, p).value.price <= x)
  {
    LowestSellIsBest(rows, p);
  }

  /** Some open buy is priced at least x exactly when the highest buy is. */
  lemma BuyReaches(rows: seq<Order>, p: Port, x: int)
    ensures HighestBuy(rows, p).Some? <==> HasOpen(rows, Buy)
    ensures HighestBuy(rows, p).Some? ==>
      ((exists b :: b in rows && IsOpen(b) && b.kind == Buy && x <= b.price) <==> x <= HighestBuy(rows, p).value.price)
  {
    HighestBuyIsBest(rows, p);
  }

  /** The trade chance is an error exactly for a missing order or, outside Node, an order of another type. */
  lemma TradeChanceErrors(rows: seq<Order>, orderId: int, p: Port)
    requires Table(rows)
    ensures TradeChance(rows, orderId, p).Err? <==>
      Lookup(rows, orderId).None? ||
      (HasOpen(rows, Sell) && HasOpen(rows, Buy) && Lookup(rows, orderId).value.kind.OtherKind? && p != Node)
  {
    LowestSellIsBest(rows, p);
    HighestBuyIsBest(rows, p);
  }

  // ---------------------------------------------------------------------
  // Counter-order scan of tryTrade

  /**
   * The ORDER BY of the counter-order scan: sells cheapest first for a buy
   * aggressor, buys dearest first for a sell aggressor, then created_at ASC,
   * id ASC. The Node port scans buys by created_at DESC, id DESC.
   */
  function ScanOrdering(p: Port, aggressor: Kind): Ordering
  {
    if aggressor == Buy then Ordering(Asc, Asc, false)
    else if p == Node then Ordering(Desc, Desc, true)
    else Ordering(Desc, Asc, false)
  }

  /** The WHERE clause of the scan: open orders of the other side crossing the price. */
  function CounterFilter(aggressor: Order, p: Port): Order -> bool
  {
    if aggressor.kind == Buy then
      (o: Order) => IsOpen(o) && o.kind == Sell && o.price <= aggressor.price
    else if aggressor.kind == Sell || p == Node then
      (o: Order) => IsOpen(o) && o.kind == Buy && o.price >= aggressor.price
    else
      (o: Order) => false
  }

  function CounterOrders(rows: seq<Order>, aggressor: Order, p: Port): seq<Order>
  {
    Rank(ScanOrdering(p, aggressor.kind), Filter(rows, CounterFilter(aggressor, p)))
  }

  /**
   * The scan returns exactly the open counter-orders whose price crosses
   * the aggressor's, in the order the port's query asks for.
   */
  lemma CounterOrdersSpec(rows: seq<Order>, aggressor: Order, p: Port)
    requires aggressor.kind == Buy || aggressor.kind == Sell
    ensures Sorted(ScanOrdering(p, aggressor.kind), CounterOrders(rows, aggressor, p))
    ensures forall o :: o in CounterOrders(rows, aggressor, p) <==>
      o in rows && IsOpen(o) &&
      (if aggressor.kind == Buy then o.kind == Sell && o.price <= aggressor.price
       else o.kind == Buy && o.price >= aggressor.price)
  {
    RankedQuery(ScanOrdering(p, aggressor.kind), rows, CounterFilter(aggressor, p));
  }

  /** Over an auto-increment table the scan never returns the same row twice. */
  lemma CounterOrdersDistinct(rows: seq<Order>, aggressor: Order, p: Port)
    requires Table(rows)
    ensures DistinctIds(CounterOrders(rows, aggressor, p))
  {
    FilterDistinct(rows, CounterFilter(aggressor, p));
    RankDistinct(ScanOrdering(p, aggressor.kind), Filter(rows, CounterFilter(aggressor, p)));
  }

  // ---------------------------------------------------------------------
  // A user's order lists

  /**
   * GetOrdersByUserID: the user's open or traded orders (cancelled ones are
   * left out), by created_at; model.go, orders.go and handler.go order them
   * by id.
   */
  function OrdersOfUser(rows: seq<Order>, userId: nat, p: Port): seq<Order>
  {
    Rank(Ordering(Ignore, if p == GoLegacy || p == GoHandler then Ignore else Asc, false),
         Filter(rows, (o: Order) => o.userId == userId && (IsOpen(o) || o.tradeId != 0)))
  }

  lemma OrdersOfUserSpec(rows: seq<Order>, userId: nat, p: Port)
    ensures forall o :: o in OrdersOfUser(rows, userId, p) <==>
      o in rows && o.userId == userId && (IsOpen(o) || o.tradeId != 0)
    ensures p != GoLegacy && p != GoHandler ==> forall i, j :: 0 <= i < j < |OrdersOfUser(rows, userId, p)| ==>
      OrdersOfUser(rows, userId, p)[i].createdAt <= OrdersOfUser(rows, userId, p)[j].createdAt
    ensures p == GoLegacy || p == GoHandler ==> forall i, j :: 0 <= i < j < |OrdersOfUser(rows, userId, p)| ==>
      OrdersOfUser(rows, userId, p)[i].id <= OrdersOfUser(rows, userId, p)[j].id
  {
    var k := Ordering(Ignore, if p == GoLegacy || p == GoHandler then Ignore else Asc, false);
    RankedQuery(k, rows, (o: Order) => o.userId == userId && (IsOpen(o) || o.tradeId != 0));
  }

  /** GetOrdersByUserIDAndLastTradeId: the user's orders traded after the cursor. */
  function TradedSince(rows: seq<Order>, userId: nat, cursor: int): seq<Order>
  {
    Rank(Ordering(Ignore, Asc, false),
         Filter(rows, (o: Order) => o.userId == userId && o.tradeId != 0 && o.tradeId > cursor))
  }

  lemma TradedSinceSpec(rows: seq<Order>, userId: nat, cursor: int)
    ensures forall o :: o in TradedSince(rows, userId, cursor) <==>
      o in rows && o.userId == userId && o.tradeId != 0 && o.tradeId > cursor
    ensures forall i, j :: 0 <= i < j < |TradedSince(rows, userId, cursor)| ==>
      TradedSince(rows, userId, cursor)[i].createdAt <= TradedSince(rows, userId, cursor)[j].createdAt
  {
    RankedQuery(Ordering(Ignore, Asc, false), rows,
                (o: Order) => o.userId == userId && o.tradeId != 0 && o.tradeId > cursor);
  }

  /**
   * GetOrdersByUserIDAndTradeIds (model.go): an empty id list is replaced
   * by [0] so that the IN clause is never empty; no order carries trade id
   * 0, so the answer is then empty.
   */
  function TradeIdList(tradeIds: seq<nat>): (ids: seq<nat>)
    ensures |ids| >= 1
    ensures tradeIds != [] ==> ids == tradeIds
  {
    if tradeIds == [] then [0] else tradeIds
  }

  function OrdersWithTradeIds(rows: seq<Order>, userId: nat, tradeIds: seq<nat>): seq<Order>
  {
    var ids := TradeIdList(tradeIds);
    Rank(Ordering(Ignore, Ignore, false),
         Filter(rows, (o: Order) => o.userId == userId && o.tradeId != 0 && o.tradeId in ids))
  }

  lemma OrdersWithTradeIdsSpec(rows: seq<Order>, userId: nat, tradeIds: seq<nat>)
    ensures forall o :: o in OrdersWithTradeIds(rows, userId, tradeIds) <==>
      o in rows && o.userId == userId && o.tradeId != 0 && o.tradeId in tradeIds
    ensures tradeIds == [] ==> OrdersWithTradeIds(rows, userId, tradeIds) == []
  {
    var ids := TradeIdList(tradeIds);
    RankedQuery(Ordering(Ignore, Ignore, false), rows,
                (o: Order) => o.userId == userId && o.tradeId != 0 && o.tradeId in ids);
    if tradeIds == [] {
      FilterNone(rows, (o: Order) => o.userId == userId && o.tradeId != 0 && o.tradeId in ids);
    }
  }

  // ---------------------------------------------------------------------
  // Row and JSON mappings

  /** A row as the driver returns it, with its NULL-able columns. */
  datatype Row = Row(
    id: nat, kind: Kind, userId: nat, amount: int, price: int,
    createdAt: int, closedAt: Option<int>, tradeId: Option<nat>)

  /** scanOrder (orders.go): NULL closed_at stays absent, NULL trade_id becomes 0. */
  function ScanOrder(r: Row): (o: Order)
    ensures o.closedAt == r.closedAt
    ensures o.tradeId == 0 <==> r.tradeId == None || r.tradeId == Some(0)
  {
    Order(r.id, r.kind, r.userId, r.amount, r.price, r.createdAt, r.closedAt,
          if r.tradeId.Some? then r.tradeId.value else 0)
  }

  function Unscan(o: Order): Row
  {
    Row(o.id, o.kind, o.userId, o.amount, o.price, o.createdAt, o.closedAt,
        if o.tradeId == 0 then None else Some(o.tradeId))
  }

  /** No information is lost while trade ids are never 0, as auto-increment ids are not. */
  lemma ScanOrderRoundTrip(r: Row)
    requires r.tradeId != Some(0)
    ensures Unscan(ScanOrder(r)) == r
  {
  }

  datatype User = User(id: nat, bankId: string, name: string)

  /** An order with the relations FetchOrderRelation fills in. */
  datatype OrderView = OrderView(order: Order, user: User, trade: Option<Trade>)

  /**
   * FetchOrderRelation: the owner is always loaded; the trade only when
   * trade_id > 0. A lookup that finds nothing is an error (None here).
   */
  function FetchOrderRelation(o: Order, users: map<nat, User>, trades: seq<Trade>): (v: Option<OrderView>)
    ensures v.Some? ==> v.value.order == o && o.userId in users && v.value.user == users[o.userId]
    ensures v.Some? ==> (v.value.trade.Some? <==> o.tradeId > 0)
    ensures v.Some? && o.tradeId > 0 ==> o.tradeId <= |trades| && v.value.trade.value == trades[o.tradeId - 1]
    ensures v.None? <==> o.userId !in users || (o.tradeId > 0 && o.tradeId > |trades|)
  {
    if o.userId !in users then None
    else if o.tradeId > 0 then
      if o.tradeId <= |trades| then Some(OrderView(o, users[o.userId], Some(trades[o.tradeId - 1]))) else None
    else Some(OrderView(o, users[o.userId], None))
  }

  /** The JSON object JsonableOrder::jsonSerialize emits (Order.php). */
  datatype JsonOrder = JsonOrder(
    id: int, kind: string, userId: int, amount: int, price: int, tradeId: int,
    createdAt: int, closedAt: Option<int>, user: Option<User>, trade: Option<Trade>)

  function JsonSerialize(o: Order, user: Option<User>, trade: Option<Trade>): JsonOrder
  {
    JsonOrder(o.id, KindName(o.kind), o.userId, o.amount, o.price, o.tradeId,
              o.createdAt, o.closedAt, user, trade)
  }

  /** The keys present in the emitted object. */
  function JsonKeys(j: JsonOrder): (keys: set<string>)
    ensures {"id", "type", "user_id", "amount", "price", "trade_id", "created_at"} <= keys
  {
    {"id", "type", "user_id", "amount", "price", "trade_id", "created_at"}
    + (if j.closedAt.Some? then {"closed_at"} else {})
    + (if j.user.Some? then {"user"} else {})
    + (if j.trade.Some? then {"trade"} else {})
  }

  /**
   * closed_at, user and trade appear exactly when they are non-null, and
   * trade_id is always present as an integer (0 for NULL).
   */
  lemma JsonSerializeKeys(o: Order, user: Option<User>, trade: Option<Trade>)
    ensures var j := JsonSerialize(o, user, trade);
      ("closed_at" in JsonKeys(j) <==> o.closedAt.Some?) &&
      ("user" in JsonKeys(j) <==> user.Some?) &&
      ("trade" in JsonKeys(j) <==> trade.Some?) &&
      "trade_id" in JsonKeys(j) && j.tradeId == o.tradeId
  {
  }
}
