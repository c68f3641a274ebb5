// One simulated investor of the benchmark (bench/scenario.go): the orders
// it remembers, how it reconciles them with the exchange's list, how it
// works out its balances, and how it decides its next order. Randomness,
// the clock and the client's answers are parameters.
module BenchScenario {
  import opened Common
  import opened BenchClient

  const SellType: string := "sell"
  const BuyType: string := "buy"

  // ---------------------------------------------------------------------
  // Looking orders up

  /** The first order of the list with this id, as the search loops find it. */
  function FindById(os: seq<Order>, id: int): (r: Option<Order>)
    ensures r.Some? ==> r.value in os && r.value.id == id
    ensures r.None? <==> forall i :: 0 <= i < |os| ==> os[i].id != id
  {
    if os == [] then None
    else if os[0].id == id then Some(os[0])
    else
      var r := FindById(os[1..], id);
      assert forall i :: 1 <= i < |os| ==> os[i] == os[1..][i - 1];
      r
  }

  /** The search loop of fetchOrders over the exchange's list. */
  method FindOrder(os: seq<Order>, id: int) returns (r: Option<Order>)
    ensures r == FindById(os, id)
  {
    var i := 0;
    while i < |os|
      invariant 0 <= i <= |os|
      invariant FindById(os, id) == FindById(os[i..], id)
    {
      if os[i].id == id {
        return Some(os[i]);
      }
      assert os[i..][1..] == os[i + 1..];
      i := i + 1;
    }
    return None;
  }

  // ---------------------------------------------------------------------
  // Reconciling with the exchange's list

  /**
   * The local orders after fetchOrders, the exchange's orders newly seen
   * traded, and the id of a sell order the exchange lost, if one was met.
   */
  datatype Reconciled = Reconciled(orders: seq<Order>, traded: seq<Order>, missing: Option<int>)

  /**
   * fetchOrders's walk over the local orders: an order the exchange lists
   * is replaced by the exchange's copy (and reported when it is newly
   * traded); an order it does not list and that was not removed is closed
   * now if it is a buy, and stops the walk if it is a sell.
   */
  function Reconcile(local: seq<Order>, server: seq<Order>, now: int): (r: Reconciled)
    ensures |r.orders| == |local|
    decreases |local|
  {
    if local == [] then Reconciled([], [], None)
    else
      var p := Reconcile(local[..|local| - 1], server, now);
      var o := local[|local| - 1];
      if p.missing.Some? then Reconciled(p.orders + [o], p.traded, p.missing)
      else
        var st := Step(o, FindById(server, o.id), now);
        if st.lost then Reconciled(p.orders + [o], p.traded, Some(o.id))
        else Reconciled(p.orders + [st.order], p.traded + st.traded, None)
  }

  /** What happens to one local order: its new value, whether it is newly traded, whether it is a lost sell. */
  datatype Stepped = Stepped(order: Order, traded: seq<Order>, lost: bool)

  function Step(o: Order, found: Option<Order>, now: int): (st: Stepped)
    ensures st.lost <==> found.None? && !Removed(o) && o.kind == SellType
    ensures found.Some? ==> (st.order == found.value
      && (st.traded == [found.value] <==> found.value.trade.Some? && o.tradeId == 0))
    ensures found.None? && !st.lost ==> st.order.closedAt.Some? && st.order.id == o.id && st.traded == []
    ensures found.None? && Removed(o) ==> st.order == o
  {
    match found
      case None =>
        if Removed(o) then Stepped(o, [], false)
        else if o.kind == SellType then Stepped(o, [], true)
        else Stepped(o.(closedAt := Some(now)), [], false)
      case Some(ro) =>
        Stepped(ro, if ro.trade.Some? && o.tradeId == 0 then [ro] else [], false)
  }

  /** The walk over one more local order. */
  lemma ReconcileSnoc(local: seq<Order>, server: seq<Order>, now: int, i: nat)
    requires i < |local| && Reconcile(local[..i], server, now).missing.None?
    ensures var p := Reconcile(local[..i], server, now);
      var st := Step(local[i], FindById(server, local[i].id), now);
      Reconcile(local[..i + 1], server, now)
        == if st.lost then Reconciled(p.orders + [local[i]], p.traded, Some(local[i].id))
           else Reconciled(p.orders + [st.order], p.traded + st.traded, None)
  {
    assert local[..i + 1][..i] == local[..i];
  }

  /** Before the walk reaches entry i, that entry is still the local order. */
  lemma ReconcileAt(local: seq<Order>, server: seq<Order>, now: int, i: nat)
    requires i < |local|
    ensures (Reconcile(local[..i], server, now).orders + local[i..])[i] == local[i]
  {
  }

  /** The walk meets a lost sell order at entry i: it ends there. */
  lemma ReconcileStop(local: seq<Order>, server: seq<Order>, now: int, i: nat)
    requires i < |local| && Reconcile(local[..i], server, now).missing.None?
    requires Step(local[i], FindById(server, local[i].id), now).lost
    ensures Reconcile(local, server, now).orders == Reconcile(local[..i], server, now).orders + local[i..]
    ensures Reconcile(local, server, now).traded == Reconcile(local[..i], server, now).traded
    ensures Reconcile(local, server, now).missing.Some?
  {
    ReconcileSnoc(local, server, now, i);
    MissingSticks(local, server, now, i);
    assert Reconcile(local[..i], server, now).orders + [local[i]] + local[i + 1..]
      == Reconcile(local[..i], server, now).orders + local[i..];
  }

  /** The walk passes entry i: the entry takes its new value and the walk goes on. */
  lemma ReconcileAdvance(local: seq<Order>, server: seq<Order>, now: int, i: nat)
    requires i < |local| && Reconcile(local[..i], server, now).missing.None?
    requires !Step(local[i], FindById(server, local[i].id), now).lost
    ensures var p := Reconcile(local[..i], server, now);
      var st := Step(local[i], FindById(server, local[i].id), now);
      Reconcile(local[..i + 1], server, now).missing.None?
      && (p.orders + local[i..])[i := st.order] == Reconcile(local[..i + 1], server, now).orders + local[i + 1..]
      && p.traded + st.traded == Reconcile(local[..i + 1], server, now).traded
  {
    ReconcileSnoc(local, server, now, i);
    var p := Reconcile(local[..i], server, now);
    var st := Step(local[i], FindById(server, local[i].id), now);
    assert (p.orders + local[i..])[i := st.order] == p.orders + [st.order] + local[i + 1..];
  }

  /** Once a lost sell order is met, the orders after it are left as they were. */
  lemma {:induction false} MissingSticks(local: seq<Order>, server: seq<Order>, now: int, i: nat)
    requires i < |local| && Reconcile(local[..i + 1], server, now).missing.Some?
    ensures Reconcile(local, server, now) == Reconciled(
      Reconcile(local[..i + 1], server, now).orders + local[i + 1..],
      Reconcile(local[..i + 1], server, now).traded,
      Reconcile(local[..i + 1], server, now).missing)
    decreases |local|
  {
    if i + 1 < |local| {
      var init := local[..|local| - 1];
      assert init[..i + 1] == local[..i + 1];
      MissingSticks(init, server, now, i);
      assert init[i + 1..] + [local[|local| - 1]] == local[i + 1..];
    } else {
      assert local[..i + 1] == local;
    }
  }

  /**
   * A walk that met no lost sell order leaves every listed order as the
   * exchange sent it and every unlisted one closed.
   */
  lemma {:induction false} ReconcileMeans(local: seq<Order>, server: seq<Order>, now: int)
    ensures var r := Reconcile(local, server, now);
      r.missing.None? ==> forall i :: 0 <= i < |local| ==>
        (FindById(server, local[i].id).Some? ==> r.orders[i] == FindById(server, local[i].id).value)
        && (FindById(server, local[i].id).None? ==> r.orders[i].closedAt.Some? && r.orders[i].id == local[i].id)
    ensures var r := Reconcile(local, server, now);
      r.missing.Some? ==> exists i :: (0 <= i < |local| && local[i].id == r.missing.value
        && FindById(server, local[i].id).None? && !Removed(local[i]) && local[i].kind == SellType)
    decreases |local|
  {
    if local != [] {
      var init := local[..|local| - 1];
      ReconcileMeans(init, server, now);
      var p := Reconcile(init, server, now);
      var r := Reconcile(local, server, now);
      assert forall i :: 0 <= i < |init| ==> local[i] == init[i];
      if r.missing.None? {
        assert forall i :: 0 <= i < |init| ==> r.orders[i] == p.orders[i];
        var st := Step(local[|local| - 1], FindById(server, local[|local| - 1].id), now);
        assert r.orders[|local| - 1] == st.order;
      }
    }
  }

  /** Every order reported as newly traded is one the exchange listed with its trade. */
  lemma {:induction false} TradedAreListed(local: seq<Order>, server: seq<Order>, now: int)
    ensures forall t :: t in Reconcile(local, server, now).traded ==> t in server && t.trade.Some?
    decreases |local|
  {
    if local != [] {
      TradedAreListed(local[..|local| - 1], server, now);
    }
  }

  // ---------------------------------------------------------------------
  // Balances

  /** Amounts of isu and credit: reserved by open orders, and moved by trades. */
  datatype Totals = Totals(reservedIsu: int, reservedCredit: int, tradedIsu: int, tradedCredit: int)

  const NoTotals: Totals := Totals(0, 0, 0, 0)

  function Add(a: Totals, b: Totals): Totals
  {
    Totals(a.reservedIsu + b.reservedIsu, a.reservedCredit + b.reservedCredit,
           a.tradedIsu + b.tradedIsu, a.tradedCredit + b.tradedCredit)
  }

  /**
   * One order's share: a traded sell gives its amount of isu for amount ×
   * the trade's price, a traded buy the reverse; an open sell reserves its
   * isu and an open buy amount × its own price.
   */
  function Share(o: Order): (t: Totals)
    ensures o.trade.Some? ==> t.reservedIsu == 0 && t.reservedCredit == 0
    ensures o.trade.None? ==> t.tradedIsu == 0 && t.tradedCredit == 0
  {
    if o.trade.Some? && o.kind == SellType then Totals(0, 0, -o.amount, o.amount * o.trade.value.price)
    else if o.trade.Some? && o.kind == BuyType then Totals(0, 0, o.amount, -o.amount * o.trade.value.price)
    else if o.trade.Some? then NoTotals
    else if o.kind == SellType then Totals(o.amount, 0, 0, 0)
    else if o.kind == BuyType then Totals(0, o.amount * o.price, 0, 0)
    else NoTotals
  }

  /** The balances of a list of orders: the sum of their shares. */
  function Tally(os: seq<Order>): Totals
  {
    if os == [] then NoTotals else Add(Tally(os[..|os| - 1]), Share(os[|os| - 1]))
  }

  lemma {:induction false} TallyAppend(a: seq<Order>, b: seq<Order>)
    ensures Tally(a + b) == Add(Tally(a), Tally(b))
    decreases |b|
  {
    if b == [] {
      assert a + b == a;
    } else {
      var init, last := b[..|b| - 1], b[|b| - 1];
      assert (a + b)[..|a + b| - 1] == a + init;
      assert (a + b)[|a + b| - 1] == last;
      calc {
        Tally(a + b);
        Add(Tally(a + init), Share(last));
        { TallyAppend(a, init); }
        Add(Add(Tally(a), Tally(init)), Share(last));
        { AddAssoc(Tally(a), Tally(init), Share(last)); }
        Add(Tally(a), Add(Tally(init), Share(last)));
        Add(Tally(a), Tally(b));
      }
    }
  }

  lemma AddAssoc(x: Totals, y: Totals, z: Totals)
    ensures Add(Add(x, y), z) == Add(x, Add(y, z))
  {
  }

  /**
   * A trade moves isu and credit in opposite directions: its sell side and
   * its buy side together move nothing.
   */
  lemma TradeSidesCancel(sell: Order, buy: Order)
    requires sell.kind == SellType && buy.kind == BuyType
    requires sell.trade.Some? && buy.trade == sell.trade && sell.amount == buy.amount
    ensures Tally([sell, buy]) == NoTotals
  {
    assert [sell, buy][..1] == [sell];
    assert [sell][..0] == [];
    var p := sell.trade.value.price;
    assert Tally([sell]) == Add(NoTotals, Share(sell));
    assert Tally([sell, buy]) == Add(Tally([sell]), Share(buy));
    assert sell.amount * p + -buy.amount * p == 0;
  }

  /** Open orders of positive amount and price only reserve, never negatively. */
  lemma {:induction false} ReservedNonNegative(os: seq<Order>)
    requires forall i :: 0 <= i < |os| ==> os[i].amount >= 0 && os[i].price >= 0
    ensures Tally(os).reservedIsu >= 0 && Tally(os).reservedCredit >= 0
  {
    if os != [] {
      ReservedNonNegative(os[..|os| - 1]);
    }
  }

  /** Orders without a trade move no isu and no credit. */
  lemma {:induction false} UntradedMovesNothing(os: seq<Order>)
    requires forall i :: 0 <= i < |os| ==> os[i].trade.None?
    ensures Tally(os).tradedIsu == 0 && Tally(os).tradedCredit == 0
  {
    if os != [] {
      var last := os[|os| - 1];
      UntradedMovesNothing(os[..|os| - 1]);
      assert Share(last).tradedIsu == 0 && Share(last).tradedCredit == 0;
    }
  }

  // ---------------------------------------------------------------------
  // Deciding the next order

  /** Go's truncating division, with a division by zero as None (a panic). */
  function Div(a: int, b: int): Option<int>
  {
    if b == 0 then None else Some(Quot(a, b))
  }

  /** The market-buy branch: a justprice investor with credit for more than ten such orders. */
  predicate MarketBuy(buyable: int, amount: int, justprice: bool)
    requires amount >= 1
  {
    Quot(buyable, amount) > 10 && justprice
  }

  /** The market-sell branch: a justprice investor with isu for more than ten such orders. */
  predicate MarketSell(logicalIsu: int, amount: int, justprice: bool)
    requires amount >= 1
  {
    Quot(logicalIsu, amount) > 10 && justprice
  }

  /**
   * The kind of order, as written: the "no money" branch, meant to settle
   * on a sell, picks a buy.
   */
  function ChooseKindAsWritten(buyable: int, logicalIsu: int, amount: int, justprice: bool, coin: bool): (kind: string)
    requires amount >= 1
    ensures kind == BuyType || kind == SellType
    ensures MarketBuy(buyable, amount, justprice) ==> kind == BuyType
    ensures !MarketBuy(buyable, amount, justprice) && MarketSell(logicalIsu, amount, justprice) ==> kind == SellType
    ensures !MarketBuy(buyable, amount, justprice) && !MarketSell(logicalIsu, amount, justprice) ==>
      (logicalIsu < amount ==> kind == BuyType) &&
      (logicalIsu >= amount && buyable < 1 ==> kind == BuyType) &&
      (logicalIsu >= amount && buyable >= 1 ==> (kind == BuyType <==> coin))
  {
    if MarketBuy(buyable, amount, justprice) then BuyType
    else if MarketSell(logicalIsu, amount, justprice) then SellType
    else if logicalIsu < amount then BuyType
    else if buyable < 1 then BuyType
    else if coin then BuyType
    else SellType
  }

  /**
   * The kind of order as intended: with no isu to sell it buys, with no
   * money to buy it sells.
   */
  function ChooseKind(buyable: int, logicalIsu: int, amount: int, justprice: bool, coin: bool): (kind: string)
    requires amount >= 1
    ensures kind == BuyType || kind == SellType
    ensures MarketBuy(buyable, amount, justprice) ==> kind == BuyType
    ensures !MarketBuy(buyable, amount, justprice) && MarketSell(logicalIsu, amount, justprice) ==> kind == SellType
    ensures !MarketBuy(buyable, amount, justprice) && !MarketSell(logicalIsu, amount, justprice) ==>
      (logicalIsu < amount ==> kind == BuyType) &&
      (logicalIsu >= amount && buyable < 1 ==> kind == SellType) &&
      (logicalIsu >= amount && buyable >= 1 ==> (kind == BuyType <==> coin))
  {
    if MarketBuy(buyable, amount, justprice) then BuyType
    else if MarketSell(logicalIsu, amount, justprice) then SellType
    else if logicalIsu < amount then BuyType
    else if buyable < 1 then SellType
    else if coin then BuyType
    else SellType
  }

  /** The two differ only in the "no money" branch. */
  lemma ChooseKindDiffers(buyable: int, logicalIsu: int, amount: int, justprice: bool, coin: bool)
    requires amount >= 1
    ensures ChooseKindAsWritten(buyable, logicalIsu, amount, justprice, coin)
      != ChooseKind(buyable, logicalIsu, amount, justprice, coin)
      <==> (!MarketBuy(buyable, amount, justprice) && !MarketSell(logicalIsu, amount, justprice)
            && logicalIsu >= amount && buyable < 1)
  {
  }

  /** What tryTrade does when it does not cancel. */
  datatype Plan = NoOrder | Crash | Place(kind: string, amount: int, price: int)

  /**
   * The order tryTrade places: the kind chosen, the price nudged from the
   * last trade price (or taken from the book for a market order), and the
   * amount clamped to what the investor can pay for or deliver; an amount
   * below 1 places nothing.
   */
  function PlanOrder(kind: string, logicalCredit: int, logicalIsu: int, price: int, amount: int): (p: Plan)
    ensures p.Place? ==> p.kind == kind && p.price == price && 1 <= p.amount
    ensures p.Place? && (kind != BuyType || price > 0) ==> p.amount <= amount
    ensures p.Place? && kind != BuyType ==> p.amount <= logicalIsu
    ensures p.Place? && kind == BuyType && price > 0 ==> p.amount * price <= logicalCredit
    ensures kind == BuyType && logicalCredit < price * amount && price == 0 ==> p.Crash?
    ensures kind == BuyType && price * amount <= logicalCredit && amount >= 1 ==> p == Place(kind, amount, price)
    ensures kind != BuyType && amount <= logicalIsu && amount >= 1 ==> p == Place(kind, amount, price)
  {
    var clamped :=
      if kind == BuyType then (if logicalCredit < price * amount then Div(logicalCredit, price) else Some(amount))
      else (if logicalIsu < amount then Some(logicalIsu) else Some(amount));
    match clamped
      case None => Crash
      case Some(a) =>
        if a < 1 then NoOrder
        else
          assert kind == BuyType && price > 0 && logicalCredit < price * amount ==>
            a * price <= logicalCredit && a <= amount by {
            if kind == BuyType && price > 0 && logicalCredit < price * amount {
              QuotBelow(logicalCredit, price, amount);
            }
          }
          Place(kind, a, price)
  }

  /** A non-negative quotient times the divisor stays within the dividend, and below any bound the dividend is below. */
  lemma QuotBelow(a: int, b: int, n: int)
    requires b > 0 && a < b * n
    ensures Quot(a, b) >= 1 ==> Quot(a, b) * b <= a && Quot(a, b) <= n
  {
    if a >= 0 {
      assert Quot(a, b) == a / b;
      assert (a / b) * b <= a;
    }
  }

  /** How many units of the lowest sell (or, with none, the last trade) the free credit buys. */
  function Buyable(logicalCredit: int, lowestSell: int, latestTrade: int): (b: Option<int>)
    ensures b.None? <==> (if lowestSell > 0 then lowestSell else latestTrade) == 0
    ensures lowestSell > 0 && 0 <= logicalCredit < lowestSell ==> b == Some(0)
  {
    if lowestSell > 0 && 0 <= logicalCredit < lowestSell then
      QuotSmall(logicalCredit, lowestSell);
      Div(logicalCredit, lowestSell)
    else
    Div(logicalCredit, if lowestSell > 0 then lowestSell else latestTrade)
  }

  /**
   * The price of the order: the lowest sell for a market buy, the highest
   * buy for a market sell, otherwise the last trade price nudged.
   */
  function OrderPrice(buyable: int, logicalIsu: int, amount: int, justprice: bool,
                      lowestSell: int, highestBuy: int, latestTrade: int, nudge: int): (price: int)
    requires amount >= 1
    ensures MarketBuy(buyable, amount, justprice) ==> price == lowestSell
    ensures !MarketBuy(buyable, amount, justprice) && MarketSell(logicalIsu, amount, justprice) ==> price == highestBuy
    ensures !MarketBuy(buyable, amount, justprice) && !MarketSell(logicalIsu, amount, justprice) ==>
      price == latestTrade + nudge
  {
    if MarketBuy(buyable, amount, justprice) then lowestSell
    else if MarketSell(logicalIsu, amount, justprice) then highestBuy
    else latestTrade + nudge
  }

  /**
   * tryTrade's decision when it does not cancel, as written: a division by
   * a zero price panics; otherwise the kind is chosen, the price set and
   * the amount clamped.
   */
  function Decide(logicalCredit: int, logicalIsu: int, lowestSell: int, highestBuy: int, latestTrade: int,
                  amount: int, nudge: int, justprice: bool, coin: bool): (p: Plan)
    requires amount >= 1
    ensures (if lowestSell > 0 then lowestSell else latestTrade) == 0 ==> p == Crash
    ensures p.Place? ==> 1 <= p.amount && (p.kind == BuyType || p.kind == SellType)
    ensures p.Place? && p.kind == SellType ==> p.amount <= amount && p.amount <= logicalIsu
    ensures p.Place? && p.kind == BuyType && p.price > 0 ==> p.amount <= amount && p.amount * p.price <= logicalCredit
    ensures p.Place? && !justprice ==> p.price == latestTrade + nudge
    ensures var b := Buyable(logicalCredit, lowestSell, latestTrade);
      p.Place? && b.Some? && !MarketBuy(b.value, amount, justprice) && !MarketSell(logicalIsu, amount, justprice) ==>
        p.price == latestTrade + nudge
  {
    match Buyable(logicalCredit, lowestSell, latestTrade)
      case None => Crash
      case Some(b) =>
        PlanOrder(ChooseKindAsWritten(b, logicalIsu, amount, justprice, coin), logicalCredit, logicalIsu,
                  OrderPrice(b, logicalIsu, amount, justprice, lowestSell, highestBuy, latestTrade, nudge), amount)
  }

  /** The same decision with the intended choice of kind. */
  function DecideIntended(logicalCredit: int, logicalIsu: int, lowestSell: int, highestBuy: int, latestTrade: int,
                          amount: int, nudge: int, justprice: bool, coin: bool): (p: Plan)
    requires amount >= 1
    ensures (if lowestSell > 0 then lowestSell else latestTrade) == 0 ==> p == Crash
    ensures p.Place? ==> 1 <= p.amount && (p.kind == BuyType || p.kind == SellType)
    ensures p.Place? && p.kind == SellType ==> p.amount <= amount && p.amount <= logicalIsu
    ensures p.Place? && p.kind == BuyType && p.price > 0 ==> p.amount <= amount && p.amount * p.price <= logicalCredit
    ensures p.Place? && !justprice ==> p.price == latestTrade + nudge
    ensures var b := Buyable(logicalCredit, lowestSell, latestTrade);
      p.Place? && b.Some? && !MarketBuy(b.value, amount, justprice) && !MarketSell(logicalIsu, amount, justprice) ==>
        p.price == latestTrade + nudge
  {
    match Buyable(logicalCredit, lowestSell, latestTrade)
      case None => Crash
      case Some(b) =>
        PlanOrder(ChooseKind(b, logicalIsu, amount, justprice, coin), logicalCredit, logicalIsu,
                  OrderPrice(b, logicalIsu, amount, justprice, lowestSell, highestBuy, latestTrade, nudge), amount)
  }

  /**
   * With free credit below the lowest sell price but isu to sell, the
   * decision as written sells only in the market-sell branch (a justprice
   * investor with isu for more than ten orders), and there it sells the
   * whole amount at the highest buy. Every other investor, justprice or
   * not, reaches the "no money" branch and never sells: it buys, and
   * places nothing at all when the nudged price is above the free credit.
   */
  lemma NoMoneyNeverSells(logicalCredit: int, logicalIsu: int, lowest: int, highestBuy: int, latest: int,
                          amount: int, nudge: int, justprice: bool, coin: bool)
    requires amount >= 1 && lowest > 0 && 0 <= logicalCredit < lowest && logicalIsu >= amount
    ensures MarketSell(logicalIsu, amount, justprice) ==>
      Decide(logicalCredit, logicalIsu, lowest, highestBuy, latest, amount, nudge, justprice, coin)
        == Place(SellType, amount, highestBuy)
    ensures var p := Decide(logicalCredit, logicalIsu, lowest, highestBuy, latest, amount, nudge, justprice, coin);
      !MarketSell(logicalIsu, amount, justprice) && p.Place? ==> p.kind == BuyType
    ensures !MarketSell(logicalIsu, amount, justprice) && logicalCredit < latest + nudge ==>
      Decide(logicalCredit, logicalIsu, lowest, highestBuy, latest, amount, nudge, justprice, coin) == NoOrder
  {
    QuotSmall(0, amount);
    assert !MarketBuy(0, amount, justprice);
    var price := latest + nudge;
    if !MarketSell(logicalIsu, amount, justprice) {
      assert ChooseKindAsWritten(0, logicalIsu, amount, justprice, coin) == BuyType;
      if logicalCredit < price {
        assert price * amount >= price;
        QuotSmall(logicalCredit, price);
      }
    }
  }

  /** A non-negative dividend below the divisor gives 0. */
  lemma QuotSmall(a: int, b: int)
    requires 0 <= a < b
    ensures Quot(a, b) == 0
  {
    assert a == b * (a / b) + a % b;
  }

  /**
   * In the same situation the intended decision always sells the whole
   * amount: at the highest buy in the market-sell branch, at the nudged
   * price in the "no money" branch.
   */
  lemma NoMoneySells(logicalCredit: int, logicalIsu: int, lowest: int, highestBuy: int, latest: int,
                     amount: int, nudge: int, justprice: bool, coin: bool)
    requires amount >= 1 && lowest > 0 && 0 <= logicalCredit < lowest && logicalIsu >= amount
    ensures DecideIntended(logicalCredit, logicalIsu, lowest, highestBuy, latest, amount, nudge, justprice, coin)
      == Place(SellType, amount, if MarketSell(logicalIsu, amount, justprice) then highestBuy else latest + nudge)
  {
    QuotSmall(0, amount);
    assert !MarketBuy(0, amount, justprice);
    assert ChooseKind(0, logicalIsu, amount, justprice, coin) == SellType;
  }

  /** What one call of tryTrade did. */
  datatype Outcome = Cancelled(id: int) | Placed(order: Order) | Refused | Idle | Panicked | Failure(err: BenchClient.Failure)

  /** How far an order is from being traded: the market would have to move this much. */
  function Distance(o: Order, highestBuy: int, lowestSell: int): int
  {
    if o.kind == SellType then o.price - highestBuy else lowestSell - o.price
  }

  /** The orders not closed yet. */
  function CountWaiting(os: seq<Order>): (n: nat)
    ensures n <= |os|
  {
    if os == [] then 0
    else CountWaiting(os[..|os| - 1]) + if os[|os| - 1].closedAt.None? then 1 else 0
  }

  /** Closing one waiting order leaves one fewer waiting. */
  lemma {:induction false} CloseOneWaiting(os: seq<Order>, k: nat, now: int)
    requires k < |os| && os[k].closedAt.None?
    ensures CountWaiting(os[k := os[k].(closedAt := Some(now))]) + 1 == CountWaiting(os)
    decreases |os|
  {
    var os' := os[k := os[k].(closedAt := Some(now))];
    if k < |os| - 1 {
      CloseOneWaiting(os[..|os| - 1], k, now);
      assert os'[..|os'| - 1] == os[..|os| - 1][k := os[k].(closedAt := Some(now))];
    } else {
      assert os'[..|os'| - 1] == os[..|os| - 1];
    }
  }

  /** A list with a waiting order has at least one. */
  lemma {:induction false} WaitingExists(os: seq<Order>)
    ensures CountWaiting(os) > 0 <==> exists i :: 0 <= i < |os| && os[i].closedAt.None?
    decreases |os|
  {
    if os != [] {
      var init := os[..|os| - 1];
      WaitingExists(init);
      assert forall i :: 0 <= i < |init| ==> init[i] == os[i];
    }
  }

  /**
   * The last order not closed yet among the first n, searched from the
   * end.
   */
  function LastOpenBefore(os: seq<Order>, n: nat): (k: Option<nat>)
    requires n <= |os|
    ensures k.Some? ==> (k.value < n && os[k.value].closedAt.None?
      && forall j :: k.value < j < n ==> os[j].closedAt.Some?)
    ensures k.None? <==> forall j :: 0 <= j < n ==> os[j].closedAt.Some?
  {
    if n == 0 then None
    else if os[n - 1].closedAt.None? then Some(n - 1)
    else LastOpenBefore(os, n - 1)
  }

  /**
   * Of the first n orders not closed yet, the one furthest from the market,
   * the earliest of equally far ones.
   */
  function FurthestUpTo(os: seq<Order>, n: nat, highestBuy: int, lowestSell: int): (k: Option<nat>)
    requires n <= |os|
    ensures k.Some? ==> k.value < n && os[k.value].closedAt.None?
    ensures k.Some? ==> forall j :: 0 <= j < n && os[j].closedAt.None? ==>
      Distance(os[j], highestBuy, lowestSell) <= Distance(os[k.value], highestBuy, lowestSell)
    ensures k.Some? ==> forall j :: 0 <= j < k.value && os[j].closedAt.None? ==>
      Distance(os[j], highestBuy, lowestSell) < Distance(os[k.value], highestBuy, lowestSell)
    ensures k.None? <==> forall j :: 0 <= j < n ==> os[j].closedAt.Some?
  {
    if n == 0 then None
    else
      var k := FurthestUpTo(os, n - 1, highestBuy, lowestSell);
      if os[n - 1].closedAt.None? &&
         (k.None? || Distance(os[k.value], highestBuy, lowestSell) < Distance(os[n - 1], highestBuy, lowestSell))
      then Some(n - 1)
      else k
  }

  /**
   * fetchOrders's reflect check fails: it is not skipped, and the last local
   * order not closed yet is a sell the exchange does not list.
   */
  predicate ReflectFails(local: seq<Order>, server: seq<Order>, skip: bool)
  {
    |local| > 0 && !skip &&
    var lo := LastOpenBefore(local, |local|);
    lo.Some? && local[lo.value].kind == SellType && FindById(server, local[lo.value].id).None?
  }

  /** A deletion the exchange answered with 404: the order was gone already. */
  predicate NotFound(e: BenchClient.Failure)
  {
    e.StatusFailure? && e.status == 404
  }

  /** A placement refused with 400 for lack of balance. */
  predicate BalanceShort(e: BenchClient.Failure)
  {
    e.StatusFailure? && e.status == 400 && MentionsBalance(e)
  }

  /** The request tryTrade sent to the exchange. */
  datatype Request = NoRequest | DeleteRequest(id: int) | AddRequest(kind: string, amount: int, price: int)

  // ---------------------------------------------------------------------
  // The investor

  class NormalScenario {
    var orders: seq<Order>
    var lowestSellPrice: int
    var highestBuyPrice: int
    var latestTradePrice: int
    const unitIsu: int
    const defaultIsu: int
    const defaultCredit: int
    var reservedIsu: int
    var reservedCredit: int
    var currentIsu: int
    var currentCredit: int
    const justprice: bool

    constructor (credit: int, isu: int, unit: int, justprice: bool)
      ensures orders == [] && defaultCredit == credit && currentCredit == credit
      ensures defaultIsu == isu && currentIsu == isu && unitIsu == unit && this.justprice == justprice
      ensures reservedIsu == 0 && reservedCredit == 0
      ensures lowestSellPrice == 0 && highestBuyPrice == 0 && latestTradePrice == 0
    {
      orders := [];
      lowestSellPrice, highestBuyPrice, latestTradePrice := 0, 0, 0;
      unitIsu := unit;
      defaultIsu, defaultCredit := isu, credit;
      reservedIsu, reservedCredit := 0, 0;
      currentIsu, currentCredit := isu, credit;
      this.justprice := justprice;
    }

    /** waitingOrders: the number of orders not closed yet. */
    method WaitingOrders() returns (n: nat)
      ensures n == CountWaiting(orders)
    {
      n := 0;
      var i := 0;
      while i < |orders|
        invariant 0 <= i <= |orders|
        invariant n == CountWaiting(orders[..i])
      {
        assert orders[..i + 1][..i] == orders[..i];
        if orders[i].closedAt.None? {
          n := n + 1;
        }
        i := i + 1;
      }
      assert orders[..i] == orders;
    }

    /** The last order not closed yet, searched from the end. */
    method LastOpen() returns (k: Option<nat>)
      ensures k.Some? ==> (k.value < |orders| && orders[k.value].closedAt.None?
        && forall j :: k.value < j < |orders| ==> orders[j].closedAt.Some?)
      ensures k.None? ==> forall j :: 0 <= j < |orders| ==> orders[j].closedAt.Some?
      ensures k == LastOpenBefore(orders, |orders|)
    {
      var j := |orders|;
      while j > 0
        invariant 0 <= j <= |orders|
        invariant forall m :: j <= m < |orders| ==> orders[m].closedAt.Some?
        invariant LastOpenBefore(orders, |orders|) == LastOpenBefore(orders, j)
      {
        if orders[j - 1].closedAt.None? {
          return Some(j - 1);
        }
        j := j - 1;
      }
      return None;
    }

    /**
     * The order to cancel: of the orders not closed yet, the one furthest
     * from the market, the earliest of equally far ones.
     */
    method Furthest() returns (k: Option<nat>)
      ensures k.Some? ==> k.value < |orders| && orders[k.value].closedAt.None?
      ensures k.Some? ==> forall j :: 0 <= j < |orders| && orders[j].closedAt.None? ==>
        Distance(orders[j], highestBuyPrice, lowestSellPrice) <= Distance(orders[k.value], highestBuyPrice, lowestSellPrice)
      ensures k.Some? ==> forall j :: 0 <= j < k.value && orders[j].closedAt.None? ==>
        Distance(orders[j], highestBuyPrice, lowestSellPrice) < Distance(orders[k.value], highestBuyPrice, lowestSellPrice)
      ensures k.None? <==> forall j :: 0 <= j < |orders| ==> orders[j].closedAt.Some?
      ensures k == FurthestUpTo(orders, |orders|, highestBuyPrice, lowestSellPrice)
    {
      k := None;
      var df := 0;
      var i := 0;
      while i < |orders|
        invariant 0 <= i <= |orders|
        invariant k == FurthestUpTo(orders, i, highestBuyPrice, lowestSellPrice)
        invariant k.Some? ==> df == Distance(orders[k.value], highestBuyPrice, lowestSellPrice)
      {
        if orders[i].closedAt.None? {
          var mdiff := Distance(orders[i], highestBuyPrice, lowestSellPrice);
          if k.None? || df < mdiff {
            k := Some(i);
            df := mdiff;
          }
        }
        i := i + 1;
      }
    }

    /** The tallying loop of fetchOrders over the exchange's list. */
    static method TallyOrders(server: seq<Order>) returns (t: Totals)
      ensures t == Tally(server)
    {
      t := NoTotals;
      var i := 0;
      while i < |server|
        invariant 0 <= i <= |server|
        invariant t == Tally(server[..i])
      {
        assert server[..i + 1][..i] == server[..i];
        t := Add(t, Share(server[i]));
        i := i + 1;
      }
      assert server[..i] == server;
    }

    /**
     * fetchOrders, given the client's GetOrders answer: unless the reflect
     * check is skipped, the last open local order, when a sell, must be
     * listed; then the local orders are reconciled, and on success the
     * reserved balances and the current ones (defaults plus trades) are
     * recomputed from the exchange's list.
     */
    method FetchOrders(fetched: Result<seq<Order>, BenchClient.Failure>, skipReflectCheck: bool, now: int)
      returns (traded: seq<Order>, err: Option<string>)
      modifies this
      ensures fetched.Err? ==> err.Some? && traded == [] && orders == old(orders)
      ensures fetched.Ok? && err.None? ==>
        var r := Reconcile(old(orders), fetched.value, now);
        r.missing.None? && orders == r.orders && traded == r.traded
        && reservedIsu == Tally(fetched.value).reservedIsu
        && reservedCredit == Tally(fetched.value).reservedCredit
        && currentIsu == defaultIsu + Tally(fetched.value).tradedIsu
        && currentCredit == defaultCredit + Tally(fetched.value).tradedCredit
      ensures err.None? <==> (fetched.Ok? && !ReflectFails(old(orders), fetched.value, skipReflectCheck)
        && Reconcile(old(orders), fetched.value, now).missing.None?)
      ensures fetched.Ok? && ReflectFails(old(orders), fetched.value, skipReflectCheck) ==>
        traded == [] && orders == old(orders)
      ensures err.Some? ==> (reservedIsu == old(reservedIsu) && reservedCredit == old(reservedCredit)
        && currentIsu == old(currentIsu) && currentCredit == old(currentCredit))
      ensures err.Some? ==> orders == old(orders) || (fetched.Ok? && orders == Reconcile(old(orders), fetched.value, now).orders)
      ensures lowestSellPrice == old(lowestSellPrice) && highestBuyPrice == old(highestBuyPrice)
      ensures latestTradePrice == old(latestTradePrice)
    {
      if fetched.Err? {
        return [], Some("GET /orders failed");
      }
      var server := fetched.value;
      if |orders| > 0 && !skipReflectCheck {
        var lo := LastOpen();
        if lo.Some? && orders[lo.value].kind == SellType {
          var found := FindOrder(server, orders[lo.value].id);
          if found.None? {
            return [], Some("GET /orders order not reflected");
          }
        }
      }
      traded, err := ReconcileOrders(server, now);
      if err.Some? {
        return;
      }
      var t := TallyOrders(server);
      reservedIsu := t.reservedIsu;
      reservedCredit := t.reservedCredit;
      currentCredit := defaultCredit + t.tradedCredit;
      currentIsu := defaultIsu + t.tradedIsu;
    }

    /** The reconciling loop of fetchOrders, which updates the local orders one by one. */
    method ReconcileOrders(server: seq<Order>, now: int) returns (traded: seq<Order>, err: Option<string>)
      modifies this
      ensures orders == Reconcile(old(orders), server, now).orders
      ensures traded == Reconcile(old(orders), server, now).traded
      ensures err.Some? <==> Reconcile(old(orders), server, now).missing.Some?
      ensures reservedIsu == old(reservedIsu) && reservedCredit == old(reservedCredit)
      ensures currentIsu == old(currentIsu) && currentCredit == old(currentCredit)
      ensures lowestSellPrice == old(lowestSellPrice) && highestBuyPrice == old(highestBuyPrice)
      ensures latestTradePrice == old(latestTradePrice)
    {
      var updated;
      updated, traded, err := ReconcileList(orders, server, now);
      orders := updated;
    }

    /**
     * The loop itself, on the list of orders: each entry is overwritten in
     * turn, and a lost sell order leaves the entries from it on untouched.
     */
    static method ReconcileList(local: seq<Order>, server: seq<Order>, now: int)
      returns (updated: seq<Order>, traded: seq<Order>, err: Option<string>)
      ensures updated == Reconcile(local, server, now).orders
      ensures traded == Reconcile(local, server, now).traded
      ensures err.Some? <==> Reconcile(local, server, now).missing.Some?
    {
      updated := local;
      traded := [];
      var i := 0;
      while i < |local|
        invariant 0 <= i <= |local|
        invariant Reconcile(local[..i], server, now).missing.None?
        invariant updated == Reconcile(local[..i], server, now).orders + local[i..]
        invariant traded == Reconcile(local[..i], server, now).traded
      {
        var o := updated[i];
        ReconcileAt(local, server, now, i);
        var ro := FindOrder(server, o.id);
        var st := Step(o, ro, now);
        if st.lost {
          ReconcileStop(local, server, now, i);
          return updated, traded, Some("GET /orders sell order missing or deleted");
        }
        ReconcileAdvance(local, server, now, i);
        updated := updated[i := st.order];
        traded := traded + st.traded;
        i := i + 1;
      }
      assert local[..i] == local;
      return updated, traded, None;
    }

    /**
     * tryTrade, given its random draws (the cancel threshold 4 or 5, the
     * amount in [1, unitIsu], the price nudge in {-1, 0, 1}, the coin), the
     * clock and the client's answers: with enough orders waiting it asks to
     * delete the one furthest from the market (a 404 is accepted);
     * otherwise it decides an order, with the choice of kind as written,
     * and places it, a refusal for lack of balance being accepted.
     */
    method TryTrade(threshold: int, amount: int, nudge: int, coin: bool, now: int,
                    deleted: Option<BenchClient.Failure>, added: Result<Order, BenchClient.Failure>)
      returns (outcome: Outcome, sent: Request)
      modifies this
      requires threshold == 4 || threshold == 5
      requires amount >= 1 && -1 <= nudge <= 1
      ensures CountWaiting(old(orders)) >= threshold ==>
        var k := FurthestUpTo(old(orders), |old(orders)|, old(highestBuyPrice), old(lowestSellPrice));
        k.Some? && sent == DeleteRequest(old(orders)[k.value].id)
        && (deleted.Some? && !NotFound(deleted.value) ==>
              outcome == Failure(deleted.value) && orders == old(orders))
        && (deleted.None? || NotFound(deleted.value) ==>
              outcome == Cancelled(old(orders)[k.value].id)
              && orders == old(orders)[k.value := old(orders)[k.value].(closedAt := Some(now))]
              && CountWaiting(orders) + 1 == CountWaiting(old(orders)))
      ensures CountWaiting(old(orders)) < threshold ==>
        var plan := Decide(old(currentCredit - reservedCredit), old(currentIsu - reservedIsu),
                           old(lowestSellPrice), old(highestBuyPrice), old(latestTradePrice), amount, nudge, justprice, coin);
        (plan.Crash? ==> outcome == Panicked && sent == NoRequest && orders == old(orders))
        && (plan.NoOrder? ==> outcome == Idle && sent == NoRequest && orders == old(orders))
        && (plan.Place? ==>
              sent == AddRequest(plan.kind, plan.amount, plan.price)
              && (added.Ok? ==> outcome == Placed(added.value) && orders == old(orders) + [added.value])
              && (added.Err? && BalanceShort(added.error) ==> outcome == Refused && orders == old(orders))
              && (added.Err? && !BalanceShort(added.error) ==> outcome == Failure(added.error) && orders == old(orders)))
      ensures lowestSellPrice == old(lowestSellPrice) && highestBuyPrice == old(highestBuyPrice)
      ensures latestTradePrice == old(latestTradePrice)
      ensures reservedIsu == old(reservedIsu) && reservedCredit == old(reservedCredit)
      ensures currentIsu == old(currentIsu) && currentCredit == old(currentCredit)
    {
      var waiting := WaitingOrders();
      if waiting >= threshold {
        outcome, sent := CancelFurthest(deleted, now);
      } else {
        outcome, sent := PlaceDecided(amount, nudge, coin, added);
      }
    }

    /**
     * tryTrade's cancelling branch: delete the order furthest from the
     * market; unless the exchange failed otherwise than with 404, close it
     * locally.
     */
    method CancelFurthest(deleted: Option<BenchClient.Failure>, now: int) returns (outcome: Outcome, sent: Request)
      modifies this
      requires CountWaiting(orders) > 0
      ensures var k := FurthestUpTo(old(orders), |old(orders)|, old(highestBuyPrice), old(lowestSellPrice));
        k.Some? && sent == DeleteRequest(old(orders)[k.value].id)
        && (deleted.Some? && !NotFound(deleted.value) ==>
              outcome == Failure(deleted.value) && orders == old(orders))
        && (deleted.None? || NotFound(deleted.value) ==>
              outcome == Cancelled(old(orders)[k.value].id)
              && orders == old(orders)[k.value := old(orders)[k.value].(closedAt := Some(now))]
              && CountWaiting(orders) + 1 == CountWaiting(old(orders)))
      ensures lowestSellPrice == old(lowestSellPrice) && highestBuyPrice == old(highestBuyPrice)
      ensures latestTradePrice == old(latestTradePrice)
      ensures reservedIsu == old(reservedIsu) && reservedCredit == old(reservedCredit)
      ensures currentIsu == old(currentIsu) && currentCredit == old(currentCredit)
    {
      WaitingExists(orders);
      var k := Furthest();
      sent := DeleteRequest(orders[k.value].id);
      if deleted.Some? && !NotFound(deleted.value) {
        return Failure(deleted.value), sent;
      }
      CloseOneWaiting(orders, k.value, now);
      var o := orders[k.value];
      orders := orders[k.value := o.(closedAt := Some(now))];
      return Cancelled(o.id), sent;
    }

    /**
     * tryTrade's placing branch: work out the order from the free balances
     * and the prices, and place it.
     */
    method PlaceDecided(amount: int, nudge: int, coin: bool, added: Result<Order, BenchClient.Failure>)
      returns (outcome: Outcome, sent: Request)
      modifies this
      requires amount >= 1
      ensures var plan := Decide(old(currentCredit - reservedCredit), old(currentIsu - reservedIsu),
                                 old(lowestSellPrice), old(highestBuyPrice), old(latestTradePrice), amount, nudge, justprice, coin);
        (plan.Crash? ==> outcome == Panicked && sent == NoRequest && orders == old(orders))
        && (plan.NoOrder? ==> outcome == Idle && sent == NoRequest && orders == old(orders))
        && (plan.Place? ==>
              sent == AddRequest(plan.kind, plan.amount, plan.price)
              && (added.Ok? ==> outcome == Placed(added.value) && orders == old(orders) + [added.value])
              && (added.Err? && BalanceShort(added.error) ==> outcome == Refused && orders == old(orders))
              && (added.Err? && !BalanceShort(added.error) ==> outcome == Failure(added.error) && orders == old(orders)))
      ensures lowestSellPrice == old(lowestSellPrice) && highestBuyPrice == old(highestBuyPrice)
      ensures latestTradePrice == old(latestTradePrice)
      ensures reservedIsu == old(reservedIsu) && reservedCredit == old(reservedCredit)
      ensures currentIsu == old(currentIsu) && currentCredit == old(currentCredit)
    {
      var logicalCredit := currentCredit - reservedCredit;
      var logicalIsu := currentIsu - reservedIsu;
      sent := NoRequest;
      var price := latestTradePrice + nudge;
      var buyable := Div(logicalCredit, if lowestSellPrice > 0 then lowestSellPrice else latestTradePrice);
      if buyable.None? {
        return Panicked, sent;
      }
      var kind := ChooseKindAsWritten(buyable.value, logicalIsu, amount, justprice, coin);
      if MarketBuy(buyable.value, amount, justprice) {
        price := lowestSellPrice;
      } else if MarketSell(logicalIsu, amount, justprice) {
        price := highestBuyPrice;
      }
      var plan := PlanOrder(kind, logicalCredit, logicalIsu, price, amount);
      assert plan == Decide(logicalCredit, logicalIsu, lowestSellPrice, highestBuyPrice, latestTradePrice,
                            amount, nudge, justprice, coin);
      match plan {
        case Crash => return Panicked, sent;
        case NoOrder => return Idle, sent;
        case Place(_, _, _) =>
          sent := AddRequest(plan.kind, plan.amount, plan.price);
          if added.Err? {
            if BalanceShort(added.error) {
              return Refused, sent;
            }
            return Failure(added.error), sent;
          }
          orders := orders + [added.value];
          return Placed(added.value), sent;
      }
    }
  }

  /** s occurs in t. */
  predicate Contains(t: string, s: string)
    decreases |t|
  {
    |t| >= |s| && (t[..|s|] == s || (t != [] && Contains(t[1..], s)))
  }

  /**
   * The error's text mentions the balance ("残高"). The text is the message,
   * the status and the body; the status and the separators are ASCII, so
   * the word can only be in the message or the body.
   */
  predicate MentionsBalance(e: BenchClient.Failure)
  {
    Contains(e.message, "残高") || (e.StatusFailure? && Contains(e.body, "残高"))
  }
}
