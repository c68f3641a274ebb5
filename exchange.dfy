// The exchange as the web application runs it: an object holding the
// `orders` and `trade` tables and the log events, talking to the bank
// through a `Ledger.Client`. Every method changes the tables step by step
// as the source does and is proved to end in exactly the state, and with
// exactly the result, that the `Matching` function for the same operation
// gives; the theorems proved there about those functions therefore hold
// of these methods.
module Exchange {
  import opened Common
  import opened Book
  import opened Ledger
  import opened Matching
  import opened Strconv

  // ---------------------------------------------------------------------
  // The HTTP layer of the order routes

  /**
   * formvalInt64: a missing or empty form value is an error, and so is one
   * that strconv.ParseInt does not read as an int64.
   */
  function FormInt(v: string): (r: Option<int>)
    ensures v == "" ==> r.None?
    ensures r.Some? ==> IsInt64(r.value) && ParseInt(v) == Parsed(r.value)
  {
    if v == "" then None
    else match ParseInt(v)
      case Parsed(n) => Some(n)
      case _ => None
  }

  /** Every int64 written in decimal is read back by formvalInt64. */
  lemma FormIntRoundTrip(n: int)
    requires IsInt64(n)
    ensures FormInt(FormatInt(n)) == Some(n)
  {
    ParseFormatRoundTrip(n);
  }

  /** An error on its way out of a handler: with the status it asks for, or without one. */
  datatype HandlerError = Plain | Coded(code: int)

  /** errcodeWrap: no error stays no error; an error gets the status `code`. */
  function ErrcodeWrap(err: Option<HandlerError>, code: int): (r: Option<HandlerError>)
    ensures r.None? <==> err.None?
    ensures r.Some? ==> r.value == Coded(code)
  {
    if err.None? then None else Some(Coded(code))
  }

  /** handleError: a coded error answers with its own status, any other with `fallback`. */
  function StatusOf(err: HandlerError, fallback: int): (status: int)
    ensures err.Coded? ==> status == err.code
    ensures err.Plain? ==> status == fallback
  {
    if err.Coded? then err.code else fallback
  }

  /**
   * txScorp: the table writes of `f` are committed only when it returned
   * no error and did not panic; otherwise they are rolled back and the
   * error (for a panic, a plain one) is returned. Logs and bank calls are
   * outside the transaction and stay.
   */
  function TxScorp(before: World, after: World, err: Option<HandlerError>, panicked: bool): (r: (World, Option<HandlerError>))
    ensures r.1.None? <==> err.None? && !panicked
    ensures r.0.orders == (if r.1.None? then after.orders else before.orders)
    ensures r.0.trades == (if r.1.None? then after.trades else before.trades)
    ensures r.0.events == after.events && r.0.sent == after.sent
  {
    if panicked then (Rollback(before, after), Some(Plain))
    else if err.Some? then (Rollback(before, after), err)
    else (after, None)
  }

  /**
   * The status of a failed order placement: invalid input and insufficient
   * credit are 400 (handler.go, and app.rb's rescue); any other bank
   * failure escapes as 500.
   */
  function AddStatus(e: AddError): (status: int)
    ensures status == 400 <==> e.ParameterInvalid? || e.CreditInsufficient?
    ensures status == 500 <==> e.BankFailure?
  {
    if e == BankFailure then 500 else 400
  }

  /**
   * The outcome of placing an order, given r, what AddOrder did: a failure
   * is answered with its status, the transaction's writes undone; a success
   * answers with the new id, 500 when the trade-chance lookup fails and 200
   * otherwise, and after it the matching has run when the order had a
   * trade chance.
   */
  predicate Placement(r: (World, Result<Order, AddError>), p: Port, script: nat -> Reply, now: int,
                      status: int, id: int, after: World)
  {
    (r.1.Err? ==> status == AddStatus(r.1.error) && after == r.0) &&
    (r.1.Ok? ==>
       id == r.1.value.id && Table(r.0.orders) &&
       (TradeChance(r.0.orders, id, p).Err? ==> status == 500 && after == r.0) &&
       (TradeChance(r.0.orders, id, p) == Ok(false) ==> status == 200 && after == r.0) &&
       (TradeChance(r.0.orders, id, p) == Ok(true) ==>
          status == 200 && after == Matching.RunTrade(r.0, p, script, now).0))
  }

  /**
   * The status of a failed cancellation: not found and already closed are
   * 404; handler.go's failed row lookup falls through to 500.
   */
  function DeleteStatus(e: DeleteError): (status: int)
    ensures status == 404 <==> e.OrderNotFound? || e.OrderAlreadyClosed?
    ensures status == 500 <==> e.LookupFailed?
  {
    if e == LookupFailed then 500 else 404
  }

  class Engine {
    /** Which port's behaviour this engine has. */
    const port: Port
    /** The bank connection; its `sent` holds every request made so far. */
    const bank: Client
    var orders: seq<Order>
    var trades: seq<Trade>
    var events: seq<Event>

    /** Everything the engine has written or sent, as one value. */
    function State(): World
      reads this, bank
    {
      World(orders, trades, events, bank.sent)
    }

    /** A fresh exchange: empty tables, nothing logged. */
    constructor (port: Port, bank: Client)
      ensures this.port == port && this.bank == bank
      ensures orders == [] && trades == [] && events == []
    {
      this.port := port;
      this.bank := bank;
      orders := [];
      trades := [];
      events := [];
    }

    // -------------------------------------------------------------------
    // Placing and cancelling orders

    /** AddOrder: validate, check a buyer's funds, insert the row, log it. */
    method AddOrder(kind: Kind, userId: nat, amount: int, price: int, now: int) returns (r: Result<Order, AddError>)
      modifies this, bank
      ensures (State(), r) == Matching.AddOrder(old(State()), port, kind, userId, amount, price, bank.script, now)
    {
      if amount <= 0 || price <= 0 {
        return Err(ParameterInvalid);
      }
      if kind == Buy {
        var a := bank.Call(CheckReq(userId, price * amount));
        if a != Accepted {
          events := events + [ErrorLog(Buy, a, userId, amount, price)];
          return Err(if a == Insufficient || port == Node then CreditInsufficient else BankFailure);
        }
      } else if kind != Sell {
        return Err(ParameterInvalid);
      }
      var o := Order(|orders| + 1, kind, userId, amount, price, now, None, 0);
      orders := orders + [o];
      events := events + [OrderLog(kind, o.id, userId, amount, price)];
      r := Ok(o);
    }

    /** cancelOrder: set closed_at on the row and log the delete with its reason. */
    method CancelOrder(o: Order, reason: Reason, now: int)
      modifies this
      ensures State() == Matching.CancelOrder(old(State()), o, reason, now)
    {
      orders := SetClosed(orders, o.id, now);
      events := events + [DeleteLog(o.kind, o.id, Some(o.userId), reason)];
    }

    /** DeleteOrder: only the owner may cancel, and only an open order. */
    method DeleteOrder(userId: nat, orderId: int, reason: Reason, now: int) returns (r: Result<Order, DeleteError>)
      requires Table(orders)
      modifies this
      ensures (State(), r) == Matching.DeleteOrder(old(State()), port, userId, orderId, reason, now)
    {
      var found := Lookup(orders, orderId);
      if found.None? {
        return Err(if port == GoHandler then LookupFailed else OrderNotFound);
      }
      var o := found.value;
      if o.userId != userId {
        return Err(OrderNotFound);
      }
      if !IsOpen(o) {
        return Err(OrderAlreadyClosed);
      }
      if port == GoHandler {
        orders := SetClosed(orders, o.id, now);
        events := events + [DeleteLog(o.kind, orderId, None, Canceled)];
      } else {
        CancelOrder(o, reason, now);
      }
      r := Ok(o);
    }

    // -------------------------------------------------------------------
    // tryTrade

    /** reserveOrder: reserve amount × price (negated for a buy) at the bank. */
    method ReserveOrder(o: Order, price: int, awaited: bool, now: int) returns (r: Reservation)
      modifies this, bank
      ensures (State(), r) == Matching.ReserveOrder(old(State()), o, price, awaited, port, bank.script, now)
    {
      var n := |bank.sent|;
      var a := bank.Call(ReserveReq(o.userId, ReserveAmount(o, price)));
      if port == Node && !awaited {
        return Reserved(Pending(n));
      }
      if a == Accepted {
        return Reserved(Rid(ReserveId(n)));
      }
      if a == Insufficient && port == GoHandler {
        orders := SetClosed(orders, o.id, now);
        events := events + [DeleteLog(o.kind, 0, None, ReserveFailed)];
        return Refused;
      }
      if a == Insufficient && port != Node {
        CancelOrder(o, ReserveFailed, now);
        events := events + [ErrorLog(o.kind, a, o.userId, o.amount, price)];
        return Refused;
      }
      r := Failed;
    }

    /** The deferred cancel of the reservations of an attempt that did not commit. */
    method Release(reserves: seq<Ref>, outcome: Outcome) returns (out: Outcome)
      modifies bank
      ensures (State(), out) == Matching.Release(old(State()), reserves, port, bank.script, outcome)
    {
      out := outcome;
      if reserves != [] {
        var a := bank.Call(CancelReq(reserves));
        if a != Accepted && (port == Ruby || port == Node) {
          out := Failure;
        }
      }
    }

    /** Close each order of a trade with the trade id, logging `<type>.trade` for each. */
    method CloseTraded(closing: seq<Order>, price: int, tradeId: nat, now: int)
      modifies this
      ensures State() == Matching.CloseTraded(old(State()), closing, price, tradeId, now)
    {
      var k := 0;
      while k < |closing|
        invariant 0 <= k <= |closing|
        invariant Matching.CloseTraded(State(), closing[k..], price, tradeId, now) ==
                  Matching.CloseTraded(old(State()), closing, price, tradeId, now)
      {
        var o := closing[k];
        assert closing[k..][1..] == closing[k + 1..];
        orders := SetTraded(orders, o.id, tradeId, now);
        events := events + [OrderTradeLog(o.kind, o.id, o.userId, o.amount, price, tradeId)];
        k := k + 1;
      }
    }

    /** commitReservedOrder: insert the trade, close its orders, commit the reservations. */
    method CommitReservedOrder(order: Order, targets: seq<Order>, reserves: seq<Ref>, now: int) returns (out: Outcome)
      modifies this, bank
      ensures (State(), out) == Matching.Settle(old(State()), order, targets, reserves, port, bank.script, now)
    {
      var tid := |trades| + 1;
      trades := trades + [Trade(tid, order.amount, order.price, now)];
      events := events + [TradeLog(tid, order.amount, order.price)];
      CloseTraded(targets + [order], order.price, tid, now);
      var a := bank.Call(CommitReq(reserves));
      if a == Accepted {
        return Traded;
      }
      out := Release(reserves, Failure);
    }

    /**
     * One pass of the loop of tryTrade over the counter orders: re-read the
     * candidate under lock (a missing row aborts), skip it when closed or
     * larger than what is left to fill, otherwise reserve it; a refusal
     * skips it, any other bank failure aborts.
     */
    method VisitCounter(c: Order, rest: int, price: int, now: int)
      returns (taken: bool, rid: Ref, to: Order, abort: bool)
      requires Table(orders)
      modifies this, bank
      ensures var v := VisitCandidate(old(State()), c, rest, price, port, bank.script, now);
        State() == v.w && (taken <==> v.Take?) && (abort <==> v.Abort?) && (taken ==> rid == v.ref && to == v.to)
    {
      taken, rid, to, abort := false, Rid(0), c, false;
      var current := Lookup(orders, c.id);
      if current.None? {
        abort := true;
        return;
      }
      if !IsOpen(current.value) || current.value.amount > rest {
        return;
      }
      to := current.value;
      var r := ReserveOrder(to, price, false, now);
      match r
      case Reserved(ref) =>
        taken, rid := true, ref;
      case Refused =>
      case Failed =>
        abort := true;
    }

    /**
     * The body of the scan loop: visit the candidate, then take the order
     * (subtracting it from what is left, ending the loop at zero) or note
     * the abort.
     */
    method ScanStep(c: Order, ghost ids: set<int>, price: int, now: int,
                    rest: int, reserves: seq<Ref>, targets: seq<Order>)
      returns (rest': int, reserves': seq<Ref>, targets': seq<Order>, aborted: bool, done: bool)
      requires Table(orders) && c.id in ids
      modifies this, bank
      ensures Table(orders)
      ensures Scan(State(), rest', reserves', targets', aborted, done) ==
              Next(Scan(old(State()), rest, reserves, targets, false, false), c, ids, price, port, bank.script, now)
    {
      rest', reserves', targets', aborted, done := rest, reserves, targets, false, false;
      var taken, rid, to, abort := VisitCounter(c, rest, price, now);
      if abort {
        aborted, done := true, true;
      } else if taken {
        reserves', targets', rest' := reserves + [rid], targets + [to], rest - to.amount;
        done := rest' == 0;
      }
    }

    /**
     * The loop of tryTrade over the counter orders: the amount left to
     * fill, the reservations and the taken orders accumulate until nothing
     * is left to fill, a pass aborts, or the candidates run out.
     */
    method ScanCounters(order: Order, ref: Ref, cands: seq<Order>, now: int)
      returns (rest: int, reserves: seq<Ref>, targets: seq<Order>, aborted: bool)
      requires Table(orders) && cands == CounterOrders(orders, order, port)
      modifies this, bank
      ensures var s := Fill(old(State()), order, ref, port, bank.script, now);
        State() == s.w && rest == s.rest && reserves == s.reserves && targets == s.targets && aborted == s.aborted
    {
      FillIsFrom(State(), order, ref, port, bank.script, now);
      var done;
      rest, reserves, targets, aborted, done := ScanFrom(order, ref, cands, now);
    }

    /** The scan loop itself, from the aggressor's own reservation over the candidates. */
    method ScanFrom(order: Order, ref: Ref, cands: seq<Order>, now: int)
      returns (rest: int, reserves: seq<Ref>, targets: seq<Order>, aborted: bool, done: bool)
      requires Table(orders)
      modifies this, bank
      ensures Scan(State(), rest, reserves, targets, aborted, done) ==
              FillFrom(Start(old(State()), order, ref), cands, 0, order.price, port, bank.script, now)
    {
      ghost var goal := FillFrom(Start(State(), order, ref), cands, 0, order.price, port, bank.script, now);
      rest, reserves, targets, aborted, done := order.amount, [ref], [], false, false;
      var i := 0;
      while i < |cands| && !done
        invariant 0 <= i <= |cands| && Table(orders)
        invariant aborted ==> done
        invariant FillFrom(Scan(State(), rest, reserves, targets, aborted, done), cands, i, order.price, port, bank.script, now) == goal
      {
        ghost var st := Scan(State(), rest, reserves, targets, false, false);
        FillStep(st, cands, i, order.price, port, bank.script, now);
        rest, reserves, targets, aborted, done := ScanStep(cands[i], IdsOf(cands), order.price, now, rest, reserves, targets);
        assert Scan(State(), rest, reserves, targets, aborted, done) == Next(st, cands[i], IdsOf(cands), order.price, port, bank.script, now);
        i := i + 1;
      }
      FillDone(Scan(State(), rest, reserves, targets, aborted, done), cands, i, order.price, port, bank.script, now);
    }

    /**
     * tryTrade: lock and reserve the aggressor, scan the counter orders,
     * then either settle one trade or cancel every reservation made.
     */
    method TryTrade(id: int, now: int) returns (out: Outcome)
      requires Table(orders)
      modifies this, bank
      ensures (State(), out) == Matching.TryTrade(old(State()), id, port, bank.script, now)
    {
      var found := Lookup(orders, id);
      if found.None? {
        return Failure;
      }
      var order := found.value;
      if !IsOpen(order) {
        return AlreadyClosed;
      }
      var reserved := ReserveOrder(order, order.price, true, now);
      if !reserved.Reserved? {
        out := if reserved.Refused? then CreditShort else Failure;
        if port == Php {
          out := Release([Rid(0)], out);
        }
        return;
      }
      out := MatchOrder(order, reserved.ref, now);
    }

    /** The part of tryTrade after the aggressor's own reservation `ref` went through. */
    method MatchOrder(order: Order, ref: Ref, now: int) returns (out: Outcome)
      requires Table(orders)
      modifies this, bank
      ensures (State(), out) == Matching.Match(old(State()), order, ref, port, bank.script, now)
    {
      if order.kind.OtherKind? && port == Ruby {
        out := Release([ref], Failure);
        return;
      }
      var cands := CounterOrders(orders, order, port);
      if cands == [] && port != Node {
        out := Release([ref], NoOrder);
        return;
      }
      if cands != [] && port == Node {
        // mapping the rows into orders throws before the loop
        out := Release([ref], Failure);
        return;
      }
      var rest, reserves, targets, aborted := ScanCounters(order, ref, cands, now);
      if aborted {
        out := Release(reserves, Failure);
      } else if rest > 0 {
        out := Release(reserves, NoOrder);
      } else {
        out := CommitReservedOrder(order, targets, reserves, now);
      }
    }

    // -------------------------------------------------------------------
    // RunTrade

    /** One tryTrade in its own transaction: a failure rolls the tables back. */
    method Attempt(id: int, now: int) returns (out: Outcome)
      requires Table(orders)
      modifies this, bank
      ensures (State(), out) == Matching.Attempt(old(State()), id, port, bank.script, now)
    {
      var savedOrders, savedTrades := orders, trades;
      out := TryTrade(id, now);
      if !Commits(out) {
        orders, trades := savedOrders, savedTrades;
      }
    }

    /**
     * RunTrade: while the book crosses, try the larger of the two best
     * orders first; a trade starts over, no counter order or a closed
     * order moves on to the other candidate, anything else stops.
     */
    method RunTrade(now: int) returns (res: RunResult)
      requires Table(orders)
      modifies this, bank
      ensures (State(), res) == Matching.RunTrade(old(State()), port, bank.script, now)
      decreases OpenCount(orders)
    {
      var lowest := LowestSell(orders, port);
      var highest := HighestBuy(orders, port);
      if lowest.None? || highest.None? || lowest.value.price > highest.value.price {
        return Done;
      }
      var cands := Candidates(lowest.value, highest.value);
      ghost var start := OpenCount(orders);
      ghost var goal := RunCandidates(State(), cands, 0, port, bank.script, now);
      var i := 0;
      while i < |cands|
        invariant 0 <= i <= |cands| && Table(orders)
        invariant OpenCount(orders) <= start
        invariant RunCandidates(State(), cands, i, port, bank.script, now) == goal
      {
        ghost var w := State();
        var t := Attempt(cands[i], now);
        AttemptShrinks(w, cands[i], port, bank.script, now);
        if t == Traded {
          ghost var w1 := State();
          var n := RunTrade(now);
          if (port == Php || port == Node) && n == Done {
            EvolvesTable(w1.orders, orders);
            EvolvesCount(w1.orders, orders);
            i := i + 1;
          } else {
            return n;
          }
        } else if t == NoOrder || t == AlreadyClosed {
          i := i + 1;
        } else {
          return Stopped(t);
        }
      }
      res := Done;
    }

    // -------------------------------------------------------------------
    // The order routes

    /**
     * The body of POST /orders once amount and price are integers: place
     * the order in its own transaction, answer 400 or 500 when that fails,
     * and otherwise run the matching when the new order has a trade chance,
     * whose failure is not reported: the answer is 200 with the new id.
     */
    method PlaceOrder(userId: nat, kind: Kind, amount: int, price: int, now: int) returns (status: int, id: int)
      requires Table(orders)
      modifies this, bank
      ensures Placement(Matching.AddOrder(old(State()), port, kind, userId, amount, price, bank.script, now),
                        port, bank.script, now, status, id, State())
    {
      ghost var w0 := State();
      var savedOrders, savedTrades := orders, trades;
      var r := AddOrder(kind, userId, amount, price, now);
      AddOrderSpec(w0, port, kind, userId, amount, price, bank.script, now);
      if r.Err? {
        orders, trades := savedOrders, savedTrades;
        return AddStatus(r.error), 0;
      }
      id := r.value.id;
      assert Table(orders) by {
        forall i | 0 <= i < |orders| ensures orders[i].id == i + 1 {
          if i < |savedOrders| { assert orders[i] == savedOrders[i]; }
        }
      }
      var chance := TradeChance(orders, id, port);
      if chance.Err? {
        return 500, id;
      }
      if chance.value {
        var _ := RunTrade(now);
      }
      status := 200;
    }

    /**
     * handler.go AddOrders: amount and then price must be int64 form values
     * greater than 0, otherwise 400 and nothing happens; then the order is
     * placed as PlaceOrder says.
     */
    method PostOrders(userId: nat, typeText: string, amountText: string, priceText: string, now: int)
      returns (status: int, id: int)
      requires port == GoHandler && Table(orders)
      modifies this, bank
      ensures var amount := FormInt(amountText);
        var price := FormInt(priceText);
        (amount.None? || amount.value <= 0 || price.None? || price.value <= 0 ==>
           status == 400 && State() == old(State())) &&
        (amount.Some? && amount.value > 0 && price.Some? && price.value > 0 ==>
           Placement(Matching.AddOrder(old(State()), port, KindOf(typeText), userId, amount.value, price.value, bank.script, now),
                     port, bank.script, now, status, id, State()) &&
           (Matching.AddOrder(old(State()), port, KindOf(typeText), userId, amount.value, price.value, bank.script, now).1.Ok? ==>
              status != 400 && id == |old(orders)| + 1))
    {
      var amount := FormInt(amountText);
      if amount.None? || amount.value <= 0 {
        return 400, 0;
      }
      var price := FormInt(priceText);
      if price.None? || price.value <= 0 {
        return 400, 0;
      }
      ghost var w0 := State();
      AddOrderSpec(w0, port, KindOf(typeText), userId, amount.value, price.value, bank.script, now);
      status, id := PlaceOrder(userId, KindOf(typeText), amount.value, price.value, now);
    }

    /**
     * handler.go DeleteOrders: the id path parameter must be an int64
     * (otherwise 400 and nothing happens); then the order is cancelled with
     * reason "canceled" and the id echoed, or the failure answered with its
     * status.
     */
    method DeleteOrders(userId: nat, idText: string, now: int) returns (status: int, id: int)
      requires Table(orders)
      modifies this
      ensures idText == "" || !ParseInt(idText).Parsed? ==> status == 400 && State() == old(State())
      ensures ParseInt(idText).Parsed? ==>
        var r := Matching.DeleteOrder(old(State()), port, userId, ParseInt(idText).value, Canceled, now);
        State() == r.0 &&
        (r.1.Ok? ==> status == 200 && id == ParseInt(idText).value) &&
        (r.1.Err? ==> status == DeleteStatus(r.1.error))
    {
      if idText == "" {
        return 400, 0;
      }
      var parsed := ParseInt(idText);
      if !parsed.Parsed? {
        return 400, 0;
      }
      id := parsed.value;
      var r := DeleteOrder(userId, id, Canceled, now);
      status := if r.Ok? then 200 else DeleteStatus(r.error);
    }
  }
}
