// The matching engine of the exchange as a function of the whole state it
// touches: the `orders` and `trade` tables, the log events sent to the
// logger and the requests sent to the bank. Each operation maps a World to
// the next World; the bank's answers come from an arbitrary `script` and the
// clock is the parameter `now`, so every theorem holds for every bank
// behaviour and every time.
module Matching {
  import opened Common
  import opened Book
  import opened Ledger

  /** Why an order was deleted: by its owner, or because its credit could not be reserved. */
  datatype Reason = Canceled | ReserveFailed

  function ReasonText(r: Reason): string
  {
    if r == Canceled then "canceled" else "reserve_failed"
  }

  /**
   * The log events the exchange sends to the logger. An event names the
   * order side it is about; its tag is derived by `Tag`. An error event
   * carries the refused bank reply, whose text is `ErrorText`.
   */
  datatype Event =
    | OrderLog(kind: Kind, orderId: nat, userId: nat, amount: int, price: int)
    | ErrorLog(kind: Kind, error: Reply, userId: nat, amount: int, price: int)
    | DeleteLog(kind: Kind, deletedId: int, owner: Option<nat>, reason: Reason)
    | TradeLog(tradeId: nat, amount: int, price: int)
    | OrderTradeLog(kind: Kind, orderId: nat, userId: nat, amount: int, price: int, tradeId: nat)

  /** `<type>.order`, `<type>.error`, `<type>.delete`, `trade`, `<type>.trade`. */
  function Tag(e: Event): string
  {
    match e
    case OrderLog(k, _, _, _, _) => KindName(k) + ".order"
    case ErrorLog(k, _, _, _, _) => KindName(k) + ".error"
    case DeleteLog(k, _, _, _) => KindName(k) + ".delete"
    case TradeLog(_, _, _) => "trade"
    case OrderTradeLog(k, _, _, _, _, _) => KindName(k) + ".trade"
  }

  datatype World = World(orders: seq<Order>, trades: seq<Trade>, events: seq<Event>, sent: seq<Request>)

  // ---------------------------------------------------------------------
  // How rows change

  /**
   * `UPDATE orders SET closed_at = now WHERE id = ?`; on an auto-increment
   * table the row with that id is the one at index id - 1.
   */
  function SetClosed(rows: seq<Order>, id: int, now: int): seq<Order>
  {
    if 1 <= id <= |rows| then rows[id - 1 := rows[id - 1].(closedAt := Some(now))] else rows
  }

  /** `UPDATE orders SET trade_id = ?, closed_at = now WHERE id = ?` */
  function SetTraded(rows: seq<Order>, id: int, tradeId: nat, now: int): seq<Order>
  {
    if 1 <= id <= |rows| then rows[id - 1 := rows[id - 1].(closedAt := Some(now), tradeId := tradeId)] else rows
  }

  /**
   * The only change a row ever sees: an open order is closed, keeping its
   * id, side, owner, amount, price and creation time. A closed row never
   * changes again.
   */
  predicate Step(x: Order, y: Order)
  {
    y == x ||
    (IsOpen(x) && !IsOpen(y) && y.id == x.id && y.kind == x.kind && y.userId == x.userId &&
     y.amount == x.amount && y.price == x.price && y.createdAt == x.createdAt)
  }

  /** The table `b` is a later state of the table `a`, row by row. */
  predicate Evolves(a: seq<Order>, b: seq<Order>)
  {
    |a| == |b| && forall i :: 0 <= i < |a| ==> Step(a[i], b[i])
  }

  lemma EvolvesTransitive(a: seq<Order>, b: seq<Order>, c: seq<Order>)
    requires Evolves(a, b) && Evolves(b, c)
    ensures Evolves(a, c)
  {
  }

  lemma EvolvesTable(a: seq<Order>, b: seq<Order>)
    requires Table(a) && Evolves(a, b)
    ensures Table(b)
  {
  }

  /** The row with this id exists in `rows` and is open. */
  predicate OpenIn(rows: seq<Order>, id: int)
  {
    1 <= id <= |rows| && IsOpen(rows[id - 1])
  }

  /** The number of open orders in the table. */
  function OpenCount(rows: seq<Order>): nat
  {
    if rows == [] then 0
    else OpenCount(rows[..|rows| - 1]) + (if IsOpen(rows[|rows| - 1]) then 1 else 0)
  }

  /**
   * Rows only ever close, so the number of open orders never grows, and it
   * shrinks as soon as one of them closes.
   */
  lemma {:induction false} EvolvesCount(a: seq<Order>, b: seq<Order>)
    requires Evolves(a, b)
    ensures OpenCount(b) <= OpenCount(a)
    ensures (exists i :: 0 <= i < |a| && IsOpen(a[i]) && !IsOpen(b[i])) ==> OpenCount(b) < OpenCount(a)
    decreases |a|
  {
    if a != [] {
      var n := |a| - 1;
      assert Evolves(a[..n], b[..n]);
      EvolvesCount(a[..n], b[..n]);
      if exists i :: 0 <= i < |a| && IsOpen(a[i]) && !IsOpen(b[i]) {
        var i :| 0 <= i < |a| && IsOpen(a[i]) && !IsOpen(b[i]);
        if i < n {
          assert a[..n][i] == a[i] && b[..n][i] == b[i];
        }
      }
    }
  }

  /** Closing a row that was open at the start keeps the table a later state of the start. */
  lemma SetClosedEvolves(a: seq<Order>, b: seq<Order>, id: int, now: int)
    requires Table(a) && Evolves(a, b) && OpenIn(a, id)
    ensures Evolves(a, SetClosed(b, id, now))
    ensures !IsOpen(SetClosed(b, id, now)[id - 1])
  {
  }

  lemma SetTradedEvolves(a: seq<Order>, b: seq<Order>, id: int, tradeId: nat, now: int)
    requires Table(a) && Evolves(a, b) && OpenIn(a, id)
    ensures Evolves(a, SetTraded(b, id, tradeId, now))
    ensures !IsOpen(SetTraded(b, id, tradeId, now)[id - 1])
    ensures SetTraded(b, id, tradeId, now)[id - 1].tradeId == tradeId
  {
  }

  // ---------------------------------------------------------------------
  // Placing and cancelling orders

  datatype AddError = ParameterInvalid | CreditInsufficient | BankFailure

  /** The `error` text of an error log for a refused bank call. */
  function ErrorText(a: Reply): string
  {
    match a
    case Insufficient => "credit is insufficient"
    case NoAccount => "bank_id not found"
    case _ => "isubank error"
  }

  /** Sends `req` to the bank and records it. */
  function Send(w: World, req: Request): World
  {
    w.(sent := w.sent + [req])
  }

  function Log(w: World, e: Event): World
  {
    w.(events := w.events + [e])
  }

  /** INSERT of a new open order, and its `<type>.order` log. */
  function InsertOrder(w: World, kind: Kind, userId: nat, amount: int, price: int, now: int): (World, Result<Order, AddError>)
  {
    var o := Order(|w.orders| + 1, kind, userId, amount, price, now, None, 0);
    (Log(w.(orders := w.orders + [o]), OrderLog(kind, o.id, userId, amount, price)), Ok(o))
  }

  /**
   * AddOrder: non-positive amount or price is invalid; a buy needs the bank
   * to confirm the buyer can pay amount × price (a refusal is logged as
   * `buy.error`); a sell needs nothing; any other type is invalid. The Node
   * port reports every refused check as insufficient credit.
   */
  function AddOrder(w: World, p: Port, kind: Kind, userId: nat, amount: int, price: int,
                    script: nat -> Reply, now: int): (World, Result<Order, AddError>)
  {
    if amount <= 0 || price <= 0 then (w, Err(ParameterInvalid))
    else if kind == Buy then
      var req := CheckReq(userId, price * amount);
      var a := Answer(req, script(|w.sent|));
      var w1 := Send(w, req);
      if a == Accepted then InsertOrder(w1, Buy, userId, amount, price, now)
      else (Log(w1, ErrorLog(Buy, a, userId, amount, price)),
            Err(if a == Insufficient || p == Node then CreditInsufficient else BankFailure))
    else if kind == Sell then InsertOrder(w, Sell, userId, amount, price, now)
    else (w, Err(ParameterInvalid))
  }

  /** cancelOrder: close the row and log `<type>.delete` with the reason. */
  function CancelOrder(w: World, o: Order, reason: Reason, now: int): World
  {
    Log(w.(orders := SetClosed(w.orders, o.id, now)),
        DeleteLog(o.kind, o.id, Some(o.userId), reason))
  }

  datatype DeleteError = OrderNotFound | OrderAlreadyClosed | LookupFailed

  /**
   * DeleteOrder: a missing order or one of another user is not found, a
   * closed one is already closed; otherwise it is cancelled. handler.go
   * reports a missing row as a lookup failure, logs no user id and always
   * gives the reason "canceled".
   */
  function DeleteOrder(w: World, p: Port, userId: nat, orderId: int, reason: Reason, now: int): (World, Result<Order, DeleteError>)
    requires Table(w.orders)
  {
    match Lookup(w.orders, orderId)
    case None => (w, Err(if p == GoHandler then LookupFailed else OrderNotFound))
    case Some(o) =>
      if o.userId != userId then (w, Err(OrderNotFound))
      else if !IsOpen(o) then (w, Err(OrderAlreadyClosed))
      else if p == GoHandler then
        (Log(w.(orders := SetClosed(w.orders, o.id, now)),
             DeleteLog(o.kind, orderId, None, Canceled)), Ok(o))
      else (CancelOrder(w, o, reason, now), Ok(o))
  }

  // ---------------------------------------------------------------------
  // Reserving credit for one order

  /** amount × unit price, negative for a buy: the buyer pays. */
  function ReserveAmount(o: Order, price: int): (r: int)
    ensures o.amount > 0 && price > 0 ==> (r < 0 <==> o.kind == Buy)
    ensures r == o.amount * price || r == -(o.amount * price)
  {
    if o.kind == Buy then -(o.amount * price) else o.amount * price
  }

  datatype Reservation = Reserved(ref: Ref) | Refused | Failed

  /**
   * reserveOrder. On insufficient credit the order is cancelled with reason
   * "reserve_failed" and an `<type>.error` is logged (handler.go logs the
   * delete with order id 0, no user id and no error event). The Node port
   * does not await the reservation of a counter order: the caller gets the
   * pending call itself, whatever the bank answers, and an awaited failure
   * there is never read as insufficient credit.
   */
  function ReserveOrder(w: World, o: Order, price: int, awaited: bool, p: Port,
                        script: nat -> Reply, now: int): (r: (World, Reservation))
    ensures r.0.trades == w.trades && r.0.sent == w.sent + [ReserveReq(o.userId, ReserveAmount(o, price))]
    ensures r.0.orders == w.orders || r.0.orders == SetClosed(w.orders, o.id, now)
    ensures r.1.Reserved? ==> r.0.orders == w.orders && (r.1.ref.Pending? <==> p == Node && !awaited)
    ensures p != Node || awaited ==>
      (r.1.Reserved? <==> Answer(ReserveReq(o.userId, ReserveAmount(o, price)), script(|w.sent|)) == Accepted) &&
      (r.1.Reserved? ==> r.1.ref == Rid(ReserveId(|w.sent|)))
  {
    var n := |w.sent|;
    var req := ReserveReq(o.userId, ReserveAmount(o, price));
    var a := Answer(req, script(n));
    var w1 := Send(w, req);
    if p == Node && !awaited then (w1, Reserved(Pending(n)))
    else if a == Accepted then (w1, Reserved(Rid(ReserveId(n))))
    else if a == Insufficient && p == GoHandler then
      (Log(w1.(orders := SetClosed(w1.orders, o.id, now)),
           DeleteLog(o.kind, 0, None, ReserveFailed)), Refused)
    else if a == Insufficient && p != Node then
      (Log(CancelOrder(w1, o, ReserveFailed, now),
           ErrorLog(o.kind, a, o.userId, o.amount, price)), Refused)
    else (w1, Failed)
  }

  // ---------------------------------------------------------------------
  // The counter-order scan of tryTrade

  /**
   * Where the scan stands: the state, the amount still to fill, what was
   * reserved and taken, whether a lock failure aborted it, and whether the
   * loop has ended (an abort, or the `break` once nothing is left to fill).
   */
  datatype Scan = Scan(w: World, rest: int, reserves: seq<Ref>, targets: seq<Order>, aborted: bool, done: bool)

  /** What one pass of the scan loop does with a candidate. */
  datatype Visit = Skip(w: World) | Take(w: World, ref: Ref, to: Order) | Abort(w: World)

  /**
   * One pass of the scan loop: re-read the candidate under lock (a missing
   * row aborts the scan), skip it when closed or larger than the amount
   * still to fill, otherwise reserve it at the aggressor's unit price; a
   * refused reservation skips it, a failed one aborts the scan. Only the
   * candidate's own row can change, and only by being closed at `now` (the
   * cancel of a refused reservation); a taken order is the candidate's
   * current open row, left as it was, and outside Node its reservation is
   * the one the bank just handed out.
   */
  function VisitCandidate(w: World, c: Order, rest: int, price: int, p: Port,
                          script: nat -> Reply, now: int): (v: Visit)
    requires Table(w.orders)
    ensures Table(v.w.orders) && Evolves(w.orders, v.w.orders)
    ensures v.w.trades == w.trades && w.sent <= v.w.sent
    ensures v.Take? ==> OpenIn(w.orders, c.id) && v.to == w.orders[c.id - 1] && v.to.id == c.id && v.to.amount <= rest
    ensures v.Take? ==> (v.ref.Pending? <==> p == Node)
    ensures v.Take? && p != Node ==>
      v.ref == Rid(ReserveId(|w.sent|)) && Held(script, v.w.sent) == Held(script, w.sent) + {ReserveId(|w.sent|)}
    ensures !v.Take? ==> Held(script, v.w.sent) == Held(script, w.sent)
    ensures forall j :: 0 <= j < |w.orders| ==>
      v.w.orders[j] == w.orders[j] || (j + 1 == c.id && v.w.orders[j] == w.orders[j].(closedAt := Some(now)))
    ensures v.Take? ==> v.w.orders == w.orders
  {
    match Lookup(w.orders, c.id)
    case None => Abort(w)
    case Some(to) =>
      if !IsOpen(to) || to.amount > rest then Skip(w)
      else
        var r := ReserveOrder(w, to, price, false, p, script, now);
        SetClosedEvolves(w.orders, w.orders, to.id, now);
        HeldAppend(script, w.sent, ReserveReq(to.userId, ReserveAmount(to, price)));
        match r.1
        case Reserved(ref) => Take(r.0, ref, to)
        case Refused => Skip(r.0)
        case Failed => Abort(r.0)
  }

  /**
   * A fitting open candidate whose reservation the bank refuses for
   * insufficient credit is skipped and cancelled: outside Node its row ends
   * closed at `now`, so a trade can leave closed counter orders it did not
   * take.
   */
  lemma VisitRefusedCloses(w: World, c: Order, rest: int, price: int, p: Port, script: nat -> Reply, now: int)
    requires Table(w.orders) && p != Node && OpenIn(w.orders, c.id) && w.orders[c.id - 1].amount <= rest
    requires Answer(ReserveReq(w.orders[c.id - 1].userId, ReserveAmount(w.orders[c.id - 1], price)), script(|w.sent|))
             == Insufficient
    ensures var v := VisitCandidate(w, c, rest, price, p, script, now);
      v.Skip? && v.w.orders == SetClosed(w.orders, c.id, now) && !IsOpen(v.w.orders[c.id - 1])
  {
  }

  /** The ids of the scanned candidates. */
  function IdsOf(cands: seq<Order>): set<int>
  {
    set c | c in cands :: c.id
  }

  /** The amount of a list of orders. */
  function Total(ts: seq<Order>): int
  {
    if ts == [] then 0 else Total(ts[..|ts| - 1]) + ts[|ts| - 1].amount
  }

  lemma TotalAppend(ts: seq<Order>, t: Order)
    ensures Total(ts + [t]) == Total(ts) + t.amount
  {
    assert (ts + [t])[..|ts|] == ts;
  }

  // What the scan keeps from one of its states to a later one.

  /** Rows only close, the trade table stays, bank requests and the scan's lists only grow. */
  predicate RowsLater(a: Scan, b: Scan)
  {
    Table(b.w.orders) && Evolves(a.w.orders, b.w.orders) &&
    b.w.trades == a.w.trades && a.w.sent <= b.w.sent &&
    a.targets <= b.targets && a.reserves <= b.reserves
  }

  /** Every newly taken order was an open row, as it stood, of one of the candidates `ids`. */
  predicate TakenLater(a: Scan, b: Scan, ids: set<int>)
  {
    forall t :: t in b.targets ==>
      t in a.targets || (OpenIn(a.w.orders, t.id) && t == a.w.orders[t.id - 1] && t.id in ids)
  }

  /** What was taken plus what is left is constant, and the remainder stays non-negative. */
  predicate AmountsLater(a: Scan, b: Scan)
  {
    b.rest + Total(b.targets) == a.rest + Total(a.targets) && (a.rest >= 0 ==> b.rest >= 0)
  }

  /**
   * One reservation per taken order: a pending call in Node, otherwise a
   * fresh id that the bank holds.
   */
  predicate RefsLater(a: Scan, b: Scan, p: Port, script: nat -> Reply)
    requires a.reserves <= b.reserves
  {
    |b.reserves| - |a.reserves| == |b.targets| - |a.targets| &&
    (forall k :: |a.reserves| <= k < |b.reserves| ==> (b.reserves[k].Pending? <==> p == Node)) &&
    (p != Node ==>
      (forall k :: |a.reserves| <= k < |b.reserves| ==> b.reserves[k].Rid? && b.reserves[k].id > |a.w.sent|) &&
      Held(script, b.w.sent) == Held(script, a.w.sent) + RidsOf(b.reserves[|a.reserves|..]))
  }

  predicate Later(a: Scan, b: Scan, ids: set<int>, p: Port, script: nat -> Reply)
  {
    RowsLater(a, b) && TakenLater(a, b, ids) && AmountsLater(a, b) && RefsLater(a, b, p, script)
  }

  lemma LaterReflexive(a: Scan, ids: set<int>, p: Port, script: nat -> Reply)
    requires Table(a.w.orders)
    ensures Later(a, a, ids, p, script)
  {
    assert a.reserves[|a.reserves|..] == [];
  }

  lemma TakenTransitive(a: Scan, b: Scan, c: Scan, ids: set<int>)
    requires RowsLater(a, b) && TakenLater(a, b, ids) && TakenLater(b, c, ids)
    ensures TakenLater(a, c, ids)
  {
    forall t | t in c.targets && t !in a.targets
      ensures OpenIn(a.w.orders, t.id) && t == a.w.orders[t.id - 1] && t.id in ids
    {
      if t !in b.targets {
        assert Step(a.w.orders[t.id - 1], b.w.orders[t.id - 1]);
      }
    }
  }

  lemma RidsOfSplit(xs: seq<Ref>, j: nat)
    requires j <= |xs|
    ensures RidsOf(xs) == RidsOf(xs[..j]) + RidsOf(xs[j..])
  {
    forall x | x in xs ensures x in xs[..j] || x in xs[j..] {
      var k :| 0 <= k < |xs| && xs[k] == x;
      if k < j { assert xs[..j][k] == x; } else { assert xs[j..][k - j] == x; }
    }
  }

  lemma RefsTransitive(a: Scan, b: Scan, c: Scan, p: Port, script: nat -> Reply)
    requires RowsLater(a, b) && RowsLater(b, c)
    requires RefsLater(a, b, p, script) && RefsLater(b, c, p, script)
    ensures a.reserves <= c.reserves && RefsLater(a, c, p, script)
  {
    var i, j := |a.reserves|, |b.reserves|;
    assert c.reserves[..j] == b.reserves;
    assert c.reserves[..i] == b.reserves[..i] == a.reserves;
    forall k | i <= k < |c.reserves|
      ensures (c.reserves[k].Pending? <==> p == Node)
      ensures p != Node ==> c.reserves[k].Rid? && c.reserves[k].id > |a.w.sent|
    {
      if k < j {
        assert c.reserves[k] == b.reserves[k];
      }
    }
    if p != Node {
      RidsOfJoin(a.reserves, b.reserves, c.reserves);
    }
  }

  /** The references added from a to c are those added from a to b and from b to c. */
  lemma RidsOfJoin(a: seq<Ref>, b: seq<Ref>, c: seq<Ref>)
    requires a <= b <= c
    ensures RidsOf(c[|a|..]) == RidsOf(b[|a|..]) + RidsOf(c[|b|..])
  {
    RidsOfSplit(c[|a|..], |b| - |a|);
    assert c[|a|..][..|b| - |a|] == b[|a|..];
    assert c[|a|..][|b| - |a|..] == c[|b|..];
  }

  lemma LaterTransitive(a: Scan, b: Scan, c: Scan, ids: set<int>, p: Port, script: nat -> Reply)
    requires Later(a, b, ids, p, script) && Later(b, c, ids, p, script)
    ensures Later(a, c, ids, p, script)
  {
    EvolvesTransitive(a.w.orders, b.w.orders, c.w.orders);
    TakenTransitive(a, b, c, ids);
    RefsTransitive(a, b, c, p, script);
  }

  /**
   * One pass of the scan loop over the candidate c: a taken order is
   * subtracted from the remainder, its reservation and itself are
   * appended, and the loop ends when nothing is left; an abort ends it too.
   */
  function Next(st: Scan, c: Order, ids: set<int>, price: int, p: Port, script: nat -> Reply, now: int): (n: Scan)
    requires Table(st.w.orders) && c.id in ids
    ensures Later(st, n, ids, p, script)
    ensures forall j :: 0 <= j < |st.w.orders| ==>
      n.w.orders[j] == st.w.orders[j] || (j + 1 == c.id && n.w.orders[j] == st.w.orders[j].(closedAt := Some(now)))
    ensures n.targets == st.targets || (1 <= c.id <= |st.w.orders| && n.targets == st.targets + [st.w.orders[c.id - 1]])
  {
    var v := VisitCandidate(st.w, c, st.rest, price, p, script, now);
    match v
    case Abort(w1) =>
      var n := st.(w := w1, aborted := true, done := true);
      KeepLater(st, n, ids, p, script);
      n
    case Skip(w1) =>
      var n := st.(w := w1);
      KeepLater(st, n, ids, p, script);
      n
    case Take(w1, ref, to) =>
      var n := Scan(w1, st.rest - to.amount, st.reserves + [ref], st.targets + [to], false, st.rest - to.amount == 0);
      TakeLater(st, n, to, ref, ids, p, script);
      n
  }

  /** A pass that takes nothing. */
  lemma KeepLater(st: Scan, n: Scan, ids: set<int>, p: Port, script: nat -> Reply)
    requires Table(n.w.orders) && Evolves(st.w.orders, n.w.orders)
    requires n.w.trades == st.w.trades && st.w.sent <= n.w.sent
    requires n.rest == st.rest && n.reserves == st.reserves && n.targets == st.targets
    requires Held(script, n.w.sent) == Held(script, st.w.sent)
    ensures Later(st, n, ids, p, script)
  {
    assert n.reserves[|st.reserves|..] == [];
  }

  /** A pass that takes the order `to` with the reservation `ref`. */
  lemma TakeLater(st: Scan, n: Scan, to: Order, ref: Ref, ids: set<int>, p: Port, script: nat -> Reply)
    requires Table(n.w.orders) && Evolves(st.w.orders, n.w.orders)
    requires n.w.trades == st.w.trades && st.w.sent <= n.w.sent
    requires OpenIn(st.w.orders, to.id) && to == st.w.orders[to.id - 1] && to.id in ids && to.amount <= st.rest
    requires ref.Pending? <==> p == Node
    requires p != Node ==>
      ref == Rid(ReserveId(|st.w.sent|)) && Held(script, n.w.sent) == Held(script, st.w.sent) + {ReserveId(|st.w.sent|)}
    requires n.rest == st.rest - to.amount && n.reserves == st.reserves + [ref] && n.targets == st.targets + [to]
    ensures Later(st, n, ids, p, script)
  {
    TotalAppend(st.targets, to);
    assert n.reserves[|st.reserves|..] == [ref];
  }

  /**
   * The scan loop from candidate i on, over the candidates `cands`; it ends
   * after the last candidate or when a pass ends it.
   */
  function FillFrom(st: Scan, cands: seq<Order>, i: nat, price: int, p: Port, script: nat -> Reply, now: int): Scan
    requires Table(st.w.orders)
    decreases |cands| - i
  {
    if i >= |cands| || st.done then st
    else
      assert cands[i].id in IdsOf(cands);
      FillFrom(Next(st, cands[i], IdsOf(cands), price, p, script, now), cands, i + 1, price, p, script, now)
  }

  /** Each pass is a later state of the one before, so the scan's end is one of its start. */
  lemma {:induction false} FillFromLater(st: Scan, cands: seq<Order>, i: nat, price: int, p: Port,
                                         script: nat -> Reply, now: int)
    requires Table(st.w.orders)
    ensures Later(st, FillFrom(st, cands, i, price, p, script, now), IdsOf(cands), p, script)
    decreases |cands| - i
  {
    if i >= |cands| || st.done {
      LaterReflexive(st, IdsOf(cands), p, script);
    } else {
      assert cands[i].id in IdsOf(cands);
      var n := Next(st, cands[i], IdsOf(cands), price, p, script, now);
      FillFromLater(n, cands, i + 1, price, p, script, now);
      LaterTransitive(st, n, FillFrom(n, cands, i + 1, price, p, script, now), IdsOf(cands), p, script);
    }
  }

  /** Each row of `b` is the row of `a`, or, for one of the ids `ids`, that row closed at `now`. */
  predicate ClosedOnly(a: seq<Order>, b: seq<Order>, ids: set<int>, now: int)
  {
    |b| == |a| &&
    forall j :: 0 <= j < |a| ==> b[j] == a[j] || (j + 1 in ids && b[j] == a[j].(closedAt := Some(now)))
  }

  /**
   * From the table `w0` the scan changes only candidates' rows, each by
   * closing it at `now`, and it never takes the same order twice: a taken
   * order is the current candidate, and no candidate still to come has the
   * id of one already taken.
   */
  lemma {:induction false} FillFromKeeps(w0: World, st: Scan, cands: seq<Order>, i: nat, price: int, p: Port,
                                         script: nat -> Reply, now: int)
    requires Table(st.w.orders) && DistinctIds(cands)
    requires ClosedOnly(w0.orders, st.w.orders, IdsOf(cands), now) && DistinctIds(st.targets)
    requires forall t, k :: t in st.targets && i <= k < |cands| ==> t.id != cands[k].id
    ensures var s := FillFrom(st, cands, i, price, p, script, now);
      ClosedOnly(w0.orders, s.w.orders, IdsOf(cands), now) && DistinctIds(s.targets)
    decreases |cands| - i
  {
    if i < |cands| && !st.done {
      NextKeeps(w0, st, cands, i, price, p, script, now);
      FillFromKeeps(w0, Next(st, cands[i], IdsOf(cands), price, p, script, now), cands, i + 1, price, p, script, now);
    }
  }

  /** One pass of the scan keeps what FillFromKeeps asks of the scan state. */
  lemma NextKeeps(w0: World, st: Scan, cands: seq<Order>, i: nat, price: int, p: Port,
                  script: nat -> Reply, now: int)
    requires Table(st.w.orders) && DistinctIds(cands) && i < |cands|
    requires ClosedOnly(w0.orders, st.w.orders, IdsOf(cands), now) && DistinctIds(st.targets)
    requires forall t, k :: t in st.targets && i <= k < |cands| ==> t.id != cands[k].id
    ensures cands[i].id in IdsOf(cands)
    ensures var n := Next(st, cands[i], IdsOf(cands), price, p, script, now);
      Table(n.w.orders) && ClosedOnly(w0.orders, n.w.orders, IdsOf(cands), now) && DistinctIds(n.targets) &&
      forall t, k :: t in n.targets && i + 1 <= k < |cands| ==> t.id != cands[k].id
  {
    var c := cands[i];
    assert c in cands;
    var n := Next(st, c, IdsOf(cands), price, p, script, now);
    ClosedOnlyStep(w0.orders, st.w.orders, n.w.orders, c, IdsOf(cands), now);
    if n.targets != st.targets {
      TakenOnce(st.targets, st.w.orders[c.id - 1], cands, i);
    }
  }

  /** A pass that may close the candidate c keeps ClosedOnly. */
  lemma ClosedOnlyStep(a: seq<Order>, b: seq<Order>, b2: seq<Order>, c: Order, ids: set<int>, now: int)
    requires ClosedOnly(a, b, ids, now) && c.id in ids && |b2| == |b|
    requires forall j :: 0 <= j < |b| ==> b2[j] == b[j] || (j + 1 == c.id && b2[j] == b[j].(closedAt := Some(now)))
    ensures ClosedOnly(a, b2, ids, now)
  {
  }

  /** Taking the candidate `cands[i]` keeps the taken orders' ids distinct from each other and from those to come. */
  lemma TakenOnce(ts: seq<Order>, to: Order, cands: seq<Order>, i: nat)
    requires DistinctIds(cands) && i < |cands| && to.id == cands[i].id && DistinctIds(ts)
    requires forall t, k :: t in ts && i <= k < |cands| ==> t.id != cands[k].id
    ensures DistinctIds(ts + [to])
    ensures forall t, k :: t in ts + [to] && i + 1 <= k < |cands| ==> t.id != cands[k].id
  {
    var n := ts + [to];
    forall a, b | 0 <= a < b < |n| ensures n[a].id != n[b].id {
      if b == |ts| {
        assert n[a] in ts;
      }
    }
  }

  /** One pass of the scan loop, unfolded. */
  lemma FillStep(st: Scan, cands: seq<Order>, i: nat, price: int, p: Port, script: nat -> Reply, now: int)
    requires Table(st.w.orders) && i < |cands| && !st.done
    ensures cands[i].id in IdsOf(cands)
    ensures FillFrom(st, cands, i, price, p, script, now) ==
            FillFrom(Next(st, cands[i], IdsOf(cands), price, p, script, now), cands, i + 1, price, p, script, now)
  {
    assert cands[i].id in IdsOf(cands);
  }

  /** The state the scan starts from: the aggressor's amount to fill and its own reservation. */
  function Start(w: World, order: Order, ref: Ref): Scan
  {
    Scan(w, order.amount, [ref], [], false, false)
  }

  /** The whole scan for `order`, whose own reservation is `ref`. */
  function Fill(w: World, order: Order, ref: Ref, p: Port, script: nat -> Reply, now: int): (s: Scan)
    requires Table(w.orders)
    ensures Later(Start(w, order, ref), s, IdsOf(CounterOrders(w.orders, order, p)), p, script)
  {
    FillFromLater(Start(w, order, ref), CounterOrders(w.orders, order, p), 0, order.price, p, script, now);
    FillFrom(Start(w, order, ref), CounterOrders(w.orders, order, p), 0, order.price, p, script, now)
  }

  /**
   * The whole scan takes each order at most once, and leaves every row as
   * it was except counter orders of `order` that it closed at `now`.
   */
  lemma FillKeeps(w: World, order: Order, ref: Ref, p: Port, script: nat -> Reply, now: int)
    requires Table(w.orders)
    ensures var s := Fill(w, order, ref, p, script, now);
      DistinctIds(s.targets) && KeptBut(w.orders, s.w.orders, {}, order, p, now)
  {
    var cands := CounterOrders(w.orders, order, p);
    CounterOrdersDistinct(w.orders, order, p);
    FillFromKeeps(w, Start(w, order, ref), cands, 0, order.price, p, script, now);
    CounterOrdersRows(w.orders, order, p);
    ClosedOnlyKept(w.orders, Fill(w, order, ref, p, script, now).w.orders, cands, order, p, now);
  }

  /** The scan's candidates are rows of the table that its filter keeps. */
  lemma CounterOrdersRows(rows: seq<Order>, order: Order, p: Port)
    ensures forall c :: c in CounterOrders(rows, order, p) ==> c in rows && CounterFilter(order, p)(c)
  {
    RankedQuery(ScanOrdering(p, order.kind), rows, CounterFilter(order, p));
  }

  /** Rows closed only for candidates of the scan are rows kept but for closed counter orders. */
  lemma ClosedOnlyKept(rows: seq<Order>, b: seq<Order>, cands: seq<Order>, order: Order, p: Port, now: int)
    requires Table(rows) && ClosedOnly(rows, b, IdsOf(cands), now)
    requires forall c :: c in cands ==> c in rows && CounterFilter(order, p)(c)
    ensures KeptBut(rows, b, {}, order, p, now)
  {
    forall j | 0 <= j < |rows| && b[j] != rows[j]
      ensures CounterFilter(order, p)(rows[j]) && b[j] == rows[j].(closedAt := Some(now))
    {
      var c :| c in cands && c.id == j + 1;
      TableRow(rows, c);
    }
  }

  /** The whole scan is the scan from its start over the counter orders. */
  lemma FillIsFrom(w: World, order: Order, ref: Ref, p: Port, script: nat -> Reply, now: int)
    requires Table(w.orders)
    ensures Fill(w, order, ref, p, script, now) ==
            FillFrom(Start(w, order, ref), CounterOrders(w.orders, order, p), 0, order.price, p, script, now)
  {
  }

  /** A scan that is done, or out of candidates, stays where it is. */
  lemma FillDone(st: Scan, cands: seq<Order>, i: nat, price: int, p: Port, script: nat -> Reply, now: int)
    requires Table(st.w.orders) && (i >= |cands| || st.done)
    ensures FillFrom(st, cands, i, price, p, script, now) == st
  {
  }

  // ---------------------------------------------------------------------
  // Settling and releasing

  /**
   * Outside the rows whose ids are in `skip`, each row of `b` is the row of
   * `a`, or an open counter order of `order` (as `p`'s scan selects them)
   * closed at `now` without a trade: one whose reservation was refused.
   */
  predicate KeptBut(a: seq<Order>, b: seq<Order>, skip: set<int>, order: Order, p: Port, now: int)
  {
    |b| == |a| &&
    forall j :: 0 <= j < |a| && j + 1 !in skip ==>
      b[j] == a[j] || (CounterFilter(order, p)(a[j]) && b[j] == a[j].(closedAt := Some(now)))
  }

  /** The result of one tryTrade: it traded, or the error it returned. */
  datatype Outcome = Traded | NoOrder | AlreadyClosed | CreditShort | Failure

  /**
   * The deferred cancel of the reservations of an attempt that did not
   * commit. Ruby and Node raise when the cancel fails, which replaces the
   * attempt's own outcome.
   */
  function Release(w: World, reserves: seq<Ref>, p: Port, script: nat -> Reply, outcome: Outcome): (World, Outcome)
  {
    if reserves == [] then (w, outcome)
    else
      var req := CancelReq(reserves);
      var a := Answer(req, script(|w.sent|));
      (Send(w, req), if a != Accepted && (p == Ruby || p == Node) then Failure else outcome)
  }

  /** The order rows of a trade closed one by one, each with its `<type>.trade` log. */
  function CloseTraded(w: World, closing: seq<Order>, price: int, tradeId: nat, now: int): World
    decreases |closing|
  {
    if closing == [] then w
    else
      var o := closing[0];
      CloseTraded(Log(w.(orders := SetTraded(w.orders, o.id, tradeId, now)),
                      OrderTradeLog(o.kind, o.id, o.userId, o.amount, price, tradeId)),
                  closing[1..], price, tradeId, now)
  }

  /**
   * commitReservedOrder: insert the trade, close the counter orders and the
   * aggressor with its id, then commit every reservation; a refused commit
   * leaves the reservations to the deferred cancel.
   */
  function Settle(w: World, order: Order, targets: seq<Order>, reserves: seq<Ref>, p: Port,
                  script: nat -> Reply, now: int): (World, Outcome)
  {
    var tid := |w.trades| + 1;
    var w1 := Log(w.(trades := w.trades + [Trade(tid, order.amount, order.price, now)]),
                  TradeLog(tid, order.amount, order.price));
    var w2 := CloseTraded(w1, targets + [order], order.price, tid, now);
    var req := CommitReq(reserves);
    var a := Answer(req, script(|w2.sent|));
    if a == Accepted then (Send(w2, req), Traded)
    else Release(Send(w2, req), reserves, p, script, Failure)
  }

  /**
   * The rest of tryTrade once the aggressor's own reservation `ref` went
   * through. Ruby fails on an aggressor of another type; an empty scan means
   * no counter order (Node goes on with the empty scan); Node fails on any
   * non-empty scan, since it builds each candidate by spreading the row
   * object the query returns into the Order constructor, which throws
   * before the loop starts; then the scan, and the trade is settled only
   * when the whole amount was reserved.
   */
  function Match(w: World, order: Order, ref: Ref, p: Port, script: nat -> Reply, now: int): (World, Outcome)
    requires Table(w.orders)
  {
    if order.kind.OtherKind? && p == Ruby then Release(w, [ref], p, script, Failure)
    else if CounterOrders(w.orders, order, p) == [] && p != Node then Release(w, [ref], p, script, NoOrder)
    else if CounterOrders(w.orders, order, p) != [] && p == Node then Release(w, [ref], p, script, Failure)
    else Conclude(Fill(w, order, ref, p, script, now), order, p, script, now)
  }

  /**
   * After the scan: an aborted scan fails, an amount left over means no
   * counter order, and a complete fill is settled; the first two cancel what
   * the scan reserved.
   */
  function Conclude(s: Scan, order: Order, p: Port, script: nat -> Reply, now: int): (World, Outcome)
  {
    if s.aborted then Release(s.w, s.reserves, p, script, Failure)
    else if s.rest > 0 then Release(s.w, s.reserves, p, script, NoOrder)
    else Settle(s.w, order, s.targets, s.reserves, p, script, now)
  }

  /**
   * tryTrade for the order `id`: a missing order fails, a closed one is
   * already closed, and the aggressor's refused or failed reservation ends
   * the attempt with nothing to cancel (PHP cancels the placeholder id 0).
   */
  function TryTrade(w: World, id: int, p: Port, script: nat -> Reply, now: int): (World, Outcome)
    requires Table(w.orders)
  {
    match Lookup(w.orders, id)
    case None => (w, Failure)
    case Some(order) =>
      if !IsOpen(order) then (w, AlreadyClosed)
      else Aggress(w, order, p, script, now)
  }

  /**
   * tryTrade once the aggressor is found open: reserve its amount at its own
   * price, then match it.
   */
  function Aggress(w: World, order: Order, p: Port, script: nat -> Reply, now: int): (World, Outcome)
    requires Table(w.orders)
  {
    var r := ReserveOrder(w, order, order.price, true, p, script, now);
    match r.1
    case Refused => if p == Php then Release(r.0, [Rid(0)], p, script, CreditShort) else (r.0, CreditShort)
    case Failed => if p == Php then Release(r.0, [Rid(0)], p, script, Failure) else (r.0, Failure)
    case Reserved(ref) => Match(r.0, order, ref, p, script, now)
  }

  // ---------------------------------------------------------------------
  // runTrade

  datatype RunResult = Done | Stopped(outcome: Outcome)

  /** The outcomes that end runTrade: every error but "no order for trade" and "already closed". */
  predicate Halts(o: Outcome)
  {
    o.CreditShort? || o.Failure?
  }

  /** The attempts whose transaction is committed; the others are rolled back. */
  predicate Commits(o: Outcome)
  {
    o != Failure
  }

  /** A rolled-back transaction undoes the table writes; logs and bank calls stay. */
  function Rollback(before: World, after: World): World
  {
    after.(orders := before.orders, trades := before.trades)
  }

  /** The larger of the two best orders is tried first. */
  function Candidates(lowest: Order, highest: Order): seq<int>
  {
    if lowest.amount > highest.amount then [lowest.id, highest.id] else [highest.id, lowest.id]
  }

  /**
   * runTrade: while the cheapest sell does not exceed the dearest buy, try
   * the candidates; a trade starts over, no counter order or a closed order
   * moves on to the next candidate, anything else stops.
   */
  function RunTrade(w: World, p: Port, script: nat -> Reply, now: int): (r: (World, RunResult))
    requires Table(w.orders)
    ensures Evolves(w.orders, r.0.orders)
    ensures w.trades <= r.0.trades && w.sent <= r.0.sent
    ensures r.1.Stopped? ==> Halts(r.1.outcome)
    decreases OpenCount(w.orders), 1, 0
  {
    match (LowestSell(w.orders, p), HighestBuy(w.orders, p))
    case (Some(lowest), Some(highest)) =>
      if lowest.price > highest.price then (w, Done)
      else RunCandidates(w, Candidates(lowest, highest), 0, p, script, now)
    case _ => (w, Done)
  }

  /**
   * The candidate loop of runTrade from candidate i on. After a trade PHP
   * and Node run the next round inside the loop and go on with the next
   * candidate when that round ends normally; the other ports return it.
   */
  function RunCandidates(w: World, cands: seq<int>, i: nat, p: Port, script: nat -> Reply, now: int): (r: (World, RunResult))
    requires Table(w.orders)
    ensures Evolves(w.orders, r.0.orders)
    ensures w.trades <= r.0.trades && w.sent <= r.0.sent
    ensures r.1.Stopped? ==> Halts(r.1.outcome)
    decreases OpenCount(w.orders), 0, |cands| - i
  {
    if i >= |cands| then (w, Done)
    else
      var t := Attempt(w, cands[i], p, script, now);
      AttemptShrinks(w, cands[i], p, script, now);
      if t.1 == Traded then
        var m := AfterTrade(t.0, cands, i, p, script, now);
        EvolvesTransitive(w.orders, t.0.orders, m.0.orders);
        m
      else if t.1 == NoOrder || t.1 == AlreadyClosed then
        var m := RunCandidates(t.0, cands, i + 1, p, script, now);
        EvolvesTransitive(w.orders, t.0.orders, m.0.orders);
        m
      else (t.0, Stopped(t.1))
  }

  /** What follows a trade made by candidate i: the next round, then maybe candidate i + 1. */
  function AfterTrade(w: World, cands: seq<int>, i: nat, p: Port, script: nat -> Reply, now: int): (r: (World, RunResult))
    requires Table(w.orders)
    ensures Evolves(w.orders, r.0.orders)
    ensures w.trades <= r.0.trades && w.sent <= r.0.sent
    ensures r.1.Stopped? ==> Halts(r.1.outcome)
    decreases OpenCount(w.orders), 2, 0
  {
    var n := RunTrade(w, p, script, now);
    if (p == Php || p == Node) && n.1 == Done then
      EvolvesTable(w.orders, n.0.orders);
      EvolvesCount(w.orders, n.0.orders);
      var m := RunCandidates(n.0, cands, i + 1, p, script, now);
      EvolvesTransitive(w.orders, n.0.orders, m.0.orders);
      m
    else n
  }

  /** One tryTrade in its own transaction, committed or rolled back by its outcome. */
  function Attempt(w: World, id: int, p: Port, script: nat -> Reply, now: int): (World, Outcome)
    requires Table(w.orders)
  {
    var t := TryTrade(w, id, p, script, now);
    (if Commits(t.1) then t.0 else Rollback(w, t.0), t.1)
  }

  /**
   * A transaction of runTrade leaves the table a later state of the one it
   * found, and a trade closes at least one open order.
   */
  lemma AttemptShrinks(w: World, id: int, p: Port, script: nat -> Reply, now: int)
    requires Table(w.orders)
    ensures var t := Attempt(w, id, p, script, now);
      Table(t.0.orders) && Evolves(w.orders, t.0.orders) && w.trades <= t.0.trades && w.sent <= t.0.sent &&
      OpenCount(t.0.orders) <= OpenCount(w.orders) &&
      (t.1 == Traded ==> OpenCount(t.0.orders) < OpenCount(w.orders))
  {
    TryTradeEvolves(w, id, p, script, now);
    var t := Attempt(w, id, p, script, now);
    EvolvesTable(w.orders, t.0.orders);
    if t.1 == Traded {
      assert IsOpen(w.orders[id - 1]) && !IsOpen(t.0.orders[id - 1]);
    }
    EvolvesCount(w.orders, t.0.orders);
  }

  // ---------------------------------------------------------------------
  // What an attempt does to the tables

  /** Release touches neither table and only appends to the bank requests. */
  lemma ReleaseKeeps(w: World, reserves: seq<Ref>, p: Port, script: nat -> Reply, outcome: Outcome)
    ensures var r := Release(w, reserves, p, script, outcome);
      r.0.orders == w.orders && r.0.trades == w.trades && w.sent <= r.0.sent &&
      (r.1 == Traded ==> outcome == Traded)
  {
  }

  lemma {:induction false} CloseTradedFrame(w: World, closing: seq<Order>, price: int, tradeId: nat, now: int)
    ensures var r := CloseTraded(w, closing, price, tradeId, now);
      |r.orders| == |w.orders| && r.trades == w.trades && r.sent == w.sent
    decreases |closing|
  {
    if closing != [] {
      var o := closing[0];
      CloseTradedFrame(Log(w.(orders := SetTraded(w.orders, o.id, tradeId, now)),
                           OrderTradeLog(o.kind, o.id, o.userId, o.amount, price, tradeId)),
                       closing[1..], price, tradeId, now);
    }
  }

  /** Closing the rows of a trade leaves every row whose id it does not name as it was. */
  lemma {:induction false} CloseTradedKeeps(w: World, closing: seq<Order>, price: int, tradeId: nat, now: int)
    ensures var r := CloseTraded(w, closing, price, tradeId, now);
      |r.orders| == |w.orders| &&
      forall j :: 0 <= j < |w.orders| && j + 1 !in IdsOf(closing) ==> r.orders[j] == w.orders[j]
    decreases |closing|
  {
    CloseTradedFrame(w, closing, price, tradeId, now);
    if closing != [] {
      var o := closing[0];
      var w1 := Log(w.(orders := SetTraded(w.orders, o.id, tradeId, now)),
                    OrderTradeLog(o.kind, o.id, o.userId, o.amount, price, tradeId));
      assert o in closing;
      assert forall x :: x in closing[1..] ==> x in closing;
      CloseTradedKeeps(w1, closing[1..], price, tradeId, now);
    }
  }

  /** Closing the rows of a trade only closes rows that were open at the start. */
  lemma {:induction false} CloseTradedEvolves(w0: World, w: World, closing: seq<Order>, price: int,
                                              tradeId: nat, now: int)
    requires Table(w0.orders) && Evolves(w0.orders, w.orders)
    requires forall o :: o in closing ==> OpenIn(w0.orders, o.id)
    ensures Evolves(w0.orders, CloseTraded(w, closing, price, tradeId, now).orders)
    decreases |closing|
  {
    if closing != [] {
      var o := closing[0];
      SetTradedEvolves(w0.orders, w.orders, o.id, tradeId, now);
      assert forall x :: x in closing[1..] ==> x in closing;
      CloseTradedEvolves(w0, Log(w.(orders := SetTraded(w.orders, o.id, tradeId, now)),
                                 OrderTradeLog(o.kind, o.id, o.userId, o.amount, price, tradeId)),
                         closing[1..], price, tradeId, now);
    }
  }

  /** Every row of the trade ends closed with the trade id; rows already so stay so. */
  lemma {:induction false} CloseTradedMarks(w: World, closing: seq<Order>, price: int, tradeId: nat, now: int)
    requires Table(w.orders)
    requires forall o :: o in closing ==> 1 <= o.id <= |w.orders|
    ensures var r := CloseTraded(w, closing, price, tradeId, now);
      |r.orders| == |w.orders| &&
      (forall j :: 0 <= j < |w.orders| && !IsOpen(w.orders[j]) && w.orders[j].tradeId == tradeId ==>
         !IsOpen(r.orders[j]) && r.orders[j].tradeId == tradeId) &&
      (forall o :: o in closing ==> !IsOpen(r.orders[o.id - 1]) && r.orders[o.id - 1].tradeId == tradeId)
    decreases |closing|
  {
    CloseTradedFrame(w, closing, price, tradeId, now);
    if closing != [] {
      var o := closing[0];
      var w1 := Log(w.(orders := SetTraded(w.orders, o.id, tradeId, now)),
                    OrderTradeLog(o.kind, o.id, o.userId, o.amount, price, tradeId));
      assert forall x :: x in closing[1..] ==> x in closing;
      CloseTradedMarks(w1, closing[1..], price, tradeId, now);
    }
  }

  lemma SettleEvolves(w0: World, w: World, order: Order, targets: seq<Order>, reserves: seq<Ref>, p: Port,
                      script: nat -> Reply, now: int)
    requires Table(w0.orders) && Evolves(w0.orders, w.orders)
    requires OpenIn(w0.orders, order.id)
    requires forall t :: t in targets ==> OpenIn(w0.orders, t.id)
    ensures var r := Settle(w, order, targets, reserves, p, script, now);
      Evolves(w0.orders, r.0.orders) && w.sent <= r.0.sent &&
      r.0.trades == w.trades + [Trade(|w.trades| + 1, order.amount, order.price, now)]
  {
    var tid := |w.trades| + 1;
    var w1 := Log(w.(trades := w.trades + [Trade(tid, order.amount, order.price, now)]),
                  TradeLog(tid, order.amount, order.price));
    CloseTradedFrame(w1, targets + [order], order.price, tid, now);
    CloseTradedEvolves(w0, w1, targets + [order], order.price, tid, now);
    var w2 := CloseTraded(w1, targets + [order], order.price, tid, now);
    ReleaseKeeps(Send(w2, CommitReq(reserves)), reserves, p, script, Failure);
  }

  /** A settled trade leaves every row but the aggressor's and the taken orders' as it was. */
  lemma SettleKeeps(w: World, order: Order, targets: seq<Order>, reserves: seq<Ref>, p: Port,
                    script: nat -> Reply, now: int)
    ensures var r := Settle(w, order, targets, reserves, p, script, now);
      |r.0.orders| == |w.orders| &&
      forall j :: 0 <= j < |w.orders| && j + 1 !in IdsOf(targets) + {order.id} ==> r.0.orders[j] == w.orders[j]
  {
    var tid := |w.trades| + 1;
    var w1 := Log(w.(trades := w.trades + [Trade(tid, order.amount, order.price, now)]),
                  TradeLog(tid, order.amount, order.price));
    CloseTradedKeeps(w1, targets + [order], order.price, tid, now);
    assert IdsOf(targets + [order]) == IdsOf(targets) + {order.id};
    var w2 := CloseTraded(w1, targets + [order], order.price, tid, now);
    ReleaseKeeps(Send(w2, CommitReq(reserves)), reserves, p, script, Failure);
  }

  /** A settled trade closes the aggressor and its counter orders with the new trade id. */
  lemma SettleMarks(w: World, order: Order, targets: seq<Order>, reserves: seq<Ref>, p: Port,
                    script: nat -> Reply, now: int)
    requires Table(w.orders)
    requires 1 <= order.id <= |w.orders|
    requires forall t :: t in targets ==> 1 <= t.id <= |w.orders|
    ensures var r := Settle(w, order, targets, reserves, p, script, now);
      |r.0.orders| == |w.orders| &&
      !IsOpen(r.0.orders[order.id - 1]) && r.0.orders[order.id - 1].tradeId == |w.trades| + 1 &&
      (forall t :: t in targets ==> !IsOpen(r.0.orders[t.id - 1]) && r.0.orders[t.id - 1].tradeId == |w.trades| + 1)
  {
    var tid := |w.trades| + 1;
    var w1 := Log(w.(trades := w.trades + [Trade(tid, order.amount, order.price, now)]),
                  TradeLog(tid, order.amount, order.price));
    CloseTradedMarks(w1, targets + [order], order.price, tid, now);
    var w2 := CloseTraded(w1, targets + [order], order.price, tid, now);
    ReleaseKeeps(Send(w2, CommitReq(reserves)), reserves, p, script, Failure);
  }

  /** The end of an attempt whose scan ran from the table `w0`. */
  lemma ConcludeEvolves(w0: World, s: Scan, order: Order, p: Port, script: nat -> Reply, now: int)
    requires Table(w0.orders) && Evolves(w0.orders, s.w.orders) && OpenIn(w0.orders, order.id)
    requires forall t :: t in s.targets ==> OpenIn(w0.orders, t.id)
    ensures var r := Conclude(s, order, p, script, now);
      Evolves(w0.orders, r.0.orders) && s.w.trades <= r.0.trades && s.w.sent <= r.0.sent &&
      (r.1 != Traded && r.1 != Failure ==> r.0.trades == s.w.trades) &&
      (r.1 == Traded ==> !IsOpen(r.0.orders[order.id - 1]))
  {
    ReleaseKeeps(s.w, s.reserves, p, script, Failure);
    ReleaseKeeps(s.w, s.reserves, p, script, NoOrder);
    if !s.aborted && s.rest <= 0 {
      SettleEvolves(w0, s.w, order, s.targets, s.reserves, p, script, now);
      EvolvesTable(w0.orders, s.w.orders);
      SettleMarks(s.w, order, s.targets, s.reserves, p, script, now);
    }
  }

  /** The part of an attempt after the aggressor's reservation went through. */
  lemma MatchEvolves(w: World, order: Order, ref: Ref, p: Port, script: nat -> Reply, now: int)
    requires Table(w.orders) && OpenIn(w.orders, order.id)
    ensures var r := Match(w, order, ref, p, script, now);
      Evolves(w.orders, r.0.orders) && w.trades <= r.0.trades && w.sent <= r.0.sent &&
      (r.1 != Traded && r.1 != Failure ==> r.0.trades == w.trades) &&
      (r.1 == Traded ==> !IsOpen(r.0.orders[order.id - 1]))
  {
    ReleaseKeeps(w, [ref], p, script, Failure);
    ReleaseKeeps(w, [ref], p, script, NoOrder);
    if !(order.kind.OtherKind? && p == Ruby) && !(CounterOrders(w.orders, order, p) == [] && p != Node) {
      var s := Fill(w, order, ref, p, script, now);
      ConcludeEvolves(w, s, order, p, script, now);
    }
  }

  /**
   * One attempt only closes orders (never reopens or edits them), only
   * appends trades and bank requests, adds a trade only when it trades, and
   * a trade closes the aggressor.
   */
  lemma TryTradeEvolves(w: World, id: int, p: Port, script: nat -> Reply, now: int)
    requires Table(w.orders)
    ensures var r := TryTrade(w, id, p, script, now);
      Evolves(w.orders, r.0.orders) && w.trades <= r.0.trades && w.sent <= r.0.sent &&
      (r.1 != Traded && r.1 != Failure ==> r.0.trades == w.trades) &&
      (r.1 == Traded ==> OpenIn(w.orders, id) && !IsOpen(r.0.orders[id - 1]))
  {
    match Lookup(w.orders, id)
    case None =>
    case Some(order) =>
      if IsOpen(order) {
        AggressEvolves(w, order, p, script, now);
      }
  }

  lemma AggressEvolves(w: World, order: Order, p: Port, script: nat -> Reply, now: int)
    requires Table(w.orders) && OpenIn(w.orders, order.id)
    ensures var r := Aggress(w, order, p, script, now);
      Evolves(w.orders, r.0.orders) && w.trades <= r.0.trades && w.sent <= r.0.sent &&
      (r.1 != Traded && r.1 != Failure ==> r.0.trades == w.trades) &&
      (r.1 == Traded ==> !IsOpen(r.0.orders[order.id - 1]))
  {
    var r := ReserveOrder(w, order, order.price, true, p, script, now);
    SetClosedEvolves(w.orders, w.orders, order.id, now);
    match r.1
    case Refused => ReleaseKeeps(r.0, [Rid(0)], p, script, CreditShort);
    case Failed => ReleaseKeeps(r.0, [Rid(0)], p, script, Failure);
    case Reserved(ref) => MatchEvolves(r.0, order, ref, p, script, now);
  }

  /** In an auto-increment table a row is found at its id. */
  lemma TableRow(rows: seq<Order>, o: Order)
    requires Table(rows) && o in rows
    ensures 1 <= o.id <= |rows| && rows[o.id - 1] == o
  {
  }

  /** A taken order is one of the crossing counter orders the scan query returned. */
  lemma TakenCross(w: World, order: Order, ref: Ref, p: Port, script: nat -> Reply, now: int)
    requires Table(w.orders)
    ensures var s := Fill(w, order, ref, p, script, now);
      forall t :: t in s.targets ==> t in w.orders && CounterFilter(order, p)(t)
  {
    var cands := CounterOrders(w.orders, order, p);
    var s := Fill(w, order, ref, p, script, now);
    RankedQuery(ScanOrdering(p, order.kind), w.orders, CounterFilter(order, p));
    forall t | t in s.targets ensures t in w.orders && CounterFilter(order, p)(t) {
      var c :| c in cands && c.id == t.id;
      TableRow(w.orders, c);
    }
  }

  /**
   * A trade: exactly one trade row, with the aggressor's amount and price,
   * is appended; the orders the scan took cross the aggressor's price on the
   * other side of the book, add up to its amount and are distinct rows; the
   * aggressor and each of them end closed with the new trade id; every
   * other row is left as it was, or is a counter order closed without a
   * trade because its reservation was refused.
   */
  lemma MatchTraded(w: World, order: Order, ref: Ref, p: Port, script: nat -> Reply, now: int)
    requires Table(w.orders) && OpenIn(w.orders, order.id) && order.amount >= 0
    ensures var r := Match(w, order, ref, p, script, now);
      var s := Fill(w, order, ref, p, script, now);
      r.1 == Traded ==>
        r.0.trades == w.trades + [Trade(|w.trades| + 1, order.amount, order.price, now)] &&
        Total(s.targets) == order.amount &&
        (forall t :: t in s.targets ==> t in w.orders && CounterFilter(order, p)(t)) &&
        |r.0.orders| == |w.orders| &&
        !IsOpen(r.0.orders[order.id - 1]) && r.0.orders[order.id - 1].tradeId == |w.trades| + 1 &&
        (forall t :: t in s.targets ==>
           1 <= t.id <= |w.orders| && !IsOpen(r.0.orders[t.id - 1]) && r.0.orders[t.id - 1].tradeId == |w.trades| + 1) &&
        DistinctIds(s.targets) && KeptBut(w.orders, r.0.orders, IdsOf(s.targets) + {order.id}, order, p, now)
  {
    ReleaseKeeps(w, [ref], p, script, Failure);
    ReleaseKeeps(w, [ref], p, script, NoOrder);
    var s := Fill(w, order, ref, p, script, now);
    TakenCross(w, order, ref, p, script, now);
    FillKeeps(w, order, ref, p, script, now);
    ConcludeTraded(w, s, order, p, script, now);
  }

  /** The end of the attempt, once the scan reached `s` from the table `w`. */
  lemma ConcludeTraded(w: World, s: Scan, order: Order, p: Port, script: nat -> Reply, now: int)
    requires Table(w.orders) && OpenIn(w.orders, order.id)
    requires Table(s.w.orders) && Evolves(w.orders, s.w.orders) && s.w.trades == w.trades
    requires forall t :: t in s.targets ==> OpenIn(w.orders, t.id)
    requires s.rest + Total(s.targets) == order.amount && s.rest >= 0
    requires KeptBut(w.orders, s.w.orders, {}, order, p, now)
    ensures var r := Conclude(s, order, p, script, now);
      r.1 == Traded ==>
        r.0.trades == w.trades + [Trade(|w.trades| + 1, order.amount, order.price, now)] &&
        Total(s.targets) == order.amount &&
        |r.0.orders| == |w.orders| &&
        !IsOpen(r.0.orders[order.id - 1]) && r.0.orders[order.id - 1].tradeId == |w.trades| + 1 &&
        (forall t :: t in s.targets ==>
           1 <= t.id <= |w.orders| && !IsOpen(r.0.orders[t.id - 1]) && r.0.orders[t.id - 1].tradeId == |w.trades| + 1) &&
        KeptBut(w.orders, r.0.orders, IdsOf(s.targets) + {order.id}, order, p, now)
  {
    ReleaseKeeps(s.w, s.reserves, p, script, Failure);
    ReleaseKeeps(s.w, s.reserves, p, script, NoOrder);
    if !s.aborted && s.rest <= 0 {
      SettleEvolves(w, s.w, order, s.targets, s.reserves, p, script, now);
      SettleMarks(s.w, order, s.targets, s.reserves, p, script, now);
      SettleKeeps(s.w, order, s.targets, s.reserves, p, script, now);
      var r := Settle(s.w, order, s.targets, s.reserves, p, script, now);
      KeptButThen(w.orders, s.w.orders, r.0.orders, IdsOf(s.targets) + {order.id}, order, p, now);
    }
  }

  /** Rows kept but for closed counter orders, then kept outside `skip`, are kept outside `skip`. */
  lemma KeptButThen(a: seq<Order>, b: seq<Order>, c: seq<Order>, skip: set<int>, order: Order, p: Port, now: int)
    requires KeptBut(a, b, {}, order, p, now)
    requires |c| == |b| && forall j :: 0 <= j < |b| && j + 1 !in skip ==> c[j] == b[j]
    ensures KeptBut(a, c, skip, order, p, now)
  {
  }

  // ---------------------------------------------------------------------
  // Reservations do not outlive an attempt

  /**
   * After the requests `sent` (which extend `sent0`) the bank holds the
   * reservations `h` again, unless the last request was a commit or cancel
   * that the bank refused.
   */
  predicate Released(script: nat -> Reply, sent0: seq<Request>, sent: seq<Request>, h: set<int>)
  {
    Held(script, sent) == h ||
    (|sent0| < |sent| && (sent[|sent| - 1].CommitReq? || sent[|sent| - 1].CancelReq?) &&
     Answer(sent[|sent| - 1], script(|sent| - 1)) != Accepted)
  }

  lemma ReleaseHeld(w: World, reserves: seq<Ref>, p: Port, script: nat -> Reply, outcome: Outcome, h: set<int>)
    requires Held(script, w.sent) == h + RidsOf(reserves)
    requires forall r :: r in reserves ==> r.Rid? && r.id !in h
    ensures Released(script, w.sent, Release(w, reserves, p, script, outcome).0.sent, h)
  {
    if reserves != [] {
      HeldAppend(script, w.sent, CancelReq(reserves));
      CancelRestores(h, reserves);
    }
  }

  lemma SettleHeld(w: World, order: Order, targets: seq<Order>, reserves: seq<Ref>, p: Port,
                   script: nat -> Reply, now: int, h: set<int>)
    requires Held(script, w.sent) == h + RidsOf(reserves)
    requires forall r :: r in reserves ==> r.Rid? && r.id !in h
    ensures Released(script, w.sent, Settle(w, order, targets, reserves, p, script, now).0.sent, h)
  {
    var tid := |w.trades| + 1;
    var w1 := Log(w.(trades := w.trades + [Trade(tid, order.amount, order.price, now)]),
                  TradeLog(tid, order.amount, order.price));
    CloseTradedFrame(w1, targets + [order], order.price, tid, now);
    var w2 := CloseTraded(w1, targets + [order], order.price, tid, now);
    HeldAppend(script, w2.sent, CommitReq(reserves));
    CancelRestores(h, reserves);
    if Answer(CommitReq(reserves), script(|w2.sent|)) != Accepted {
      ReleaseHeld(Send(w2, CommitReq(reserves)), reserves, p, script, Failure, h);
    }
  }

  lemma ConcludeHeld(s: Scan, order: Order, p: Port, script: nat -> Reply, now: int, h: set<int>)
    requires Held(script, s.w.sent) == h + RidsOf(s.reserves)
    requires forall r :: r in s.reserves ==> r.Rid? && r.id !in h
    ensures Released(script, s.w.sent, Conclude(s, order, p, script, now).0.sent, h)
  {
    ReleaseHeld(s.w, s.reserves, p, script, Failure, h);
    ReleaseHeld(s.w, s.reserves, p, script, NoOrder, h);
    SettleHeld(s.w, order, s.targets, s.reserves, p, script, now, h);
  }

  /** After the aggressor's reservation `ref`: every reservation made from here on is released too. */
  lemma MatchHeld(w: World, order: Order, ref: Ref, p: Port, script: nat -> Reply, now: int, h: set<int>)
    requires Table(w.orders) && p != Node
    requires ref.Rid? && ref.id !in h && Held(script, w.sent) == h + {ref.id}
    requires forall x :: x in h ==> x <= |w.sent|
    ensures Released(script, w.sent, Match(w, order, ref, p, script, now).0.sent, h)
  {
    assert RidsOf([ref]) == {ref.id};
    ReleaseHeld(w, [ref], p, script, Failure, h);
    ReleaseHeld(w, [ref], p, script, NoOrder, h);
    if !(order.kind.OtherKind? && p == Ruby) && !(CounterOrders(w.orders, order, p) == [] && p != Node) {
      var s := Fill(w, order, ref, p, script, now);
      FillHeld(w, order, ref, p, script, now, h);
      ConcludeHeld(s, order, p, script, now, h);
      assert Match(w, order, ref, p, script, now) == Conclude(s, order, p, script, now);
      assert RowsLater(Start(w, order, ref), s);
    }
  }

  /** The scan adds to the held reservations exactly the fresh ids it collects. */
  lemma FillHeld(w: World, order: Order, ref: Ref, p: Port, script: nat -> Reply, now: int, h: set<int>)
    requires Table(w.orders) && p != Node
    requires ref.Rid? && ref.id !in h && Held(script, w.sent) == h + {ref.id}
    requires forall x :: x in h ==> x <= |w.sent|
    ensures var s := Fill(w, order, ref, p, script, now);
      Held(script, s.w.sent) == h + RidsOf(s.reserves) && forall r :: r in s.reserves ==> r.Rid? && r.id !in h
  {
    var s := Fill(w, order, ref, p, script, now);
    assert s.reserves[..1] == [ref];
    assert RidsOf([ref]) == {ref.id};
    RidsOfSplit(s.reserves, 1);
    forall r | r in s.reserves ensures r.Rid? && r.id !in h {
      var k :| 0 <= k < |s.reserves| && s.reserves[k] == r;
      if k == 0 {
        assert r == ref;
      } else {
        assert r.Rid? && r.id > |w.sent|;
      }
    }
  }

  /** Once the aggressor's own reservation goes through, the attempt is the match that follows. */
  lemma AggressReserved(w: World, order: Order, p: Port, script: nat -> Reply, now: int)
    requires Table(w.orders)
    ensures var r := ReserveOrder(w, order, order.price, true, p, script, now);
      r.1.Reserved? ==> Aggress(w, order, p, script, now) == Match(r.0, order, r.1.ref, p, script, now)
  {
  }

  /** When the aggressor's own reservation does not go through, only PHP cancels its placeholder. */
  lemma AggressRefused(w: World, order: Order, p: Port, script: nat -> Reply, now: int)
    requires Table(w.orders)
    ensures var r := ReserveOrder(w, order, order.price, true, p, script, now);
      var out := if r.1.Refused? then CreditShort else Failure;
      !r.1.Reserved? ==>
        Aggress(w, order, p, script, now) == if p == Php then Release(r.0, [Rid(0)], p, script, out) else (r.0, out)
  {
  }

  /** Measured from an earlier point, requests that released h still released it. */
  lemma ReleasedEarlier(script: nat -> Reply, sent0: seq<Request>, sent1: seq<Request>, sent: seq<Request>, h: set<int>)
    requires |sent0| <= |sent1| && Released(script, sent1, sent, h)
    ensures Released(script, sent0, sent, h)
  {
  }

  /** PHP's cancel of the placeholder reservation 0 gives back nothing the bank holds. */
  lemma PlaceholderCancelKeeps(w: World, p: Port, script: nat -> Reply, outcome: Outcome)
    ensures Released(script, w.sent, Release(w, [Rid(0)], p, script, outcome).0.sent, Held(script, w.sent))
  {
    HeldAppend(script, w.sent, CancelReq([Rid(0)]));
    HeldBounded(script, w.sent);
    assert RidsOf([Rid(0)]) == {0};
    assert Held(script, w.sent) - {0} == Held(script, w.sent);
  }

  /** One attempt on an open aggressor releases every reservation it made (outside Node). */
  lemma AggressHeld(w: World, order: Order, p: Port, script: nat -> Reply, now: int)
    requires Table(w.orders) && p != Node
    ensures Released(script, w.sent, Aggress(w, order, p, script, now).0.sent, Held(script, w.sent))
  {
    var h := Held(script, w.sent);
    var req := ReserveReq(order.userId, ReserveAmount(order, order.price));
    var r := ReserveOrder(w, order, order.price, true, p, script, now);
    HeldAppend(script, w.sent, req);
    match r.1
    case Refused =>
      assert Held(script, r.0.sent) == h;
      AggressRefused(w, order, p, script, now);
      if p == Php {
        PlaceholderCancelKeeps(r.0, p, script, CreditShort);
      }
    case Failed =>
      assert Held(script, r.0.sent) == h;
      AggressRefused(w, order, p, script, now);
      if p == Php {
        PlaceholderCancelKeeps(r.0, p, script, Failure);
      }
    case Reserved(ref) =>
      HeldBounded(script, w.sent);
      var m := Match(r.0, order, ref, p, script, now);
      MatchHeld(r.0, order, ref, p, script, now, h);
      ReleasedEarlier(script, w.sent, r.0.sent, m.0.sent, h);
      AggressReserved(w, order, p, script, now);
  }

  /**
   * tryTrade leaves the bank holding exactly the reservations it held
   * before, unless its last request was a commit or cancel the bank refused
   * (outside Node, whose reservations are never released).
   */
  lemma TryTradeReleases(w: World, id: int, p: Port, script: nat -> Reply, now: int)
    requires Table(w.orders) && p != Node
    ensures Released(script, w.sent, TryTrade(w, id, p, script, now).0.sent, Held(script, w.sent))
  {
    match Lookup(w.orders, id)
    case None =>
    case Some(order) =>
      if IsOpen(order) {
        AggressHeld(w, order, p, script, now);
      }
  }

  // ---------------------------------------------------------------------
  // The Node port never trades

  /** A commit naming a pending call is refused, so the scan's end never trades. */
  lemma ConcludeNode(s: Scan, order: Order, script: nat -> Reply, now: int)
    requires exists k :: 0 <= k < |s.reserves| && s.reserves[k].Pending?
    ensures Conclude(s, order, Node, script, now).1 != Traded
  {
    var k :| 0 <= k < |s.reserves| && s.reserves[k].Pending?;
    assert Malformed(CommitReq(s.reserves)) by {
      assert s.reserves[k] in s.reserves;
    }
    ReleaseKeeps(s.w, s.reserves, Node, script, Failure);
    ReleaseKeeps(s.w, s.reserves, Node, script, NoOrder);
  }

  /**
   * In Node the scan fails on any counter order; with none the aggressor's
   * amount is left unfilled, so the attempt ends without a trade.
   */
  lemma MatchNode(w: World, order: Order, ref: Ref, script: nat -> Reply, now: int)
    requires Table(w.orders) && order.amount > 0
    ensures Match(w, order, ref, Node, script, now).1 != Traded
  {
    ReleaseKeeps(w, [ref], Node, script, Failure);
    ReleaseKeeps(w, [ref], Node, script, NoOrder);
    if CounterOrders(w.orders, order, Node) == [] {
      FillDone(Start(w, order, ref), [], 0, order.price, Node, script, now);
    }
  }

  /**
   * In the Node port no attempt on a placed order ever trades: a scan that
   * finds counter orders throws before its loop, and one that finds none
   * leaves the aggressor's amount unfilled.
   */
  lemma NodeNeverTrades(w: World, id: int, script: nat -> Reply, now: int)
    requires Placed(w.orders)
    ensures TryTrade(w, id, Node, script, now).1 != Traded
  {
    match Lookup(w.orders, id)
    case None =>
    case Some(order) =>
      if IsOpen(order) {
        var r := ReserveOrder(w, order, order.price, true, Node, script, now);
        ReleaseKeeps(r.0, [Rid(0)], Node, script, CreditShort);
        ReleaseKeeps(r.0, [Rid(0)], Node, script, Failure);
        if r.1.Reserved? {
          MatchNode(r.0, order, r.1.ref, script, now);
        }
      }
  }

  /**
   * A traded attempt: the aggressor was open; exactly one trade, with its
   * amount and price, is appended; it and counter orders that add up to its
   * amount, each crossing its price on the other side of the book, end
   * closed with the new trade id.
   */
  lemma TryTradeTraded(w: World, id: int, p: Port, script: nat -> Reply, now: int)
    requires Placed(w.orders)
    ensures var r := TryTrade(w, id, p, script, now);
      r.1 == Traded ==>
        1 <= id <= |w.orders| && IsOpen(w.orders[id - 1]) && Settled(w, r.0, w.orders[id - 1], p, now)
  {
    TryTradeOpen(w, id, p, script, now);
    if 1 <= id <= |w.orders| && IsOpen(w.orders[id - 1]) {
      AggressTraded(w, w.orders[id - 1], p, script, now);
    }
  }

  /** An attempt on an order that is found open is the attempt of that aggressor; any other ends at once. */
  lemma TryTradeOpen(w: World, id: int, p: Port, script: nat -> Reply, now: int)
    requires Table(w.orders)
    ensures 1 <= id <= |w.orders| && IsOpen(w.orders[id - 1]) ==>
      TryTrade(w, id, p, script, now) == Aggress(w, w.orders[id - 1], p, script, now)
    ensures !(1 <= id <= |w.orders| && IsOpen(w.orders[id - 1])) ==>
      TryTrade(w, id, p, script, now).0 == w && TryTrade(w, id, p, script, now).1 != Traded
  {
  }

  /**
   * What a trade of the aggressor order leaves behind in the state after:
   * one trade appended with the aggressor's amount and price, and the
   * aggressor and distinct counter orders adding up to its amount, each
   * crossing its price on the other side of the book, closed with the new
   * trade id; every other row as it was, or a counter order closed without
   * a trade.
   */
  ghost predicate Settled(w: World, after: World, order: Order, p: Port, now: int)
  {
    |after.orders| == |w.orders| && 1 <= order.id <= |w.orders| &&
    after.trades == w.trades + [Trade(|w.trades| + 1, order.amount, order.price, now)] &&
    !IsOpen(after.orders[order.id - 1]) && after.orders[order.id - 1].tradeId == |w.trades| + 1 &&
    exists ts :: Total(ts) == order.amount && DistinctIds(ts) &&
      KeptBut(w.orders, after.orders, IdsOf(ts) + {order.id}, order, p, now) &&
      forall t :: t in ts ==>
        t in w.orders && CounterFilter(order, p)(t) &&
        1 <= t.id <= |w.orders| && !IsOpen(after.orders[t.id - 1]) && after.orders[t.id - 1].tradeId == |w.trades| + 1
  }

  /** The counter orders ts witness that the aggressor's trade settled. */
  lemma SettledBy(w: World, after: World, order: Order, p: Port, now: int, ts: seq<Order>)
    requires |after.orders| == |w.orders| && 1 <= order.id <= |w.orders|
    requires after.trades == w.trades + [Trade(|w.trades| + 1, order.amount, order.price, now)]
    requires !IsOpen(after.orders[order.id - 1]) && after.orders[order.id - 1].tradeId == |w.trades| + 1
    requires Total(ts) == order.amount && DistinctIds(ts)
    requires KeptBut(w.orders, after.orders, IdsOf(ts) + {order.id}, order, p, now)
    requires forall t :: t in ts ==> t in w.orders && CounterFilter(order, p)(t)
    requires forall t :: t in ts ==>
      1 <= t.id <= |w.orders| && !IsOpen(after.orders[t.id - 1]) && after.orders[t.id - 1].tradeId == |w.trades| + 1
    ensures Settled(w, after, order, p, now)
  {
  }

  lemma AggressTraded(w: World, order: Order, p: Port, script: nat -> Reply, now: int)
    requires Table(w.orders) && OpenIn(w.orders, order.id) && order.amount >= 0
    ensures var r := Aggress(w, order, p, script, now);
      r.1 == Traded ==> Settled(w, r.0, order, p, now)
  {
    var r := ReserveOrder(w, order, order.price, true, p, script, now);
    match r.1
    case Refused =>
      ReleaseKeeps(r.0, [Rid(0)], p, script, CreditShort);
    case Failed =>
      ReleaseKeeps(r.0, [Rid(0)], p, script, Failure);
    case Reserved(ref) =>
      var m := Match(r.0, order, ref, p, script, now);
      AggressReserved(w, order, p, script, now);
      MatchTraded(r.0, order, ref, p, script, now);
      if m.1 == Traded {
        var s := Fill(r.0, order, ref, p, script, now);
        SettledBy(w, m.0, order, p, now, s.targets);
      }
  }

  // ---------------------------------------------------------------------
  // Placing and deleting orders

  /**
   * AddOrder: a non-positive amount or price, or a type other than buy and
   * sell, is invalid and changes nothing; a sell is inserted without asking
   * the bank; a buy asks the bank whether the buyer can pay price × amount
   * and is inserted exactly when the bank agrees; a refusal inserts nothing,
   * logs `buy.error`, and is insufficient credit when the bank says so (any
   * refusal in Node). An inserted order takes the next id and is open.
   */
  lemma AddOrderSpec(w: World, p: Port, kind: Kind, userId: nat, amount: int, price: int,
                     script: nat -> Reply, now: int)
    ensures var r := AddOrder(w, p, kind, userId, amount, price, script, now);
      var check := CheckReq(userId, price * amount);
      var a := Answer(check, script(|w.sent|));
      (amount <= 0 || price <= 0 || kind.OtherKind? ==> r == (w, Err(ParameterInvalid))) &&
      (amount > 0 && price > 0 && kind == Sell ==> r.1.Ok? && r.0.sent == w.sent) &&
      (amount > 0 && price > 0 && kind == Buy ==>
         r.0.sent == w.sent + [check] && (r.1.Ok? <==> a == Accepted) &&
         (r.1.Err? ==>
            r.0.orders == w.orders && r.0.events == w.events + [ErrorLog(Buy, a, userId, amount, price)] &&
            (r.1.error == CreditInsufficient <==> a == Insufficient || p == Node))) &&
      (r.1.Ok? ==>
         r.1.value == Order(|w.orders| + 1, kind, userId, amount, price, now, None, 0) &&
         r.0.orders == w.orders + [r.1.value] && r.0.trades == w.trades &&
         r.0.events == w.events + [OrderLog(kind, |w.orders| + 1, userId, amount, price)])
  {
  }

  /** Placing an order keeps every row positive and auto-numbered. */
  lemma AddOrderPlaced(w: World, p: Port, kind: Kind, userId: nat, amount: int, price: int,
                       script: nat -> Reply, now: int)
    requires Placed(w.orders)
    ensures Placed(AddOrder(w, p, kind, userId, amount, price, script, now).0.orders)
  {
    var r := AddOrder(w, p, kind, userId, amount, price, script, now);
    if r.1.Ok? {
      var rows := r.0.orders;
      assert rows == w.orders + [r.1.value];
      forall i | 0 <= i < |rows|
        ensures rows[i].id == i + 1 && rows[i].amount > 0 && rows[i].price > 0 && (IsOpen(rows[i]) ==> rows[i].tradeId == 0)
      {
        if i < |w.orders| { assert rows[i] == w.orders[i]; }
      }
    }
  }

  /** Later states of a placed table are placed: closing keeps amount and price. */
  lemma EvolvesPlaced(a: seq<Order>, b: seq<Order>)
    requires Placed(a) && Evolves(a, b)
    ensures Placed(b)
  {
    forall i | 0 <= i < |b|
      ensures b[i].id == i + 1 && b[i].amount > 0 && b[i].price > 0 && (IsOpen(b[i]) ==> b[i].tradeId == 0)
    {
      assert Step(a[i], b[i]);
    }
  }

  /**
   * DeleteOrder: a missing order, or one of another user, is not found
   * (handler.go reports the missing row as a lookup failure); a closed one
   * is already closed; none of these changes anything. Otherwise exactly
   * that row gets closed_at and nothing else, so it keeps its trade id, and
   * a `<type>.delete` is logged.
   */
  lemma DeleteOrderSpec(w: World, p: Port, userId: nat, orderId: int, reason: Reason, now: int)
    requires Table(w.orders)
    ensures var r := DeleteOrder(w, p, userId, orderId, reason, now);
      var found := 1 <= orderId <= |w.orders|;
      (r.1.Err? ==> r.0 == w) &&
      (r.1 == Err(LookupFailed) <==> !found && p == GoHandler) &&
      (r.1 == Err(OrderNotFound) <==> (!found && p != GoHandler) || (found && w.orders[orderId - 1].userId != userId)) &&
      (r.1 == Err(OrderAlreadyClosed) <==>
         found && w.orders[orderId - 1].userId == userId && !IsOpen(w.orders[orderId - 1])) &&
      (r.1.Ok? ==>
         found && r.1.value == w.orders[orderId - 1] && IsOpen(r.1.value) && r.1.value.userId == userId &&
         r.0.orders == w.orders[orderId - 1 := r.1.value.(closedAt := Some(now))] &&
         r.0.trades == w.trades && r.0.sent == w.sent &&
         r.0.events == w.events +
           [if p == GoHandler then DeleteLog(r.1.value.kind, orderId, None, Canceled)
            else DeleteLog(r.1.value.kind, orderId, Some(userId), reason)])
  {
  }

  /**
   * reserveOrder asks the bank to reserve amount × price, negative for a
   * buy. Insufficient credit (outside Node) cancels the order with reason
   * `reserve_failed`; handler.go logs that delete with order id 0 and no
   * owner and logs no error, the others log the delete and `<type>.error`.
   * Any other refusal cancels nothing.
   */
  lemma ReserveOrderSpec(w: World, o: Order, price: int, awaited: bool, p: Port, script: nat -> Reply, now: int)
    requires o.kind == Buy || o.kind == Sell
    ensures var r := ReserveOrder(w, o, price, awaited, p, script, now);
      var req := ReserveReq(o.userId, if o.kind == Buy then -(o.amount * price) else o.amount * price);
      var a := Answer(req, script(|w.sent|));
      r.0.sent == w.sent + [req] &&
      (r.1 == Refused <==> a == Insufficient && p != Node && (awaited || p != Node)) &&
      (r.1 == Refused && p == GoHandler ==>
         r.0.orders == SetClosed(w.orders, o.id, now) && r.0.events == w.events + [DeleteLog(o.kind, 0, None, ReserveFailed)]) &&
      (r.1 == Refused && p != GoHandler ==>
         r.0.orders == SetClosed(w.orders, o.id, now) &&
         r.0.events == w.events + [DeleteLog(o.kind, o.id, Some(o.userId), ReserveFailed), ErrorLog(o.kind, a, o.userId, o.amount, price)]) &&
      (r.1 != Refused ==> r.0.orders == w.orders && r.0.events == w.events)
  {
  }

  // ---------------------------------------------------------------------
  // runTrade

  /**
   * runTrade changes nothing unless both sides of the book have an open
   * order and the lowest sell is no dearer than the highest buy.
   */
  lemma RunTradeIdle(w: World, p: Port, script: nat -> Reply, now: int)
    requires Table(w.orders)
    ensures RunTrade(w, p, script, now).0 != w ==>
      LowestSell(w.orders, p).Some? && HighestBuy(w.orders, p).Some? &&
      LowestSell(w.orders, p).value.price <= HighestBuy(w.orders, p).value.price
  {
  }

  /** The cheapest sell does not exceed the dearest buy: runTrade has something to try. */
  predicate BookCrosses(w: World, p: Port)
  {
    LowestSell(w.orders, p).Some? && HighestBuy(w.orders, p).Some? &&
    LowestSell(w.orders, p).value.price <= HighestBuy(w.orders, p).value.price
  }

  /** The outcomes after which runTrade tries its next candidate. */
  predicate NoMatch(o: Outcome)
  {
    o.NoOrder? || o.AlreadyClosed?
  }

  /**
   * A round of runTrade that returns without error and without trading,
   * starting from v and ending in u: either the book does not cross, or
   * both candidates end without a match.
   */
  ghost predicate IdleRound(v: World, u: World, p: Port, script: nat -> Reply, now: int)
    requires Table(v.orders)
  {
    (!BookCrosses(v, p) && u == v) ||
    (BookCrosses(v, p) &&
     var c := Candidates(LowestSell(v.orders, p).value, HighestBuy(v.orders, p).value);
     var a := Attempt(v, c[0], p, script, now);
     NoMatch(a.1) && Table(a.0.orders) &&
     var b := Attempt(a.0, c[1], p, script, now);
     NoMatch(b.1) && u == b.0)
  }

  /** Some world w evolves into ends, after its last round, in u. */
  ghost predicate ReachesIdle(w: World, u: World, p: Port, script: nat -> Reply, now: int)
  {
    exists v: World :: (Table(v.orders) && Evolves(w.orders, v.orders) && IdleRound(v, u, p, script, now))
  }

  /**
   * Outside PHP and Node, where a trade returns the next round, runTrade
   * ends without error only after a round with nothing to trade: the book
   * no longer crosses, or both candidates found no match.
   */
  lemma {:induction false} RunTradeDone(w: World, p: Port, script: nat -> Reply, now: int)
    requires Table(w.orders) && p != Php && p != Node
    requires RunTrade(w, p, script, now).1 == Done
    ensures ReachesIdle(w, RunTrade(w, p, script, now).0, p, script, now)
    decreases OpenCount(w.orders), 3
  {
    if !BookCrosses(w, p) {
      IdleHere(w, RunTrade(w, p, script, now).0, p, script, now);
    } else {
      var c := Candidates(LowestSell(w.orders, p).value, HighestBuy(w.orders, p).value);
      RoundStarts(w, p, script, now);
      RoundDone(w, c, p, script, now);
    }
  }

  /** A world in an idle round reaches that round's end. */
  lemma IdleHere(w: World, u: World, p: Port, script: nat -> Reply, now: int)
    requires Table(w.orders) && IdleRound(w, u, p, script, now)
    ensures ReachesIdle(w, u, p, script, now)
  {
    assert Evolves(w.orders, w.orders);
  }

  /** RunTradeDone for a round that has candidates to try. */
  lemma {:induction false} RoundDone(w: World, c: seq<int>, p: Port, script: nat -> Reply, now: int)
    requires Table(w.orders) && p != Php && p != Node && BookCrosses(w, p)
    requires c == Candidates(LowestSell(w.orders, p).value, HighestBuy(w.orders, p).value) && |c| == 2
    requires RunCandidates(w, c, 0, p, script, now).1 == Done
    ensures ReachesIdle(w, RunCandidates(w, c, 0, p, script, now).0, p, script, now)
    decreases OpenCount(w.orders), 2
  {
    var a := Attempt(w, c[0], p, script, now);
    AttemptShrinks(w, c[0], p, script, now);
    CandidateStep(w, c, 0, p, script, now);
    var r := RunCandidates(w, c, 0, p, script, now);
    if a.1 == Traded {
      assert r == RunTrade(a.0, p, script, now);
      RunTradeDoneFrom(w, a.0, p, script, now);
    } else if NoMatch(a.1) {
      assert r == RunCandidates(a.0, c, 1, p, script, now);
      SecondCandidate(w, c, p, script, now);
    } else {
      assert false;
    }
  }

  /** RunTradeDone once the first candidate found no match. */
  lemma {:induction false} SecondCandidate(w: World, c: seq<int>, p: Port, script: nat -> Reply, now: int)
    requires Table(w.orders) && p != Php && p != Node && BookCrosses(w, p)
    requires c == Candidates(LowestSell(w.orders, p).value, HighestBuy(w.orders, p).value) && |c| == 2
    requires var a := Attempt(w, c[0], p, script, now);
      NoMatch(a.1) && Table(a.0.orders) && Evolves(w.orders, a.0.orders) &&
      OpenCount(a.0.orders) <= OpenCount(w.orders) &&
      RunCandidates(a.0, c, 1, p, script, now).1 == Done
    ensures ReachesIdle(w, RunCandidates(Attempt(w, c[0], p, script, now).0, c, 1, p, script, now).0, p, script, now)
    decreases OpenCount(w.orders), 1
  {
    var a := Attempt(w, c[0], p, script, now);
    var b := Attempt(a.0, c[1], p, script, now);
    AttemptShrinks(a.0, c[1], p, script, now);
    CandidateStep(a.0, c, 1, p, script, now);
    EvolvesTransitive(w.orders, a.0.orders, b.0.orders);
    if b.1 == Traded {
      RunTradeDoneFrom(w, b.0, p, script, now);
    } else {
      CandidatesEnd(b.0, c, p, script, now);
      assert IdleRound(w, b.0, p, script, now);
      IdleHere(w, b.0, p, script, now);
    }
  }

  /** A crossing book starts a round over its two candidates. */
  lemma RoundStarts(w: World, p: Port, script: nat -> Reply, now: int)
    requires Table(w.orders) && BookCrosses(w, p)
    ensures var c := Candidates(LowestSell(w.orders, p).value, HighestBuy(w.orders, p).value);
      |c| == 2 && RunTrade(w, p, script, now) == RunCandidates(w, c, 0, p, script, now)
  {
  }

  /**
   * One candidate's turn outside PHP and Node: a trade returns the next
   * round, no match goes on to the next candidate, anything else stops.
   */
  lemma CandidateStep(w: World, cands: seq<int>, i: nat, p: Port, script: nat -> Reply, now: int)
    requires Table(w.orders) && i < |cands| && p != Php && p != Node
    ensures var a := Attempt(w, cands[i], p, script, now);
      Table(a.0.orders) &&
      (a.1 == Traded ==> RunCandidates(w, cands, i, p, script, now) == RunTrade(a.0, p, script, now)) &&
      (NoMatch(a.1) ==> RunCandidates(w, cands, i, p, script, now) == RunCandidates(a.0, cands, i + 1, p, script, now)) &&
      (a.1 != Traded && !NoMatch(a.1) ==> RunCandidates(w, cands, i, p, script, now) == (a.0, Stopped(a.1)))
  {
    AttemptShrinks(w, cands[i], p, script, now);
  }

  /** With every candidate tried, the round ends where it is. */
  lemma CandidatesEnd(w: World, cands: seq<int>, p: Port, script: nat -> Reply, now: int)
    requires Table(w.orders)
    ensures RunCandidates(w, cands, |cands|, p, script, now) == (w, Done)
  {
  }

  /** The induction step of RunTradeDone: a round that traded hands over to the next one. */
  lemma {:induction false} RunTradeDoneFrom(w: World, x: World, p: Port, script: nat -> Reply, now: int)
    requires Table(w.orders) && Table(x.orders) && Evolves(w.orders, x.orders) && p != Php && p != Node
    requires OpenCount(x.orders) < OpenCount(w.orders)
    requires RunTrade(x, p, script, now).1 == Done
    ensures ReachesIdle(w, RunTrade(x, p, script, now).0, p, script, now)
    decreases OpenCount(w.orders), 0
  {
    RunTradeDone(x, p, script, now);
    var v: World :| Table(v.orders) && Evolves(x.orders, v.orders) && IdleRound(v, RunTrade(x, p, script, now).0, p, script, now);
    EvolvesTransitive(w.orders, x.orders, v.orders);
  }

  /**
   * The candidate with the larger amount goes first; on equal amounts the
   * buy does.
   */
  lemma CandidatesOrder(lowest: Order, highest: Order)
    ensures var c := Candidates(lowest, highest);
      |c| == 2 && multiset(c) == multiset{lowest.id, highest.id} &&
      (c[0] == lowest.id && lowest.id != highest.id ==> lowest.amount > highest.amount)
  {
  }

  /** A transaction that fails is rolled back: the tables are as before it. */
  lemma AttemptRollsBack(w: World, id: int, p: Port, script: nat -> Reply, now: int)
    requires Table(w.orders)
    ensures var t := Attempt(w, id, p, script, now);
      (t.1 == Failure ==> t.0.orders == w.orders && t.0.trades == w.trades) &&
      (t.1 != Failure ==> t.0 == TryTrade(w, id, p, script, now).0)
  {
  }
}
