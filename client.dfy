// The benchmarker's HTTP client of the exchange (bench/src/bench/client.go):
// how it shortens error bodies, and the checks it makes on the exchange's
// answers before trusting them. A reply is given here already decoded:
// `decoded` is None when its JSON body did not decode.
module BenchClient {
  import opened Common
  import Book

  // ---------------------------------------------------------------------
  // Error bodies

  /** unicode.IsSpace: the Latin-1 spaces and the other White_Space runes. */
  predicate IsSpace(c: char)
  {
    c == '\t' || c == '\n' || c == '\U{000B}' || c == '\U{000C}' || c == '\r' || c == ' '
    || c == '\U{0085}' || c == '\U{00A0}' || c == '\U{1680}'
    || ('\U{2000}' <= c <= '\U{200A}')
    || c == '\U{2028}' || c == '\U{2029}' || c == '\U{202F}' || c == '\U{205F}' || c == '\U{3000}'
  }

  predicate AllSpace(s: string)
  {
    forall i :: 0 <= i < |s| ==> IsSpace(s[i])
  }

  /** The first index from i on that does not hold a space, |s| when there is none. */
  function FirstNonSpace(s: string, i: nat): (k: nat)
    requires i <= |s|
    ensures i <= k <= |s|
    ensures forall x :: i <= x < k ==> IsSpace(s[x])
    ensures k < |s| ==> !IsSpace(s[k])
    decreases |s| - i
  {
    if i == |s| || !IsSpace(s[i]) then i else FirstNonSpace(s, i + 1)
  }

  /** The end of s[..j] once its trailing spaces are dropped. */
  function LastNonSpace(s: string, j: nat): (k: nat)
    requires j <= |s|
    ensures k <= j
    ensures forall x :: k <= x < j ==> IsSpace(s[x])
    ensures k > 0 ==> !IsSpace(s[k - 1])
  {
    if j == 0 || !IsSpace(s[j - 1]) then j else LastNonSpace(s, j - 1)
  }

  /** The leading spaces removed: a suffix of s that is empty or starts with a non-space. */
  function TrimLeft(s: string): (r: string)
    ensures |r| <= |s| && r == s[|s| - |r|..]
    ensures AllSpace(s[..|s| - |r|])
    ensures r == [] || !IsSpace(r[0])
  {
    var k := FirstNonSpace(s, 0);
    assert forall x :: 0 <= x < k ==> s[..k][x] == s[x];
    s[k..]
  }

  /** The trailing spaces removed: a prefix of s that is empty or ends with a non-space. */
  function TrimRight(s: string): (r: string)
    ensures |r| <= |s| && r == s[..|r|]
    ensures AllSpace(s[|r|..])
    ensures r == [] || !IsSpace(r[|r| - 1])
  {
    var k := LastNonSpace(s, |s|);
    assert forall x :: 0 <= x < |s| - k ==> s[k..][x] == s[k + x];
    s[..k]
  }

  /** strings.TrimSpace */
  function TrimSpace(s: string): string
  {
    TrimRight(TrimLeft(s))
  }

  /**
   * TrimSpace cuts s down to the slice between its leading and trailing
   * spaces, and that slice neither starts nor ends with a space.
   */
  lemma TrimSpaceSlice(s: string)
    ensures exists i, j :: (0 <= i <= j <= |s| && TrimSpace(s) == s[i..j]
      && AllSpace(s[..i]) && AllSpace(s[j..]))
    ensures TrimSpace(s) == [] || (!IsSpace(TrimSpace(s)[0]) && !IsSpace(TrimSpace(s)[|TrimSpace(s)| - 1]))
  {
    var l := TrimLeft(s);
    var r := TrimRight(l);
    var i := |s| - |l|;
    var j := i + |r|;
    assert r == s[i..j] by {
      assert l == s[i..];
    }
    assert AllSpace(s[j..]) by {
      assert AllSpace(l[|r|..]) && l[|r|..] == s[j..];
    }
    assert TrimSpace(s) == s[i..j] && AllSpace(s[..i]);
    if r != [] {
      assert r[0] == l[0];
    }
  }

  /** A string that neither starts nor ends with a space is its own trim. */
  lemma TrimSpaceTrimmed(s: string)
    requires s == [] || (!IsSpace(s[0]) && !IsSpace(s[|s| - 1]))
    ensures TrimSpace(s) == s
  {
  }

  /** TrimSpace is idempotent. */
  lemma TrimSpaceIdempotent(s: string)
    ensures TrimSpace(TrimSpace(s)) == TrimSpace(s)
  {
    TrimSpaceSlice(s);
    TrimSpaceTrimmed(TrimSpace(s));
  }

  /**
   * strings.ToLower on the runes that can lower-case into "<html": only
   * the ASCII capitals do.
   */
  function Lower(c: char): char
  {
    if 'A' <= c <= 'Z' then (c as int + 32) as char else c
  }

  /** s starts with "<html", letters compared case-insensitively. */
  predicate StartsHtml(s: string)
  {
    |s| >= 5 && s[0] == '<' && Lower(s[1]) == 'h' && Lower(s[2]) == 't'
    && Lower(s[3]) == 'm' && Lower(s[4]) == 'l'
  }

  /** strings.Index(strings.ToLower(s), "<html") > -1 */
  function ContainsHtml(s: string): (b: bool)
    ensures b <==> exists i :: 0 <= i < |s| && StartsHtml(s[i..])
  {
    if |s| < 5 then
      assert forall i :: 0 <= i < |s| ==> !StartsHtml(s[i..]);
      false
    else if StartsHtml(s) then
      assert StartsHtml(s[0..]);
      true
    else
      var b := ContainsHtml(s[1..]);
      assert forall i :: 1 <= i < |s| ==> s[1..][i - 1..] == s[i..];
      b
  }

  const BodyLimit: nat := 200

  /**
   * The body an ErrorWithStatus carries: trimmed; longer than 200 runes it
   * becomes "(html)" when it holds an HTML tag, else its first 200 runes
   * and "...".
   */
  function ErrorBody(body: string): (r: string)
    ensures |r| <= BodyLimit + 3
    ensures |TrimSpace(body)| <= BodyLimit ==> r == TrimSpace(body)
    ensures |TrimSpace(body)| > BodyLimit && ContainsHtml(TrimSpace(body)) ==> r == "(html)"
    ensures |TrimSpace(body)| > BodyLimit && !ContainsHtml(TrimSpace(body)) ==>
      |r| == BodyLimit + 3 && r[..BodyLimit] == TrimSpace(body)[..BodyLimit] && r[BodyLimit..] == "..."
  {
    var t := TrimSpace(body);
    if |t| > BodyLimit then
      if ContainsHtml(t) then "(html)" else t[..BodyLimit] + "..."
    else t
  }

  /** Whether a string starts with "<html" depends only on its first five characters. */
  lemma StartsHtmlSame(a: string, b: string)
    requires |a| >= 5 && |b| >= 5 && a[..5] == b[..5]
    ensures StartsHtml(a) == StartsHtml(b)
  {
    assert forall k :: 0 <= k < 5 ==> a[k] == a[..5][k] == b[..5][k] == b[k];
  }

  /** A cut-down body never holds an HTML tag: "..." cannot complete one. */
  lemma CutHasNoHtml(t: string)
    requires |t| > BodyLimit && !ContainsHtml(t)
    ensures !ContainsHtml(t[..BodyLimit] + "...")
  {
    var c := t[..BodyLimit] + "...";
    forall i | 0 <= i < |c|
      ensures !StartsHtml(c[i..])
    {
      if i + 5 <= BodyLimit {
        assert !StartsHtml(t[i..]);
        assert c[i..][..5] == t[i..][..5];
        StartsHtmlSame(c[i..], t[i..]);
      } else if i < BodyLimit {
        assert c[i..][BodyLimit - i] == '.';
        DotIsNoHtml(c[i..], BodyLimit - i);
      } else {
        assert |c[i..]| < 5;
      }
    }
  }

  /** A '.' among the first five characters rules out "<html". */
  lemma DotIsNoHtml(s: string, k: nat)
    requires k < 5 && k < |s| && s[k] == '.'
    ensures !StartsHtml(s)
  {
  }

  /**
   * Shortening a body already shortened changes nothing, so an error that
   * is wrapped again keeps its body.
   */
  lemma ErrorBodyIdempotent(body: string)
    ensures ErrorBody(ErrorBody(body)) == ErrorBody(body)
  {
    var t := TrimSpace(body);
    if |t| <= BodyLimit {
      TrimSpaceIdempotent(body);
      ShortIsKept(t);
    } else if ContainsHtml(t) {
      HtmlIsKept();
    } else {
      TrimSpaceSlice(body);
      CutIsKept(t);
    }
  }

  /** A trimmed body within the limit is left as it is. */
  lemma ShortIsKept(t: string)
    requires TrimSpace(t) == t && |t| <= BodyLimit
    ensures ErrorBody(t) == t
  {
  }

  /** The "(html)" placeholder is left as it is. */
  lemma HtmlIsKept()
    ensures ErrorBody("(html)") == "(html)"
  {
    TrimSpaceTrimmed("(html)");
    ShortIsKept("(html)");
  }

  /** A body cut to 200 runes and "..." is left as it is. */
  lemma CutIsKept(t: string)
    requires |t| > BodyLimit && !ContainsHtml(t) && !IsSpace(t[0])
    ensures ErrorBody(t[..BodyLimit] + "...") == t[..BodyLimit] + "..."
  {
    var c := t[..BodyLimit] + "...";
    assert c[0] == t[0];
    TrimSpaceTrimmed(c);
    CutHasNoHtml(t);
    assert c[..BodyLimit] + "..." == c;
  }

  /** The errors the client returns. */
  datatype Failure =
    | StatusFailure(message: string, status: int, body: string)
    | Failed(message: string)

  /** errorWithStatus */
  function ErrorWithStatus(message: string, status: int, body: string): (e: Failure)
    ensures e.StatusFailure? && e.message == message && e.status == status
    ensures e.body == ErrorBody(body)
  {
    StatusFailure(message, status, ErrorBody(body))
  }

  // ---------------------------------------------------------------------
  // The exchange's answers

  datatype User = User(id: int, name: string)
  datatype Trade = Trade(id: int, amount: int, price: int, createdAt: int)

  /**
   * An order as the exchange lists it. Times are instants on one integer
   * scale on which Go's zero time.Time is ZeroTime.
   */
  datatype Order = Order(
    id: int, kind: string, userId: int, amount: int, price: int,
    closedAt: Option<int>, tradeId: int, createdAt: int,
    user: Option<User>, trade: Option<Trade>)

  const ZeroTime: int := 0

  /** An order that was closed without a trade: cancelled or refused by the bank. */
  predicate Removed(o: Order)
  {
    o.closedAt.Some? && o.tradeId == 0
  }

  /** An HTTP answer: its status, its body, and the body decoded when it decodes. */
  datatype Reply<T> = Reply(status: int, body: string, decoded: Option<T>)

  datatype InfoResponse = InfoResponse(cursor: int, tradedOrders: seq<Order>)

  /** The first failing check testMyOrder makes on one order, given the previous created_at. */
  function OrderProblem(path: string, o: Order, userId: int, name: string, tc: int): Option<string>
  {
    if o.userId != userId then Some("GET " + path + " returned not my order")
    else if o.user.None? then Some("GET " + path + " returned not filled user")
    else if o.user.value.name != name then Some("GET " + path + " returned filled user.name is not my name")
    else if o.tradeId != 0 && o.trade.None? then Some("GET " + path + " returned not filled trade")
    else if o.createdAt < tc then Some("GET " + path + " sort order is must be created_at desc")
    else None
  }

  /** What testMyOrder answers for the orders after one created at tc. */
  function MyOrdersError(path: string, orders: seq<Order>, userId: int, name: string, tc: int): Option<string>
  {
    if orders == [] then None
    else match OrderProblem(path, orders[0], userId, name, tc)
      case Some(m) => Some(m)
      case None => MyOrdersError(path, orders[1..], userId, name, orders[0].createdAt)
  }

  /** An order that is the client's own with its user, and its trade when it has one, filled in. */
  predicate Mine(o: Order, userId: int, name: string)
  {
    o.userId == userId && o.user.Some? && o.user.value.name == name
    && (o.tradeId != 0 ==> o.trade.Some?)
  }

  /** Every order is the client's own, and created_at never decreases, starting from tc. */
  predicate MyOrders(orders: seq<Order>, userId: int, name: string, tc: int)
  {
    (forall i :: 0 <= i < |orders| ==> Mine(orders[i], userId, name))
    && (|orders| > 0 ==> tc <= orders[0].createdAt)
    && (forall i :: 0 < i < |orders| ==> orders[i - 1].createdAt <= orders[i].createdAt)
  }

  lemma {:induction false} MyOrdersErrorMeans(path: string, orders: seq<Order>, userId: int, name: string, tc: int)
    ensures MyOrdersError(path, orders, userId, name, tc).None? <==> MyOrders(orders, userId, name, tc)
    decreases |orders|
  {
    if orders != [] && OrderProblem(path, orders[0], userId, name, tc).None? {
      var rest := orders[1..];
      MyOrdersErrorMeans(path, rest, userId, name, orders[0].createdAt);
      assert forall i :: 0 < i < |orders| ==> orders[i] == rest[i - 1];
    }
  }

  /** The orders' answer fails at the first order that fails, with that order's problem. */
  lemma {:induction false} MyOrdersErrorFirst(path: string, orders: seq<Order>, userId: int, name: string, tc: int, k: nat)
    requires k < |orders|
    requires MyOrders(orders[..k], userId, name, tc)
    requires OrderProblem(path, orders[k], userId, name, if k == 0 then tc else orders[k - 1].createdAt).Some?
    ensures MyOrdersError(path, orders, userId, name, tc)
      == OrderProblem(path, orders[k], userId, name, if k == 0 then tc else orders[k - 1].createdAt)
    decreases k
  {
    if k > 0 {
      assert orders[..k][0] == orders[0];
      assert OrderProblem(path, orders[0], userId, name, tc).None?;
      var rest := orders[1..];
      assert rest[..k - 1] == orders[1..k];
      assert forall i :: 0 <= i < k - 1 ==> rest[i] == orders[i + 1];
      MyOrdersErrorFirst(path, rest, userId, name, orders[0].createdAt, k - 1);
      if k - 1 > 0 {
        assert rest[k - 2] == orders[k - 1];
      }
    }
  }

  /** The checks on POST /signin's answer: the client's own name and a non-zero id. */
  function SigninCheck(res: Reply<User>, name: string): (r: Result<int, Failure>)
    ensures r.Ok? <==> (res.status == 200 && res.decoded.Some?
      && res.decoded.value.name == name && res.decoded.value.id != 0)
    ensures r.Ok? ==> r.value == res.decoded.value.id
    ensures res.status != 200 ==> r == Err(ErrorWithStatus("POST /signin failed.", res.status, res.body))
  {
    if res.status != 200 then Err(ErrorWithStatus("POST /signin failed.", res.status, res.body))
    else match res.decoded
      case None => Err(Failed("POST /signin body decode failed"))
      case Some(u) =>
        if u.name != name then Err(Failed("POST /signin returned different name"))
        else if u.id == 0 then Err(Failed("POST /signin returned zero id"))
        else Ok(u.id)
  }

  /** The checks on POST /orders's answer: a non-zero id, echoed with the order asked for. */
  function AddOrderCheck(kind: string, amount: int, price: int, res: Reply<int>): (r: Result<Order, Failure>)
    ensures r.Ok? <==> res.status == 200 && res.decoded.Some? && res.decoded.value != 0
    ensures r.Ok? ==> (r.value.id == res.decoded.value && r.value.kind == kind
      && r.value.amount == amount && r.value.price == price)
    ensures r.Ok? ==> r.value.closedAt.None? && r.value.tradeId == 0 && !Removed(r.value)
    ensures res.status != 200 ==> r == Err(ErrorWithStatus("POST /orders failed.", res.status, res.body))
  {
    if res.status != 200 then Err(ErrorWithStatus("POST /orders failed.", res.status, res.body))
    else match res.decoded
      case None => Err(Failed("POST /orders body decode failed"))
      case Some(id) =>
        if id == 0 then Err(Failed("POST /orders failed. id is not returned"))
        else Ok(Order(id, kind, 0, amount, price, None, 0, ZeroTime, None, None))
  }

  /** The checks on DELETE /order/{id}'s answer: the id asked for comes back. */
  function DeleteOrderCheck(id: int, res: Reply<int>): (r: Option<Failure>)
    ensures r.None? <==> res.status == 200 && res.decoded == Some(id)
    ensures res.status != 200 ==> r == Some(ErrorWithStatus("DELETE /order failed.", res.status, res.body))
  {
    if res.status != 200 then Some(ErrorWithStatus("DELETE /order failed.", res.status, res.body))
    else match res.decoded
      case None => Some(Failed("DELETE /order body decode failed"))
      case Some(got) =>
        if got != id then Some(Failed("DELETE /order failed. id is not match requested value"))
        else None
  }

  // ---------------------------------------------------------------------
  // The client

  /** One investor's session: its name is fixed, its id is learnt at sign-in. */
  class Client {
    const name: string
    var userId: int

    constructor (name: string)
      ensures this.name == name && userId == 0
    {
      this.name := name;
      userId := 0;
    }

    /** Signin: a good answer stores the id it carries; a bad one leaves the client as it was. */
    method Signin(res: Reply<User>) returns (err: Option<Failure>)
      modifies this
      ensures SigninCheck(res, name).Ok? ==> err.None? && userId == SigninCheck(res, name).value
      ensures SigninCheck(res, name).Err? ==> err == Some(SigninCheck(res, name).error) && userId == old(userId)
    {
      var r := SigninCheck(res, name);
      if r.Ok? {
        userId := r.value;
        err := None;
      } else {
        err := Some(r.error);
      }
    }

    /**
     * testMyOrder: walks the orders keeping the last created_at seen, and
     * stops at the first one that is not the client's own or comes before
     * its predecessor.
     */
    method TestMyOrder(path: string, orders: seq<Order>) returns (err: Option<string>)
      ensures err == MyOrdersError(path, orders, userId, name, ZeroTime)
      ensures err.None? <==> MyOrders(orders, userId, name, ZeroTime)
    {
      MyOrdersErrorMeans(path, orders, userId, name, ZeroTime);
      var tc := ZeroTime;
      var i := 0;
      while i < |orders|
        invariant 0 <= i <= |orders|
        invariant MyOrdersError(path, orders, userId, name, ZeroTime)
          == MyOrdersError(path, orders[i..], userId, name, tc)
      {
        var p := OrderProblem(path, orders[i], userId, name, tc);
        if p.Some? {
          return p;
        }
        assert orders[i..][1..] == orders[i + 1..];
        tc := orders[i].createdAt;
        i := i + 1;
      }
      return None;
    }

    /** Info: a good answer has a non-zero cursor and only the client's own traded orders, in order. */
    method Info(res: Reply<InfoResponse>) returns (r: Result<InfoResponse, Failure>)
      ensures r.Ok? <==> (res.status == 200 && res.decoded.Some? && res.decoded.value.cursor != 0
        && MyOrders(res.decoded.value.tradedOrders, userId, name, ZeroTime))
      ensures r.Ok? ==> r.value == res.decoded.value
      ensures res.status != 200 ==> r == Err(ErrorWithStatus("GET /info failed.", res.status, res.body))
    {
      if res.status != 200 {
        return Err(ErrorWithStatus("GET /info failed.", res.status, res.body));
      }
      if res.decoded.None? {
        return Err(Failed("GET /info body decode failed"));
      }
      var info := res.decoded.value;
      if info.cursor == 0 {
        return Err(Failed("GET /info cursor is zero"));
      }
      if |info.tradedOrders| > 0 {
        var err := TestMyOrder("/info", info.tradedOrders);
        if err.Some? {
          return Err(Failed(err.value));
        }
      }
      return Ok(info);
    }

    /** GetOrders: a good answer lists only the client's own orders, in created_at order. */
    method GetOrders(res: Reply<seq<Order>>) returns (r: Result<seq<Order>, Failure>)
      ensures r.Ok? <==> (res.status == 200 && res.decoded.Some?
        && MyOrders(res.decoded.value, userId, name, ZeroTime))
      ensures r.Ok? ==> r.value == res.decoded.value
      ensures res.status != 200 ==> r == Err(ErrorWithStatus("GET /orders failed.", res.status, res.body))
    {
      if res.status != 200 {
        return Err(ErrorWithStatus("GET /orders failed.", res.status, res.body));
      }
      if res.decoded.None? {
        return Err(Failed("GET /orders body decode failed"));
      }
      var err := TestMyOrder("/orders", res.decoded.value);
      if err.Some? {
        return Err(Failed(err.value));
      }
      return Ok(res.decoded.value);
    }
  }

  // ---------------------------------------------------------------------
  // What the exchange sends

  /** The client's reading of an order the exchange serialised with its relations. */
  function FromView(v: Book.OrderView): Order
  {
    Order(v.order.id, Book.KindName(v.order.kind), v.order.userId, v.order.amount, v.order.price,
          v.order.closedAt, v.order.tradeId, v.order.createdAt,
          Some(User(v.user.id, v.user.name)),
          match v.trade
            case None => None
            case Some(t) => Some(Trade(t.id, t.amount, t.price, t.createdAt)))
  }

  /**
   * GET /orders as the exchange answers it (the user's orders with their
   * relations, on a port that orders them by created_at) passes every check
   * testMyOrder makes, and none of the orders it lists is a removed one.
   */
  lemma ExchangeOrdersPass(rows: seq<Book.Order>, userId: nat, p: Book.Port,
                           users: map<nat, Book.User>, trades: seq<Book.Trade>, views: seq<Book.OrderView>)
    requires p != Book.GoLegacy && p != Book.GoHandler
    requires |views| == |Book.OrdersOfUser(rows, userId, p)|
    requires forall i :: 0 <= i < |views| ==>
      Book.FetchOrderRelation(Book.OrdersOfUser(rows, userId, p)[i], users, trades) == Some(views[i])
    requires userId in users && users[userId].id == userId
    requires forall o :: o in rows ==> ZeroTime <= o.createdAt
    ensures MyOrders(seq(|views|, i requires 0 <= i < |views| => FromView(views[i])),
                     userId, users[userId].name, ZeroTime)
    ensures forall i :: 0 <= i < |views| ==> !Removed(FromView(views[i]))
  {
    var listed := Book.OrdersOfUser(rows, userId, p);
    Book.OrdersOfUserSpec(rows, userId, p);
    var os := seq(|views|, i requires 0 <= i < |views| => FromView(views[i]));
    forall i | 0 <= i < |views|
      ensures views[i].order == listed[i] && listed[i] in rows
    {
      assert listed[i] in listed;
    }
    forall i | 0 <= i < |views|
      ensures Mine(os[i], userId, users[userId].name) && !Removed(os[i])
    {
    }
  }
}
