// The benchmarker's reader of the logger's records (bench/src/bench/isulog):
// each record has a tag and a JSON payload; the payload is decoded into the
// structure the tag names and validated, and the first record that fails
// stops the whole fetch.
module Isulog {
  import opened Common

  const TagSignup: string := "signup"
  const TagSignin: string := "signin"
  const TagBuyOrder: string := "buy.order"
  const TagSellOrder: string := "sell.order"
  const TagBuyError: string := "buy.error"
  const TagBuyDelete: string := "buy.delete"
  const TagSellDelete: string := "sell.delete"
  const TagTrade: string := "trade"
  const TagBuyTrade: string := "buy.trade"
  const TagSellTrade: string := "sell.trade"

  /**
   * A payload that decoded as a JSON object. Decoding into a structure
   * takes the fields it declares and leaves every field the object lacks
   * at its zero value, so one record of all the field names covers every
   * structure.
   */
  datatype Fields = Fields(
    name: string, bankId: string, userId: int, orderId: int,
    amount: int, price: int, error: string, tradeId: int, reason: string)

  datatype Signup = Signup(name: string, bankId: string, userId: int)
  datatype Signin = Signin(userId: int)
  datatype OrderData = OrderData(userId: int, orderId: int, amount: int, price: int)
  datatype BuyError = BuyError(userId: int, amount: int, price: int, error: string)
  datatype TradeData = TradeData(tradeId: int, amount: int, price: int)
  datatype OrderTrade = OrderTrade(tradeId: int, userId: int, orderId: int, amount: int, price: int)
  datatype OrderDelete = OrderDelete(orderId: int, userId: int, reason: string)

  // ---------------------------------------------------------------------
  // Validation: None when valid, otherwise the message of the first
  // check that fails.

  function ValidateSignup(d: Signup): (r: Option<string>)
    ensures r.None? <==> d.name != "" && d.bankId != "" && d.userId >= 1
    ensures d.name == "" ==> r == Some("name is empty.")
    ensures d.name != "" && d.bankId == "" ==> r == Some("bank_id is empty.")
    ensures d.name != "" && d.bankId != "" && d.userId < 1 ==> r == Some("user_id is must be upper than 1.")
  {
    if d.name == "" then Some("name is empty.")
    else if d.bankId == "" then Some("bank_id is empty.")
    else if d.userId < 1 then Some("user_id is must be upper than 1.")
    else None
  }

  function ValidateSignin(d: Signin): (r: Option<string>)
    ensures r.None? <==> d.userId >= 1
  {
    if d.userId < 1 then Some("user_id is must be upper than 1.") else None
  }

  function ValidateOrder(d: OrderData): (r: Option<string>)
    ensures r.None? <==> d.userId >= 1 && d.orderId >= 1 && d.amount >= 1 && d.price >= 1
    ensures d.userId < 1 ==> r == Some("user_id is must be upper than 1.")
  {
    if d.userId < 1 then Some("user_id is must be upper than 1.")
    else if d.orderId < 1 then Some("order_id is must be upper than 1.")
    else if d.amount < 1 then Some("amount is must be upper than 1.")
    else if d.price < 1 then Some("price is must be upper than 1.")
    else None
  }

  function ValidateBuyError(d: BuyError): (r: Option<string>)
    ensures r.None? <==> d.userId >= 1 && d.amount >= 1 && d.price >= 1 && d.error != ""
    ensures d.userId >= 1 && d.amount >= 1 && d.price >= 1 && d.error == "" ==> r == Some("error is empty.")
  {
    if d.userId < 1 then Some("user_id is must be upper than 1.")
    else if d.amount < 1 then Some("amount is must be upper than 1.")
    else if d.price < 1 then Some("price is must be upper than 1.")
    else if d.error == "" then Some("error is empty.")
    else None
  }

  function ValidateTrade(d: TradeData): (r: Option<string>)
    ensures r.None? <==> d.tradeId >= 1 && d.amount >= 1 && d.price >= 1
  {
    if d.tradeId < 1 then Some("trade_id is must be upper than 1.")
    else if d.amount < 1 then Some("amount is must be upper than 1.")
    else if d.price < 1 then Some("price is must be upper than 1.")
    else None
  }

  function ValidateOrderTrade(d: OrderTrade): (r: Option<string>)
    ensures r.None? <==> d.tradeId >= 1 && d.userId >= 1 && d.orderId >= 1 && d.amount >= 1 && d.price >= 1
  {
    if d.tradeId < 1 then Some("trade_id is must be upper than 1.")
    else if d.userId < 1 then Some("user_id is must be upper than 1.")
    else if d.orderId < 1 then Some("order_id is must be upper than 1.")
    else if d.amount < 1 then Some("amount is must be upper than 1.")
    else if d.price < 1 then Some("price is must be upper than 1.")
    else None
  }

  function ValidateOrderDelete(d: OrderDelete): (r: Option<string>)
    ensures r.None? <==> d.userId >= 1 && d.orderId >= 1 && (d.reason == "canceled" || d.reason == "reserve_failed")
    ensures d.userId < 1 ==> r == Some("user_id is must be upper than 1.")
  {
    if d.userId < 1 then Some("user_id is must be upper than 1.")
    else if d.orderId < 1 then Some("order_id is must be upper than 1.")
    else if d.reason != "canceled" && d.reason != "reserve_failed" then Some("reason is must be canceled or reserve_failed.")
    else None
  }

  // ---------------------------------------------------------------------
  // Records

  /** The typed payload a record carries once its tag has been dispatched on. */
  datatype Detail =
    | SignupDetail(signup: Signup)
    | SigninDetail(signin: Signin)
    | BuyOrderDetail(buyOrder: OrderData)
    | SellOrderDetail(sellOrder: OrderData)
    | BuyErrorDetail(buyError: BuyError)
    | BuyDeleteDetail(buyDelete: OrderDelete)
    | SellDeleteDetail(sellDelete: OrderDelete)
    | TradeDetail(trade: TradeData)
    | BuyTradeDetail(buyTrade: OrderTrade)
    | SellTradeDetail(sellTrade: OrderTrade)

  /** The tag a payload belongs under. */
  function TagOf(d: Detail): string
  {
    match d
    case SignupDetail(_) => TagSignup
    case SigninDetail(_) => TagSignin
    case BuyOrderDetail(_) => TagBuyOrder
    case SellOrderDetail(_) => TagSellOrder
    case BuyErrorDetail(_) => TagBuyError
    case BuyDeleteDetail(_) => TagBuyDelete
    case SellDeleteDetail(_) => TagSellDelete
    case TradeDetail(_) => TagTrade
    case BuyTradeDetail(_) => TagBuyTrade
    case SellTradeDetail(_) => TagSellTrade
  }

  predicate KnownTag(tag: string)
  {
    tag in {TagSignup, TagSignin, TagBuyOrder, TagSellOrder, TagBuyError,
            TagBuyDelete, TagSellDelete, TagTrade, TagBuyTrade, TagSellTrade}
  }

  /** The validation of whichever structure a payload is. */
  function ValidateDetail(d: Detail): Option<string>
  {
    match d
    case SignupDetail(x) => ValidateSignup(x)
    case SigninDetail(x) => ValidateSignin(x)
    case BuyOrderDetail(x) => ValidateOrder(x)
    case SellOrderDetail(x) => ValidateOrder(x)
    case BuyErrorDetail(x) => ValidateBuyError(x)
    case BuyDeleteDetail(x) => ValidateOrderDelete(x)
    case SellDeleteDetail(x) => ValidateOrderDelete(x)
    case TradeDetail(x) => ValidateTrade(x)
    case BuyTradeDetail(x) => ValidateOrderTrade(x)
    case SellTradeDetail(x) => ValidateOrderTrade(x)
  }

  /** Decoding a payload object into the structure a known tag names. */
  function Shape(tag: string, f: Fields): (d: Detail)
    requires KnownTag(tag)
    ensures TagOf(d) == tag
  {
    if tag == TagSignup then SignupDetail(Signup(f.name, f.bankId, f.userId))
    else if tag == TagSignin then SigninDetail(Signin(f.userId))
    else if tag == TagBuyOrder then BuyOrderDetail(OrderData(f.userId, f.orderId, f.amount, f.price))
    else if tag == TagSellOrder then SellOrderDetail(OrderData(f.userId, f.orderId, f.amount, f.price))
    else if tag == TagBuyError then BuyErrorDetail(BuyError(f.userId, f.amount, f.price, f.error))
    else if tag == TagBuyDelete then BuyDeleteDetail(OrderDelete(f.orderId, f.userId, f.reason))
    else if tag == TagSellDelete then SellDeleteDetail(OrderDelete(f.orderId, f.userId, f.reason))
    else if tag == TagTrade then TradeDetail(TradeData(f.tradeId, f.amount, f.price))
    else if tag == TagBuyTrade then BuyTradeDetail(OrderTrade(f.tradeId, f.userId, f.orderId, f.amount, f.price))
    else SellTradeDetail(OrderTrade(f.tradeId, f.userId, f.orderId, f.amount, f.price))
  }

  /** Why a fetch failed: an unknown tag, a payload that does not decode, or a payload that does not validate. */
  datatype LogError = UnknownTag(tag: string) | ParseFailed(tag: string) | ValidationFailed(tag: string, message: string)

  /** A record as received: its tag and its payload, None when the payload is not a decodable object. */
  datatype Entry = Entry(tag: string, data: Option<Fields>)

  /** What the fetch makes of one record. */
  function Decode(e: Entry): (r: Result<Detail, LogError>)
    ensures !KnownTag(e.tag) ==> r == Err(UnknownTag(e.tag))
    ensures KnownTag(e.tag) && e.data.None? ==> r == Err(ParseFailed(e.tag))
    ensures r.Ok? ==> TagOf(r.value) == e.tag && ValidateDetail(r.value).None?
    ensures KnownTag(e.tag) && e.data.Some? && ValidateDetail(Shape(e.tag, e.data.value)).None? ==>
      r == Ok(Shape(e.tag, e.data.value))
    ensures KnownTag(e.tag) && e.data.Some? && ValidateDetail(Shape(e.tag, e.data.value)).Some? ==>
      r == Err(ValidationFailed(e.tag, ValidateDetail(Shape(e.tag, e.data.value)).value))
    ensures r.Err? && r.error.ValidationFailed? ==>
      r.error.tag == e.tag && e.data.Some? && KnownTag(e.tag) &&
      ValidateDetail(Shape(e.tag, e.data.value)) == Some(r.error.message)
  {
    if !KnownTag(e.tag) then Err(UnknownTag(e.tag))
    else if e.data.None? then Err(ParseFailed(e.tag))
    else
      var d := Shape(e.tag, e.data.value);
      match ValidateDetail(d)
      case None => Ok(d)
      case Some(m) => Err(ValidationFailed(e.tag, m))
  }

  /** A freshly allocated structure: every field at its zero value. */
  const NoFields := Fields("", "", 0, 0, 0, 0, "", 0, "")

  /**
   * The payload a record's typed field holds after its turn. A known tag
   * sets the field to a fresh zero structure before decoding into it, so
   * the field is set whether the payload decodes or not, valid or not; an
   * unknown tag sets nothing.
   */
  function Filled(e: Entry): Option<Detail>
  {
    if KnownTag(e.tag) then Some(Shape(e.tag, if e.data.Some? then e.data.value else NoFields)) else None
  }

  /** The zero structure a failed decode leaves behind never passes validation. */
  lemma ZeroDetailInvalid(tag: string)
    requires KnownTag(tag)
    ensures ValidateDetail(Shape(tag, NoFields)).Some?
  {
  }

  /** A record that decodes has had its typed field filled with what it decoded to. */
  lemma DecodedIsFilled(e: Entry)
    requires Decode(e).Ok?
    ensures Filled(e) == Some(Decode(e).value)
  {
  }

  /** The index of the first record that fails, or the number of records when none does. */
  function Stop(es: seq<Entry>): (k: nat)
    ensures k <= |es|
    ensures forall i :: 0 <= i < k ==> Decode(es[i]).Ok?
    ensures k < |es| ==> Decode(es[k]).Err?
  {
    if es == [] then 0
    else if Decode(es[0]).Err? then 0
    else 1 + Stop(es[1..])
  }

  /** The outcome of a whole fetch: the error of the first failing record; none exactly when every record passes. */
  function FirstError(es: seq<Entry>): (r: Option<LogError>)
    ensures r.None? <==> forall i :: 0 <= i < |es| ==> Decode(es[i]).Ok?
  {
    if Stop(es) < |es| then Some(Decode(es[Stop(es)]).error) else None
  }

  /** The error a fetch reports comes from a record none of whose predecessors failed. */
  lemma FetchFailsAtFirst(es: seq<Entry>, i: nat)
    requires i < |es| && Decode(es[i]).Err? && forall j :: 0 <= j < i ==> Decode(es[j]).Ok?
    ensures FirstError(es) == Some(Decode(es[i]).error)
  {
    assert Stop(es) == i;
  }

  /** A record from the logger: its tag and payload are fixed, its typed field is filled in by the fetch. */
  class Log {
    const tag: string
    const data: Option<Fields>
    var detail: Option<Detail>

    constructor (tag: string, data: Option<Fields>)
      ensures this.tag == tag && this.data == data && detail.None?
    {
      this.tag := tag;
      this.data := data;
      detail := None;
    }

    function AsEntry(): Entry
    {
      Entry(tag, data)
    }

    /**
     * The record's typed field is set for a known tag: to the decoded
     * payload, or to the zero structure when the payload does not decode.
     */
    method FillDetail()
      modifies this
      ensures detail == (if Filled(AsEntry()).Some? then Filled(AsEntry()) else old(detail))
      ensures KnownTag(tag) && data.Some? ==> detail == Some(Shape(tag, data.value))
      ensures KnownTag(tag) && data.None? ==> detail == Some(Shape(tag, NoFields))
      ensures !KnownTag(tag) ==> detail == old(detail)
    {
      if KnownTag(tag) {
        detail := Some(Shape(tag, NoFields));
        if data.Some? {
          detail := Some(Shape(tag, data.value));
        }
      }
    }
  }

  function Entries(logs: seq<Log>): (es: seq<Entry>)
    ensures |es| == |logs|
    ensures forall i :: 0 <= i < |logs| ==> es[i] == logs[i].AsEntry()
  {
    if logs == [] then [] else [logs[0].AsEntry()] + Entries(logs[1..])
  }

  /** Record i's turn: its typed field is filled, and no other record changes. */
  method FillAt(logs: seq<Log>, i: nat)
    requires i < |logs| && forall a, b :: 0 <= a < b < |logs| ==> logs[a] != logs[b]
    modifies logs[i]
    ensures logs[i].detail == (if Filled(logs[i].AsEntry()).Some? then Filled(logs[i].AsEntry()) else old(logs[i].detail))
    ensures forall j :: 0 <= j < |logs| && j != i ==> logs[j].detail == old(logs[j].detail)
  {
    assert forall j :: 0 <= j < |logs| && j != i ==> logs[j] != logs[i];
    logs[i].FillDetail();
  }

  /**
   * fetchLogDetails: records are handled in order; a known tag's typed
   * field is set (Filled) before its payload is decoded, and the first
   * record that fails ends the fetch with its error, leaving the records
   * after it untouched. Records before the failing one all decode, so each of them
   * ends with its payload (DecodedIsFilled).
   */
  method FetchLogDetails(logs: seq<Log>) returns (err: Option<LogError>)
    requires forall i, j :: 0 <= i < j < |logs| ==> logs[i] != logs[j]
    modifies set l | l in logs
    ensures var es := Entries(logs);
      err == FirstError(es) &&
      forall j :: 0 <= j < |logs| ==>
        logs[j].detail == (if j <= Stop(es) && Filled(es[j]).Some? then Filled(es[j]) else old(logs[j].detail))
  {
    ghost var es := Entries(logs);
    var i := 0;
    while i < |logs|
      invariant 0 <= i <= Stop(es)
      invariant forall j :: 0 <= j < |logs| ==>
        logs[j].detail == (if j < i && Filled(es[j]).Some? then Filled(es[j]) else old(logs[j].detail))
    {
      FillAt(logs, i);
      var r := Decode(logs[i].AsEntry());
      if r.Err? {
        assert es[i] == logs[i].AsEntry();
        assert Stop(es) == i;
        return Some(r.error);
      }
      i := i + 1;
    }
    assert Stop(es) == |es|;
    err := None;
  }
}
