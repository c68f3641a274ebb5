// The bank (ISUBANK) as the exchange sees it: the requests the exchange
// sends, the reply each one gets, and which reservations are still held.
// What the bank answers is not fixed: `script(n)` is the answer the bank
// gives to the n-th request, so every theorem stated for an arbitrary
// script holds for every behaviour of the bank.
module Ledger {

  /**
   * An entry of a commit or cancel id list: a reservation id, or (Node port
   * only) the promise of a reservation that was never awaited, identified by
   * the number of the request it was made by.
   */
  datatype Ref = Rid(id: int) | Pending(call: nat)

  /** The four bank calls the exchange makes. Users are named by their id. */
  datatype Request =
    | CheckReq(userId: nat, price: int)
    | ReserveReq(userId: nat, price: int)
    | CommitReq(refs: seq<Ref>)
    | CancelReq(refs: seq<Ref>)

  /** Success, "credit is insufficient", "bank_id not found", anything else. */
  datatype Reply = Accepted | Insufficient | NoAccount | Broken

  /**
   * A promise serialises as `{}`, which the bank cannot decode as an
   * integer id list: such a commit or cancel is refused as unparsable.
   */
  predicate Malformed(req: Request)
  {
    (req.CommitReq? || req.CancelReq?) && exists r :: r in req.refs && r.Pending?
  }

  /**
   * The reply the exchange sees for `req` when the bank's own answer would
   * be `r`. Commit and cancel only ever fail with "already expired",
   * "already committed" or an internal error, never with a credit or
   * account error; a malformed body is refused.
   */
  function Answer(req: Request, r: Reply): (a: Reply)
    ensures Malformed(req) ==> a == Broken
    ensures (req.CommitReq? || req.CancelReq?) ==> a == Accepted || a == Broken
    ensures !Malformed(req) && (req.CheckReq? || req.ReserveReq?) ==> a == r
    ensures !Malformed(req) && r == Accepted ==> a == Accepted
  {
    if Malformed(req) then Broken
    else if (req.CommitReq? || req.CancelReq?) && r != Accepted then Broken
    else r
  }

  /** The reservation id the bank hands out for the n-th request. */
  function ReserveId(n: nat): int
  {
    n + 1
  }

  function RidsOf(refs: seq<Ref>): set<int>
  {
    set r | r in refs && r.Rid? :: r.id
  }

  /**
   * The reservations held after the requests `sent`: a successful reserve
   * adds its id, a successful commit or cancel removes the ids it names.
   */
  function Held(script: nat -> Reply, sent: seq<Request>): set<int>
    decreases |sent|
  {
    if sent == [] then {}
    else
      var n := |sent| - 1;
      var before := Held(script, sent[..n]);
      var req := sent[n];
      var a := Answer(req, script(n));
      match req
      case ReserveReq(_, _) => if a == Accepted then before + {ReserveId(n)} else before
      case CommitReq(refs) => if a == Accepted then before - RidsOf(refs) else before
      case CancelReq(refs) => if a == Accepted then before - RidsOf(refs) else before
      case CheckReq(_, _) => before
  }

  /** Every held reservation was handed out by one of the requests sent. */
  lemma {:induction false} HeldBounded(script: nat -> Reply, sent: seq<Request>)
    ensures forall id :: id in Held(script, sent) ==> 1 <= id <= |sent|
  {
    if sent != [] {
      HeldBounded(script, sent[..|sent| - 1]);
    }
  }

  /** One more request changes the held reservations as that request's reply says. */
  lemma HeldAppend(script: nat -> Reply, sent: seq<Request>, req: Request)
    ensures var a := Answer(req, script(|sent|));
      Held(script, sent + [req]) ==
        if req.ReserveReq? && a == Accepted then Held(script, sent) + {ReserveId(|sent|)}
        else if (req.CommitReq? || req.CancelReq?) && a == Accepted then Held(script, sent) - RidsOf(req.refs)
        else Held(script, sent)
  {
    assert (sent + [req])[..|sent|] == sent;
  }

  /** Cancelling reservations that were added to `h` leaves `h`. */
  lemma CancelRestores(h: set<int>, refs: seq<Ref>)
    requires forall r :: r in refs ==> r.Rid? && r.id !in h
    ensures (h + RidsOf(refs)) - RidsOf(refs) == h
  {
  }

  /** The requests sent so far, and the bank call that sends one more. */
  class Client {
    const script: nat -> Reply
    var sent: seq<Request>

    constructor (script: nat -> Reply)
      ensures this.script == script && sent == []
    {
      this.script := script;
      sent := [];
    }

    /** Sends `req`; the reply is the bank's answer to request number |sent|. */
    method Call(req: Request) returns (reply: Reply)
      modifies this
      ensures sent == old(sent) + [req]
      ensures reply == Answer(req, script(|old(sent)|))
    {
      reply := Answer(req, script(|sent|));
      sent := sent + [req];
    }
  }
}
