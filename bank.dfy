// The ISUBANK ledger server (blackbox/bank/main.go): users with a credit
// balance, the credit rows that make it up, and reservations of credit
// that expire five minutes after they are made. Requests are served one
// at a time; the clock is a parameter that never goes back.
module BankServer {
  import opened Common
  import Ledger

  /** A `user` row; its id is its position + 1. `credit` caches the sum of its credit rows. */
  datatype BankUser = BankUser(bankId: string, credit: int)

  /** A `credit` row: one change of a user's balance. */
  datatype CreditRow = CreditRow(userId: nat, amount: int)

  /** A `reserve` row; `isMinus` marks a debit, and only debits are checked against the balance. */
  datatype Reservation = Reservation(id: nat, userId: nat, amount: int, isMinus: bool, expireAt: int)

  /** What the server answers: `{}`, `{"reserve_id":n}`, or a status with `{"error":...}`. */
  datatype Response = Success | Reserved(reserveId: nat) | Failure(status: int, message: string)

  /** A reservation lives five minutes (time is counted in seconds). */
  const ReserveLifetime: int := 300

  const InsufficientMessage: string := "credit is insufficient"
  const NotFoundMessage: string := "bank_id not found"

  /**
   * The answer as the exchange's bank client reads it: the error text
   * "credit is insufficient" and "bank_id not found" are recognised, any
   * other failure is just an error.
   */
  function ReplyOf(r: Response): (a: Ledger.Reply)
    ensures a == Ledger.Accepted <==> !r.Failure?
    ensures a == Ledger.Insufficient <==> r.Failure? && r.message == InsufficientMessage
    ensures a == Ledger.NoAccount <==> r.Failure? && r.message == NotFoundMessage
  {
    if !r.Failure? then Ledger.Accepted
    else if r.message == InsufficientMessage then Ledger.Insufficient
    else if r.message == NotFoundMessage then Ledger.NoAccount
    else Ledger.Broken
  }

  // ---------------------------------------------------------------------
  // Sums over the tables

  /** `SELECT IFNULL(SUM(amount), 0) FROM credit WHERE user_id = u` */
  function UserSum(rows: seq<CreditRow>, u: nat): int
  {
    if rows == [] then 0
    else UserSum(rows[..|rows| - 1], u) + (if rows[|rows| - 1].userId == u then rows[|rows| - 1].amount else 0)
  }

  /** `SELECT IFNULL(SUM(amount), 0) FROM reserve WHERE user_id = u AND is_minus = 1 AND expire_at >= t` */
  function DebitSum(rs: seq<Reservation>, u: nat, t: int): int
  {
    if rs == [] then 0
    else
      var r := rs[|rs| - 1];
      DebitSum(rs[..|rs| - 1], u, t) + (if r.userId == u && r.isMinus && r.expireAt >= t then r.amount else 0)
  }

  /** The total of all of u's reservations among `rs`. */
  function AmountSum(rs: seq<Reservation>, u: nat): int
  {
    if rs == [] then 0
    else AmountSum(rs[..|rs| - 1], u) + (if rs[|rs| - 1].userId == u then rs[|rs| - 1].amount else 0)
  }

  /** The reservations whose id is in `ids`, in table order. */
  function Keep(rs: seq<Reservation>, ids: set<nat>): seq<Reservation>
  {
    if rs == [] then []
    else Keep(rs[..|rs| - 1], ids) + (if rs[|rs| - 1].id in ids then [rs[|rs| - 1]] else [])
  }

  /** `DELETE FROM reserve WHERE id IN (ids)` */
  function Drop(rs: seq<Reservation>, ids: set<nat>): seq<Reservation>
  {
    if rs == [] then []
    else Drop(rs[..|rs| - 1], ids) + (if rs[|rs| - 1].id !in ids then [rs[|rs| - 1]] else [])
  }

  /** A row the count query counts: its id is listed and, when a time is given, it has not expired. */
  predicate Hits(r: Reservation, ids: set<nat>, t: Option<int>)
  {
    r.id in ids && (t.None? || r.expireAt >= t.value)
  }

  /** `SELECT COUNT(id) FROM reserve WHERE id IN (ids) [AND expire_at >= t]` */
  function Count(rs: seq<Reservation>, ids: set<nat>, t: Option<int>): nat
  {
    if rs == [] then 0
    else Count(rs[..|rs| - 1], ids, t) + (if Hits(rs[|rs| - 1], ids, t) then 1 else 0)
  }

  /** The credit rows a commit writes: one per reservation, with its amount. */
  function RowsOf(rs: seq<Reservation>): (rows: seq<CreditRow>)
    ensures |rows| == |rs|
    ensures forall i :: 0 <= i < |rs| ==> rows[i] == CreditRow(rs[i].userId, rs[i].amount)
  {
    if rs == [] then [] else RowsOf(rs[..|rs| - 1]) + [CreditRow(rs[|rs| - 1].userId, rs[|rs| - 1].amount)]
  }

  /** The id of the user with bank id `b`: the first match, which is the only one. */
  function FindUser(users: seq<BankUser>, b: string): (r: Option<nat>)
    ensures r.Some? ==> 1 <= r.value <= |users| && users[r.value - 1].bankId == b
    ensures r.None? ==> forall i :: 0 <= i < |users| ==> users[i].bankId != b
  {
    if users == [] then None
    else if users[|users| - 1].bankId == b && FindUser(users[..|users| - 1], b).None? then Some(|users|)
    else FindUser(users[..|users| - 1], b)
  }

  // ---------------------------------------------------------------------
  // Lemmas about the sums

  lemma {:induction false} UserSumAppend(a: seq<CreditRow>, b: seq<CreditRow>, u: nat)
    ensures UserSum(a + b, u) == UserSum(a, u) + UserSum(b, u)
    decreases |b|
  {
    if b == [] {
      assert a + b == a;
    } else {
      var ab := a + b;
      assert ab[..|ab| - 1] == a + b[..|b| - 1];
      assert ab[|ab| - 1] == b[|b| - 1];
      UserSumAppend(a, b[..|b| - 1], u);
    }
  }

  /** The rows a commit writes add up, per user, to the committed reservations. */
  lemma {:induction false} RowsOfSum(rs: seq<Reservation>, u: nat)
    ensures UserSum(RowsOf(rs), u) == AmountSum(rs, u)
  {
    if rs != [] {
      var rows := RowsOf(rs);
      assert rows[..|rows| - 1] == RowsOf(rs[..|rs| - 1]);
      RowsOfSum(rs[..|rs| - 1], u);
    }
  }

  /** One more reservation adds its amount to the reserved sum when it is an unexpired debit of u. */
  lemma DebitSnoc(rs: seq<Reservation>, r: Reservation, u: nat, t: int)
    ensures DebitSum(rs + [r], u, t) == DebitSum(rs, u, t) + (if r.userId == u && r.isMinus && r.expireAt >= t then r.amount else 0)
  {
    assert (rs + [r])[..|rs|] == rs;
  }

  /** Deleting the rows `ids` takes exactly their debits out of the reserved sum. */
  lemma {:induction false} DebitSplit(rs: seq<Reservation>, ids: set<nat>, u: nat, t: int)
    ensures DebitSum(rs, u, t) == DebitSum(Keep(rs, ids), u, t) + DebitSum(Drop(rs, ids), u, t)
  {
    if rs != [] {
      var init := rs[..|rs| - 1];
      var r := rs[|rs| - 1];
      DebitSplit(init, ids, u, t);
      if r.id in ids {
        assert Keep(rs, ids) == Keep(init, ids) + [r] && Drop(rs, ids) == Drop(init, ids);
        DebitSnoc(Keep(init, ids), r, u, t);
      } else {
        assert Drop(rs, ids) == Drop(init, ids) + [r] && Keep(rs, ids) == Keep(init, ids);
        DebitSnoc(Drop(init, ids), r, u, t);
      }
    }
  }

  /**
   * Keep and Drop split the table: together they hold its rows, the kept
   * ones listed and the remaining ones not.
   */
  lemma {:induction false} KeepDropSplit(rs: seq<Reservation>, ids: set<nat>)
    ensures multiset(Keep(rs, ids)) + multiset(Drop(rs, ids)) == multiset(rs)
    ensures forall r :: r in Keep(rs, ids) ==> r in rs && r.id in ids
    ensures forall r :: r in Drop(rs, ids) ==> r in rs && r.id !in ids
  {
    if rs != [] {
      var init := rs[..|rs| - 1];
      KeepDropSplit(init, ids);
      assert rs == init + [rs[|rs| - 1]];
    }
  }

  /** Every row of a well-formed reserve table: a debit is negative, a credit positive. */
  predicate Signed(rs: seq<Reservation>)
  {
    forall i :: 0 <= i < |rs| ==> rs[i].amount != 0 && (rs[i].isMinus <==> rs[i].amount < 0)
  }

  /** As time passes, expired debits stop counting, so the reserved sum only grows. */
  lemma {:induction false} DebitMonotone(rs: seq<Reservation>, u: nat, t1: int, t2: int)
    requires Signed(rs) && t1 <= t2
    ensures DebitSum(rs, u, t1) <= DebitSum(rs, u, t2)
  {
    if rs != [] {
      DebitMonotone(rs[..|rs| - 1], u, t1, t2);
    }
  }

  /**
   * Reservations that are all unexpired at t add up to at least their
   * debits: the rest of them are credits.
   */
  lemma {:induction false} CommitCovers(rs: seq<Reservation>, u: nat, t: int)
    requires Signed(rs)
    requires forall i :: 0 <= i < |rs| ==> rs[i].expireAt >= t
    ensures AmountSum(rs, u) >= DebitSum(rs, u, t)
  {
    if rs != [] {
      CommitCovers(rs[..|rs| - 1], u, t);
    }
  }

  /** Ids strictly increase down the table, as auto-increment inserts leave them. */
  predicate Ascending(rs: seq<Reservation>)
  {
    forall i, j :: 0 <= i < j < |rs| ==> rs[i].id < rs[j].id
  }

  /** The ids of the rows the count query counts. */
  function Found(rs: seq<Reservation>, ids: set<nat>, t: Option<int>): (f: set<nat>)
    ensures f <= ids
  {
    if rs == [] then {}
    else Found(rs[..|rs| - 1], ids, t) + (if Hits(rs[|rs| - 1], ids, t) then {rs[|rs| - 1].id} else {})
  }

  /** Some row of the table has id x (and, when a time is given, has not expired at it). */
  predicate Names(rs: seq<Reservation>, x: nat, t: Option<int>)
  {
    exists r :: r in rs && r.id == x && (t.None? || r.expireAt >= t.value)
  }

  lemma {:induction false} FoundMeans(rs: seq<Reservation>, ids: set<nat>, t: Option<int>, x: nat)
    requires x in ids
    ensures x in Found(rs, ids, t) <==> Names(rs, x, t)
  {
    if rs != [] {
      var init := rs[..|rs| - 1];
      FoundMeans(init, ids, t, x);
      if Names(rs, x, t) && !Names(init, x, t) {
        var r :| r in rs && r.id == x && (t.None? || r.expireAt >= t.value);
        assert r !in init;
        assert r == rs[|rs| - 1];
      }
      if Names(init, x, t) {
        var r :| r in init && r.id == x && (t.None? || r.expireAt >= t.value);
        assert r in rs;
      }
    }
  }

  lemma {:induction false} FoundBelow(rs: seq<Reservation>, ids: set<nat>, t: Option<int>, bound: nat)
    requires forall i :: 0 <= i < |rs| ==> rs[i].id < bound
    ensures forall x :: x in Found(rs, ids, t) ==> x < bound
  {
    if rs != [] {
      FoundBelow(rs[..|rs| - 1], ids, t, bound);
    }
  }

  /** Ids are unique in the table, so the count is the number of distinct ids found. */
  lemma {:induction false} CountIsCard(rs: seq<Reservation>, ids: set<nat>, t: Option<int>)
    requires Ascending(rs)
    ensures Count(rs, ids, t) == |Found(rs, ids, t)|
  {
    if rs != [] {
      var init := rs[..|rs| - 1];
      CountIsCard(init, ids, t);
      FoundBelow(init, ids, t, rs[|rs| - 1].id);
    }
  }

  lemma {:induction false} SubsetCard(a: set<nat>, b: set<nat>)
    requires a <= b
    ensures |a| <= |b|
    ensures |a| == |b| ==> a == b
    decreases |b|
  {
    if b != {} {
      var m :| m in b;
      SubsetCard(a - {m}, b - {m});
      if m in a {
        assert a == (a - {m}) + {m};
        assert b == (b - {m}) + {m};
      } else {
        assert a - {m} == a;
      }
    }
  }

  /** The ids named in a request's list. */
  function Listed(ids: seq<nat>): set<nat>
  {
    set x | x in ids
  }

  /** A list of ids has no repeats. */
  predicate Distinct(ids: seq<nat>)
  {
    forall i, j :: 0 <= i < j < |ids| ==> ids[i] != ids[j]
  }

  lemma DistinctSnoc(s: seq<nat>, x: nat)
    ensures Distinct(s + [x]) <==> Distinct(s) && x !in s
  {
    var t := s + [x];
    if Distinct(t) {
      forall i, j | 0 <= i < j < |s| ensures s[i] != s[j] {
        assert t[i] == s[i] && t[j] == s[j];
      }
      forall k | 0 <= k < |s| ensures s[k] != x {
        assert t[k] == s[k] && t[|s|] == x;
      }
    }
  }

  lemma {:induction false} CardOfList(ids: seq<nat>)
    ensures |Listed(ids)| <= |ids|
    ensures |Listed(ids)| == |ids| <==> Distinct(ids)
  {
    if ids != [] {
      var init := ids[..|ids| - 1];
      var x := ids[|ids| - 1];
      assert ids == init + [x];
      CardOfList(init);
      DistinctSnoc(init, x);
      assert Listed(ids) == Listed(init) + {x};
      if x in init {
        assert Listed(ids) == Listed(init);
      }
    }
  }

  /** A passing count means the listed ids are distinct and each names a counted row. */
  lemma CountPasses(rs: seq<Reservation>, ids: seq<nat>, t: Option<int>)
    requires Ascending(rs) && Count(rs, Listed(ids), t) >= |ids|
    ensures Distinct(ids) && forall x :: x in ids ==> Names(rs, x, t)
  {
    var s := Listed(ids);
    CountIsCard(rs, s, t);
    CardOfList(ids);
    SubsetCard(Found(rs, s, t), s);
    forall x | x in ids ensures Names(rs, x, t) {
      assert x in s;
      FoundMeans(rs, s, t, x);
    }
  }

  /** Distinct listed ids that each name a counted row make the count pass. */
  lemma CountMet(rs: seq<Reservation>, ids: seq<nat>, t: Option<int>)
    requires Ascending(rs) && Distinct(ids) && forall x :: x in ids ==> Names(rs, x, t)
    ensures Count(rs, Listed(ids), t) >= |ids|
  {
    var s := Listed(ids);
    forall x | x in s ensures x in Found(rs, s, t) {
      FoundMeans(rs, s, t, x);
    }
    assert Found(rs, s, t) == s;
    CountIsCard(rs, s, t);
    CardOfList(ids);
  }

  /** The count never exceeds the length of the list. */
  lemma CountAtMost(rs: seq<Reservation>, ids: seq<nat>, t: Option<int>)
    requires Ascending(rs)
    ensures Count(rs, Listed(ids), t) <= |ids|
  {
    var s := Listed(ids);
    CountIsCard(rs, s, t);
    CardOfList(ids);
    SubsetCard(Found(rs, s, t), s);
  }

  /**
   * The count check of Commit (unexpired rows) and of Cancel (any rows)
   * passes exactly when the listed ids are distinct and each of them names
   * such a row.
   */
  lemma CountCheck(rs: seq<Reservation>, ids: seq<nat>, t: Option<int>)
    requires Ascending(rs)
    ensures Count(rs, Listed(ids), t) >= |ids| <==> Distinct(ids) && forall x :: x in ids ==> Names(rs, x, t)
    ensures Count(rs, Listed(ids), t) <= |ids|
  {
    CountAtMost(rs, ids, t);
    if Count(rs, Listed(ids), t) >= |ids| {
      CountPasses(rs, ids, t);
    } else if Distinct(ids) && forall x :: x in ids ==> Names(rs, x, t) {
      CountMet(rs, ids, t);
    }
  }

  /** Ids are unique in the table, so when each listed id names an unexpired row, every row it names is unexpired. */
  lemma LiveRows(rs: seq<Reservation>, ids: seq<nat>, t: int)
    requires Ascending(rs) && forall x :: x in ids ==> Names(rs, x, Some(t))
    ensures forall i :: 0 <= i < |rs| && rs[i].id in Listed(ids) ==> rs[i].expireAt >= t
  {
    forall i | 0 <= i < |rs| && rs[i].id in Listed(ids) ensures rs[i].expireAt >= t {
      assert rs[i].id in ids;
      var r' :| r' in rs && r'.id == rs[i].id && r'.expireAt >= t;
      var j :| 0 <= j < |rs| && rs[j] == r';
      assert i == j;
    }
  }

  /**
   * Once Commit's count of unexpired rows passes, the rows it reads back
   * are exactly one per listed id, so its second check ("reserve is
   * already committed") cannot fail when requests are served one at a time.
   */
  lemma CommitReadsBack(rs: seq<Reservation>, ids: seq<nat>, t: int)
    requires Ascending(rs) && Count(rs, Listed(ids), Some(t)) >= |ids|
    ensures |Keep(rs, Listed(ids))| == |ids|
  {
    CountLive(rs, Listed(ids), t);
    KeepCount(rs, Listed(ids));
    CountAtMost(rs, ids, None);
  }

  /** Rows unexpired at a time are among all rows, so passing the first count passes the second. */
  lemma {:induction false} CountLive(rs: seq<Reservation>, ids: set<nat>, t: int)
    ensures Count(rs, ids, Some(t)) <= Count(rs, ids, None)
  {
    if rs != [] {
      CountLive(rs[..|rs| - 1], ids, t);
    }
  }

  // ---------------------------------------------------------------------
  // The server

  /**
   * A well-formed reserve table: debits negative and credits positive, ids
   * ascending and below the next auto-increment value, every row naming
   * one of the n users.
   */
  predicate Booked(rs: seq<Reservation>, next: nat, n: nat)
  {
    1 <= next && Signed(rs) && Ascending(rs) && InRange(rs, next, n)
  }

  /** Every row has an id below `next` and names one of the n users. */
  predicate InRange(rs: seq<Reservation>, next: nat, n: nat)
  {
    forall i :: 0 <= i < |rs| ==> 1 <= rs[i].id < next && 1 <= rs[i].userId <= n
  }

  /** Every credit row names one of the n users. */
  predicate Owned(rows: seq<CreditRow>, n: nat)
  {
    forall i :: 0 <= i < |rows| ==> 1 <= rows[i].userId <= n
  }

  /** No user is overdrawn at time t: committed credit plus unexpired debit reservations is never negative. */
  ghost predicate Solvent(credits: seq<CreditRow>, rs: seq<Reservation>, t: int)
  {
    forall u: nat :: UserSum(credits, u) + DebitSum(rs, u, t) >= 0
  }

  /** Each user's stored credit is the sum of their credit rows, and every row names a user. */
  ghost predicate Balanced(users: seq<BankUser>, credits: seq<CreditRow>)
  {
    Owned(credits, |users|) &&
    forall i :: 0 <= i < |users| ==> users[i].credit == UserSum(credits, i + 1)
  }

  /** Bank ids are unique and the cache agrees with the user table. */
  ghost predicate Indexed(users: seq<BankUser>, cache: map<string, nat>)
  {
    (forall i, j :: 0 <= i < j < |users| ==> users[i].bankId != users[j].bankId) &&
    forall b :: b in cache ==> FindUser(users, b) == Some(cache[b])
  }

  class Bank {
    var users: seq<BankUser>
    var credits: seq<CreditRow>
    var reserves: seq<Reservation>
    /** The next auto-increment id of `reserve`. */
    var nextReserveId: nat
    /** The bank-id cache of filterBankID. */
    var cache: map<string, nat>
    /** The time of the latest request. */
    var clock: int

    /** What the server keeps true between requests. */
    ghost predicate Valid()
      reads this
    {
      Balanced(users, credits) && Indexed(users, cache) && Booked(reserves, nextReserveId, |users|) && Solvent(credits, reserves, clock)
    }

    constructor (now: int)
      ensures Valid() && clock == now
      ensures users == [] && credits == [] && reserves == [] && cache == map[]
    {
      users, credits, reserves, nextReserveId, cache, clock := [], [], [], 1, map[], now;
    }

    /** A request arrives at `now`; expiry only shrinks the reserved debits. */
    method Advance(now: int)
      requires Valid() && now >= clock
      modifies this
      ensures Valid() && clock == now
      ensures users == old(users) && credits == old(credits) && reserves == old(reserves)
      ensures nextReserveId == old(nextReserveId) && cache == old(cache)
    {
      forall u: nat ensures UserSum(credits, u) + DebitSum(reserves, u, now) >= 0 {
        DebitMonotone(reserves, u, clock, now);
      }
      clock := now;
    }

    /** POST /register: a new user with no credit; the bank id must be given and unused. */
    method Register(bankId: string, now: int) returns (r: Response)
      requires Valid() && now >= clock
      modifies this
      ensures Valid() && clock == now
      ensures bankId == "" ==> r == Failure(400, "bank_id is required")
      ensures bankId != "" && FindUser(old(users), bankId).Some? ==> r == Failure(400, "bank_id already exists")
      ensures r.Success? <==> bankId != "" && FindUser(old(users), bankId).None?
      ensures r.Success? ==> users == old(users) + [BankUser(bankId, 0)] && FindUser(users, bankId) == Some(|users|)
      ensures !r.Success? ==> users == old(users)
      ensures credits == old(credits) && reserves == old(reserves) && cache == old(cache)
    {
      Advance(now);
      if bankId == "" {
        return Failure(400, "bank_id is required");
      }
      if FindUser(users, bankId).Some? {
        return Failure(400, "bank_id already exists");
      }
      var before := users;
      users := users + [BankUser(bankId, 0)];
      assert users[..|users| - 1] == before;
      NoRowsOfNewUser(credits, |users|);
      forall b | b in cache ensures FindUser(users, b) == Some(cache[b]) {
        assert FindUser(before, b) == Some(cache[b]);
      }
      r := Success;
    }

    /**
     * filterBankID: an empty bank id is 400 and an unknown one 404; a known
     * one gives its user id, from the cache or from the table, and is then
     * cached.
     */
    method FilterBankId(bankId: string) returns (r: Result<nat, Response>)
      requires Indexed(users, cache)
      modifies this
      ensures Indexed(users, cache)
      ensures bankId == "" ==> r == Err(Failure(400, "bank_id is required"))
      ensures bankId != "" && FindUser(users, bankId).None? ==> r == Err(Failure(404, NotFoundMessage))
      ensures bankId != "" && FindUser(users, bankId).Some? ==> r == Ok(FindUser(users, bankId).value)
      ensures r.Ok? ==> cache == old(cache)[bankId := r.value]
      ensures r.Err? ==> cache == old(cache)
      ensures users == old(users) && credits == old(credits) && reserves == old(reserves)
      ensures nextReserveId == old(nextReserveId) && clock == old(clock)
    {
      if bankId == "" {
        return Err(Failure(400, "bank_id is required"));
      }
      if bankId in cache {
        return Ok(cache[bankId]);
      }
      var found := FindUser(users, bankId);
      if found.None? {
        return Err(Failure(404, NotFoundMessage));
      }
      cache := cache[bankId := found.value];
      r := Ok(found.value);
    }

    /** modifyCredit: append a credit row and set the user's credit to the sum of their rows. */
    method ModifyCredit(userId: nat, price: int)
      requires 1 <= userId <= |users| && Balanced(users, credits)
      modifies this
      ensures Balanced(users, credits)
      ensures credits == old(credits) + [CreditRow(userId, price)]
      ensures |users| == |old(users)|
      ensures forall i :: 0 <= i < |users| ==> users[i].bankId == old(users)[i].bankId
      ensures reserves == old(reserves) && nextReserveId == old(nextReserveId)
      ensures cache == old(cache) && clock == old(clock)
    {
      credits := credits + [CreditRow(userId, price)];
      assert credits[..|credits| - 1] == old(credits);
      users := users[userId - 1 := users[userId - 1].(credit := UserSum(credits, userId))];
    }

    /** POST /add_credit: a positive amount is added to a known user's balance. */
    method AddCredit(bankId: string, price: int, now: int) returns (r: Response)
      requires Valid() && now >= clock
      modifies this
      ensures Valid() && clock == now
      ensures price <= 0 ==> r == Failure(400, "price must be upper than 0")
      ensures price > 0 && bankId == "" ==> r == Failure(400, "bank_id is required")
      ensures price > 0 && bankId != "" && FindUser(old(users), bankId).None? ==> r == Failure(404, NotFoundMessage)
      ensures r.Success? <==> price > 0 && bankId != "" && FindUser(old(users), bankId).Some?
      ensures r.Success? ==> credits == old(credits) + [CreditRow(FindUser(old(users), bankId).value, price)]
      ensures !r.Success? ==> credits == old(credits)
      ensures reserves == old(reserves) && |users| == |old(users)|
    {
      Advance(now);
      if price <= 0 {
        return Failure(400, "price must be upper than 0");
      }
      var u := FilterBankId(bankId);
      if u.Err? {
        return u.error;
      }
      ghost var before := users;
      ModifyCredit(u.value, price);
      SameBankIdsIndexed(before, users, cache);
      assert Solvent(credits, reserves, clock) by {
        forall v: nat ensures UserSum(credits, v) + DebitSum(reserves, v, clock) >= 0 {
          UserSumSnoc(old(credits), CreditRow(u.value, price), v);
        }
      }
      r := Success;
    }

    /**
     * POST /check: does the user hold `price`? A negative price is 400, a
     * price of 0 succeeds once the user is known, and otherwise the answer
     * is insufficient credit exactly when the balance is below the price.
     * Only the cache changes.
     */
    method Check(appId: Option<string>, bankId: string, price: int, now: int) returns (r: Response)
      requires Valid() && now >= clock
      modifies this
      ensures Valid() && clock == now
      ensures appId.None? ==> r == Failure(403, "Authorization failed (no header)")
      ensures appId.Some? && price < 0 ==> r == Failure(400, "price must be upper 0")
      ensures appId.Some? && price >= 0 && bankId == "" ==> r == Failure(400, "bank_id is required")
      ensures appId.Some? && price >= 0 && bankId != "" && FindUser(users, bankId).None? ==>
        r == Failure(404, NotFoundMessage)
      ensures r.Success? <==> (appId.Some? && price >= 0 && bankId != "" && FindUser(users, bankId).Some? &&
        UserSum(credits, FindUser(users, bankId).value) >= price)
      ensures appId.Some? && price > 0 && bankId != "" && FindUser(users, bankId).Some? && !r.Success? ==>
        r == Failure(400, InsufficientMessage)
      ensures users == old(users) && credits == old(credits) && reserves == old(reserves)
    {
      Advance(now);
      if appId.None? {
        return Failure(403, "Authorization failed (no header)");
      }
      if price < 0 {
        return Failure(400, "price must be upper 0");
      }
      var u := FilterBankId(bankId);
      if u.Err? {
        return u.error;
      }
      assert users[u.value - 1].credit == UserSum(credits, u.value);
      if price == 0 {
        assert UserSum(credits, u.value) + DebitSum(reserves, u.value, clock) >= 0;
        NoDebitsAbove(reserves, u.value, clock);
        return Success;
      }
      if users[u.value - 1].credit < price {
        return Failure(400, InsufficientMessage);
      }
      r := Success;
    }

    /**
     * POST /reserve: a price of 0 is 400. A debit (negative price) is
     * refused as insufficient credit when the committed balance plus the
     * unexpired debits plus the price would be negative; a credit is never
     * checked. The new reservation expires five minutes from now.
     */
    method Reserve(appId: Option<string>, bankId: string, price: int, now: int) returns (r: Response)
      requires Valid() && now >= clock
      modifies this
      ensures Valid() && clock == now
      ensures appId.None? ==> r == Failure(403, "Authorization failed (no header)")
      ensures appId.Some? && price == 0 ==> r == Failure(400, "price is 0")
      ensures appId.Some? && price != 0 && bankId == "" ==> r == Failure(400, "bank_id is required")
      ensures appId.Some? && price != 0 && bankId != "" && FindUser(users, bankId).None? ==>
        r == Failure(404, NotFoundMessage)
      ensures r.Reserved? <==> (appId.Some? && price != 0 && bankId != "" && FindUser(users, bankId).Some? &&
        (price > 0 || UserSum(credits, FindUser(users, bankId).value) + DebitSum(old(reserves), FindUser(users, bankId).value, now) + price >= 0))
      ensures appId.Some? && price < 0 && bankId != "" && FindUser(users, bankId).Some? && !r.Reserved? ==>
        r == Failure(400, InsufficientMessage)
      ensures r.Reserved? ==>
        r.reserveId == old(nextReserveId) && nextReserveId == old(nextReserveId) + 1 &&
        reserves == old(reserves) + [Reservation(r.reserveId, FindUser(users, bankId).value, price, price < 0, now + ReserveLifetime)]
      ensures !r.Reserved? ==> reserves == old(reserves)
      ensures users == old(users) && credits == old(credits)
    {
      Advance(now);
      if appId.None? {
        return Failure(403, "Authorization failed (no header)");
      }
      if price == 0 {
        return Failure(400, "price is 0");
      }
      var u := FilterBankId(bankId);
      if u.Err? {
        return u.error;
      }
      r := ReserveFor(u.value, price);
    }

    /** The credit check of POST /reserve for a known user, then the insert when it passes. */
    method ReserveFor(userId: nat, price: int) returns (r: Response)
      requires Valid() && 1 <= userId <= |users| && price != 0
      modifies this
      ensures Valid()
      ensures r.Reserved? <==> (price > 0 || UserSum(credits, userId) + DebitSum(old(reserves), userId, clock) + price >= 0)
      ensures !r.Reserved? ==> r == Failure(400, InsufficientMessage) && reserves == old(reserves)
      ensures r.Reserved? ==>
        r.reserveId == old(nextReserveId) && nextReserveId == old(nextReserveId) + 1 &&
        reserves == old(reserves) + [Reservation(r.reserveId, userId, price, price < 0, clock + ReserveLifetime)]
      ensures users == old(users) && credits == old(credits) && cache == old(cache) && clock == old(clock)
    {
      if price < 0 {
        var fixed := UserSum(credits, userId);
        var reserved := DebitSum(reserves, userId, clock);
        if fixed + reserved + price < 0 {
          return Failure(400, InsufficientMessage);
        }
      }
      var id := Insert(userId, price);
      r := Reserved(id);
    }

    /** The INSERT of a reservation that passed its checks: it expires five minutes from now. */
    method Insert(userId: nat, price: int) returns (id: nat)
      requires Valid() && 1 <= userId <= |users| && price != 0
      requires price < 0 ==> UserSum(credits, userId) + DebitSum(reserves, userId, clock) + price >= 0
      modifies this
      ensures Valid()
      ensures id == old(nextReserveId) && nextReserveId == id + 1
      ensures reserves == old(reserves) + [Reservation(id, userId, price, price < 0, clock + ReserveLifetime)]
      ensures users == old(users) && credits == old(credits) && cache == old(cache) && clock == old(clock)
    {
      id := nextReserveId;
      var row := Reservation(id, userId, price, price < 0, clock + ReserveLifetime);
      ReserveKeepsValid(credits, reserves, row, nextReserveId, |users|, clock);
      reserves := reserves + [row];
      nextReserveId := nextReserveId + 1;
    }

    /** The loop of Commit that applies each selected reservation with modifyCredit, in table order. */
    method ApplyReservations(selected: seq<Reservation>)
      requires Balanced(users, credits) && InRange(selected, nextReserveId, |users|)
      modifies this
      ensures Balanced(users, credits)
      ensures credits == old(credits) + RowsOf(selected)
      ensures |users| == |old(users)|
      ensures forall i :: 0 <= i < |users| ==> users[i].bankId == old(users)[i].bankId
      ensures reserves == old(reserves) && nextReserveId == old(nextReserveId)
      ensures cache == old(cache) && clock == old(clock)
    {
      var k := 0;
      while k < |selected|
        invariant 0 <= k <= |selected|
        invariant credits == old(credits) + RowsOf(selected[..k])
        invariant |users| == |old(users)| && Balanced(users, credits)
        invariant forall i :: 0 <= i < |users| ==> users[i].bankId == old(users)[i].bankId
        invariant reserves == old(reserves) && nextReserveId == old(nextReserveId)
        invariant cache == old(cache) && clock == old(clock)
      {
        ModifyCredit(selected[k].userId, selected[k].amount);
        assert selected[..k + 1][..k] == selected[..k];
        k := k + 1;
      }
      assert selected[..k] == selected;
    }

    /**
     * The transaction of a commit that passed its count check: each listed
     * reservation, all unexpired, is applied with modifyCredit in table
     * order, then the listed reservations are deleted.
     */
    method Settle(listed: set<nat>)
      requires Valid() && forall i :: 0 <= i < |reserves| && reserves[i].id in listed ==> reserves[i].expireAt >= clock
      modifies this
      ensures Valid()
      ensures credits == old(credits) + RowsOf(Keep(old(reserves), listed))
      ensures reserves == Drop(old(reserves), listed)
      ensures |users| == |old(users)| && clock == old(clock)
    {
      var selected := Keep(reserves, listed);
      KeepRows(reserves, listed, nextReserveId, |users|, clock);
      ghost var credits0 := credits;
      ghost var users0 := users;
      ApplyReservations(selected);
      SettleKeepsValid(users0, users, cache, credits0, reserves, listed, clock, nextReserveId);
      reserves := Drop(reserves, listed);
    }

    /**
     * POST /commit: all or nothing. An empty list is 400; unless the listed
     * ids are distinct and each names an unexpired reservation the answer
     * is "reserve is already expired" and nothing changes; otherwise every
     * listed reservation is applied to its user's credit and deleted.
     */
    method Commit(appId: Option<string>, ids: seq<nat>, now: int) returns (r: Response)
      requires Valid() && now >= clock
      modifies this
      ensures Valid() && clock == now
      ensures ReplyOf(r) == Ledger.Accepted || ReplyOf(r) == Ledger.Broken
      ensures appId.None? ==> r == Failure(403, "Authorization failed (no header)")
      ensures appId.Some? && ids == [] ==> r == Failure(400, "reserve_ids is required")
      ensures r.Success? <==> (appId.Some? && ids != [] && Distinct(ids) &&
        forall x :: x in ids ==> Names(old(reserves), x, Some(now)))
      ensures appId.Some? && ids != [] && !r.Success? ==> r == Failure(400, "reserve is already expired")
      ensures r.Success? ==>
        credits == old(credits) + RowsOf(Keep(old(reserves), Listed(ids))) &&
        reserves == Drop(old(reserves), Listed(ids))
      ensures !r.Success? ==> credits == old(credits) && reserves == old(reserves)
      ensures |users| == |old(users)|
    {
      Advance(now);
      if appId.None? {
        return Failure(403, "Authorization failed (no header)");
      }
      if ids == [] {
        return Failure(400, "reserve_ids is required");
      }
      var listed := Listed(ids);
      CountCheck(reserves, ids, Some(now));
      if Count(reserves, listed, Some(now)) < |ids| {
        return Failure(400, "reserve is already expired");
      }
      LiveRows(reserves, ids, now);
      Settle(listed);
      r := Success;
    }

    /**
     * POST /cancel: an empty list is 400; unless the listed ids are
     * distinct and each names an existing reservation, expired or not, the
     * answer is "reserve is already committed"; otherwise they are deleted.
     * Credit is never touched.
     */
    method Cancel(appId: Option<string>, ids: seq<nat>, now: int) returns (r: Response)
      requires Valid() && now >= clock
      modifies this
      ensures Valid() && clock == now
      ensures ReplyOf(r) == Ledger.Accepted || ReplyOf(r) == Ledger.Broken
      ensures appId.None? ==> r == Failure(403, "Authorization failed (no header)")
      ensures appId.Some? && ids == [] ==> r == Failure(400, "reserve_ids is required")
      ensures r.Success? <==> (appId.Some? && ids != [] && Distinct(ids) &&
        forall x :: x in ids ==> Names(old(reserves), x, None))
      ensures appId.Some? && ids != [] && !r.Success? ==> r == Failure(400, "reserve is already committed")
      ensures r.Success? ==> reserves == Drop(old(reserves), Listed(ids))
      ensures !r.Success? ==> reserves == old(reserves)
      ensures credits == old(credits) && users == old(users)
    {
      Advance(now);
      if appId.None? {
        return Failure(403, "Authorization failed (no header)");
      }
      if ids == [] {
        return Failure(400, "reserve_ids is required");
      }
      var listed := Listed(ids);
      CountCheck(reserves, ids, None);
      if Count(reserves, listed, None) < |ids| {
        return Failure(400, "reserve is already committed");
      }
      CancelKeepsValid(credits, reserves, listed, clock, nextReserveId, |users|);
      reserves := Drop(reserves, listed);
      r := Success;
    }
  }

  /** One more credit row adds its amount to its user's sum. */
  lemma UserSumSnoc(rows: seq<CreditRow>, row: CreditRow, u: nat)
    ensures UserSum(rows + [row], u) == UserSum(rows, u) + (if row.userId == u then row.amount else 0)
  {
    assert (rows + [row])[..|rows|] == rows;
  }

  /** With no unexpired debits counted against them, a solvent user's sum is not negative. */
  lemma {:induction false} NoDebitsAbove(rs: seq<Reservation>, u: nat, t: int)
    requires Signed(rs)
    ensures DebitSum(rs, u, t) <= 0
  {
    if rs != [] {
      NoDebitsAbove(rs[..|rs| - 1], u, t);
    }
  }

  /** Changing balances only, position by position, keeps the bank-id index. */
  lemma SameBankIdsIndexed(a: seq<BankUser>, b: seq<BankUser>, cache: map<string, nat>)
    requires Indexed(a, cache)
    requires |a| == |b| && forall i :: 0 <= i < |a| ==> a[i].bankId == b[i].bankId
    ensures Indexed(b, cache)
  {
    forall x | x in cache ensures FindUser(b, x) == Some(cache[x]) {
      SameBankIds(a, b, x);
    }
  }

  /** A new reservation that passed the balance check keeps the table well formed and everyone solvent. */
  lemma ReserveKeepsValid(credits: seq<CreditRow>, rs: seq<Reservation>, row: Reservation, next: nat, n: nat, t: int)
    requires Booked(rs, next, n) && Solvent(credits, rs, t)
    requires row.id == next && 1 <= row.userId <= n && row.amount != 0 && (row.isMinus <==> row.amount < 0)
    requires row.expireAt >= t
    requires row.amount < 0 ==> UserSum(credits, row.userId) + DebitSum(rs, row.userId, t) + row.amount >= 0
    ensures Booked(rs + [row], next + 1, n) && Solvent(credits, rs + [row], t)
  {
    var rs' := rs + [row];
    assert rs'[..|rs|] == rs;
    forall i | 0 <= i < |rs'| ensures 1 <= rs'[i].id < next + 1 && 1 <= rs'[i].userId <= n {
      if i < |rs| {
        assert rs'[i] == rs[i];
      } else {
        assert rs'[i] == row;
      }
    }
    forall u: nat ensures UserSum(credits, u) + DebitSum(rs', u, t) >= 0 {
      assert DebitSum(rs', u, t) == DebitSum(rs, u, t) + (if u == row.userId && row.isMinus then row.amount else 0);
    }
  }

  /** A user appended to the table has no credit rows yet. */
  lemma {:induction false} NoRowsOfNewUser(rows: seq<CreditRow>, u: nat)
    requires forall i :: 0 <= i < |rows| ==> rows[i].userId < u
    ensures UserSum(rows, u) == 0
  {
    if rows != [] {
      NoRowsOfNewUser(rows[..|rows| - 1], u);
    }
  }

  /** Counting without an expiry condition counts exactly the kept rows. */
  lemma {:induction false} KeepCount(rs: seq<Reservation>, ids: set<nat>)
    ensures |Keep(rs, ids)| == Count(rs, ids, None)
  {
    if rs != [] {
      KeepCount(rs[..|rs| - 1], ids);
    }
  }

  /** Changing only balances keeps every bank id lookup. */
  lemma {:induction false} SameBankIds(a: seq<BankUser>, b: seq<BankUser>, x: string)
    requires |a| == |b| && forall i :: 0 <= i < |a| ==> a[i].bankId == b[i].bankId
    ensures FindUser(a, x) == FindUser(b, x)
  {
    if a != [] {
      SameBankIds(a[..|a| - 1], b[..|b| - 1], x);
    }
  }

  /** The rows kept by a filter on ids have every per-row property the table has. */
  lemma {:induction false} KeepRows(rs: seq<Reservation>, ids: set<nat>, next: nat, n: nat, t: int)
    requires Signed(rs) && InRange(rs, next, n)
    requires forall i :: 0 <= i < |rs| && rs[i].id in ids ==> rs[i].expireAt >= t
    ensures Signed(Keep(rs, ids)) && InRange(Keep(rs, ids), next, n)
    ensures forall i :: 0 <= i < |Keep(rs, ids)| ==> Keep(rs, ids)[i].expireAt >= t
  {
    if rs != [] {
      var init := rs[..|rs| - 1];
      assert forall i :: 0 <= i < |init| ==> init[i] == rs[i];
      KeepRows(init, ids, next, n, t);
    }
  }

  /** Every id left after a delete was below a bound that every id was below. */
  lemma {:induction false} DropBelow(rs: seq<Reservation>, ids: set<nat>, bound: nat)
    requires forall i :: 0 <= i < |rs| ==> rs[i].id < bound
    ensures forall i :: 0 <= i < |Drop(rs, ids)| ==> Drop(rs, ids)[i].id < bound
  {
    if rs != [] {
      var init := rs[..|rs| - 1];
      assert forall i :: 0 <= i < |init| ==> init[i] == rs[i];
      DropBelow(init, ids, bound);
    }
  }

  /** Deleting rows keeps the reserve table well formed. */
  lemma {:induction false} DropKeepsBooked(rs: seq<Reservation>, ids: set<nat>, next: nat, n: nat)
    requires Booked(rs, next, n)
    ensures Booked(Drop(rs, ids), next, n)
  {
    if rs != [] {
      var init := rs[..|rs| - 1];
      var r := rs[|rs| - 1];
      assert forall i :: 0 <= i < |init| ==> init[i] == rs[i];
      DropKeepsBooked(init, ids, next, n);
      if r.id !in ids {
        DropBelow(init, ids, r.id);
        assert Drop(rs, ids) == Drop(init, ids) + [r];
      }
    }
  }

  /** The state after a commit's credit rows are written and its reservations deleted is again a valid one. */
  lemma SettleKeepsValid(users0: seq<BankUser>, users: seq<BankUser>, cache: map<string, nat>,
                         credits0: seq<CreditRow>, rs: seq<Reservation>, listed: set<nat>, t: int, next: nat)
    requires Indexed(users0, cache) && Booked(rs, next, |users0|) && Solvent(credits0, rs, t)
    requires forall i :: 0 <= i < |rs| && rs[i].id in listed ==> rs[i].expireAt >= t
    requires |users| == |users0| && forall i :: 0 <= i < |users| ==> users[i].bankId == users0[i].bankId
    ensures Indexed(users, cache)
    ensures Booked(Drop(rs, listed), next, |users|)
    ensures Solvent(credits0 + RowsOf(Keep(rs, listed)), Drop(rs, listed), t)
  {
    SameBankIdsIndexed(users0, users, cache);
    CommitKeepsValid(credits0, rs, listed, t, next, |users|);
  }

  /**
   * Committing unexpired reservations (writing their credit rows, then
   * deleting them) keeps the reserve table well formed and everyone
   * solvent.
   */
  lemma CommitKeepsValid(credits0: seq<CreditRow>, rs: seq<Reservation>, listed: set<nat>, now: int, next: nat, n: nat)
    requires Booked(rs, next, n) && Solvent(credits0, rs, now)
    requires forall i :: 0 <= i < |rs| && rs[i].id in listed ==> rs[i].expireAt >= now
    ensures Solvent(credits0 + RowsOf(Keep(rs, listed)), Drop(rs, listed), now)
    ensures Booked(Drop(rs, listed), next, n)
  {
    var kept := Keep(rs, listed);
    KeepRows(rs, listed, next, n, now);
    forall u: nat ensures UserSum(credits0 + RowsOf(kept), u) + DebitSum(Drop(rs, listed), u, now) >= 0 {
      UserSumAppend(credits0, RowsOf(kept), u);
      RowsOfSum(kept, u);
      DebitSplit(rs, listed, u, now);
      CommitCovers(kept, u, now);
    }
    DropKeepsBooked(rs, listed, next, n);
  }

  /** Deleting reservations without touching credit keeps everyone solvent. */
  lemma CancelKeepsValid(credits: seq<CreditRow>, rs: seq<Reservation>, listed: set<nat>, t: int, next: nat, n: nat)
    requires Booked(rs, next, n) && Solvent(credits, rs, t)
    ensures Solvent(credits, Drop(rs, listed), t) && Booked(Drop(rs, listed), next, n)
  {
    KeepSigned(rs, listed);
    forall u: nat ensures UserSum(credits, u) + DebitSum(Drop(rs, listed), u, t) >= 0 {
      DebitSplit(rs, listed, u, t);
      NoDebitsAbove(Keep(rs, listed), u, t);
    }
    DropKeepsBooked(rs, listed, next, n);
  }

  /** The rows kept by a filter on ids are signed as the table's are. */
  lemma {:induction false} KeepSigned(rs: seq<Reservation>, ids: set<nat>)
    requires Signed(rs)
    ensures Signed(Keep(rs, ids))
  {
    if rs != [] {
      var init := rs[..|rs| - 1];
      assert forall i :: 0 <= i < |init| ==> init[i] == rs[i];
      KeepSigned(init, ids);
    }
  }
}
