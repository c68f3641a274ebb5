// The benchmark's manager (bench/src/bench/manager.go): it keeps the score
// and the list of errors, decides when too many errors end the run, hands
// out the prepared test users, and raises the load level as the score grows.
module BenchManager {
  import opened Common

  /** Errors tolerated whatever the score, and never tolerated beyond (const.go). */
  const AllowErrorMin: int := 20
  const AllowErrorMax: int := 50
  /** Investors started at each natural level-up. */
  const AddUsersOnNatural: nat := 2

  /** The error limit for a score: score/500, clamped to [AllowErrorMin, AllowErrorMax]. */
  function ErrorLimit(score: int): (limit: int)
    ensures AllowErrorMin <= limit <= AllowErrorMax
    ensures AllowErrorMin <= Quot(score, 500) <= AllowErrorMax ==> limit == Quot(score, 500)
    ensures Quot(score, 500) < AllowErrorMin ==> limit == AllowErrorMin
    ensures Quot(score, 500) > AllowErrorMax ==> limit == AllowErrorMax
  {
    var l := Quot(score, 500);
    if l < AllowErrorMin then AllowErrorMin
    else if l > AllowErrorMax then AllowErrorMax
    else l
  }

  /** TotalScore: each error costs score/(2·AllowErrorMax), truncated. */
  function Total(score: int, errorCount: nat): int
  {
    score - Quot(score, AllowErrorMax * 2) * errorCount
  }

  /**
   * Errors only lower a non-negative score, and as long as there are at
   * most AllowErrorMax of them at least half of it is kept.
   */
  lemma TotalBounds(score: int, errorCount: nat)
    requires score >= 0
    ensures Total(score, errorCount) <= score
    ensures errorCount <= AllowErrorMax ==> Total(score, errorCount) >= score - score / 2
    ensures errorCount == 0 ==> Total(score, errorCount) == score
  {
    var d := score / (AllowErrorMax * 2);
    assert d * errorCount >= 0;
    if errorCount <= AllowErrorMax {
      assert d * errorCount <= d * AllowErrorMax;
      assert d * AllowErrorMax <= score / 2;
    }
  }

  /** Each further error lowers the total by the same non-negative step. */
  lemma TotalMonotone(score: int, errorCount: nat)
    requires score >= 0
    ensures Total(score, errorCount + 1) <= Total(score, errorCount)
    ensures Total(score, errorCount) - Total(score, errorCount + 1) == score / (AllowErrorMax * 2)
  {
  }

  /** A prepared test user (testusers.go); Cost is how heavy its history is. */
  datatype TestUser = TestUser(bankId: string, name: string, pass: string, cost: int, orders: int, traded: int)

  /** Go's zero TestUser, returned when there is none left. */
  const NoTestUser: TestUser := TestUser("", "", "", 0, 0, 0)

  /** The index of the first user whose cost reaches `cost`, if any. */
  function FirstAtLeast(users: seq<TestUser>, cost: int): (k: Option<nat>)
    ensures k.Some? ==> (k.value < |users| && users[k.value].cost >= cost
      && forall i :: 0 <= i < k.value ==> users[i].cost < cost)
    ensures k.None? ==> forall i :: 0 <= i < |users| ==> users[i].cost < cost
  {
    if users == [] then None
    else if users[0].cost >= cost then Some(0)
    else match FirstAtLeast(users[1..], cost)
      case None => None
      case Some(k) => Some(k + 1)
  }

  function MaxCost(users: seq<TestUser>): (m: int)
    requires users != []
    ensures forall i :: 0 <= i < |users| ==> users[i].cost <= m
    ensures exists i :: 0 <= i < |users| && users[i].cost == m
  {
    if |users| == 1 then users[0].cost
    else
      var m := MaxCost(users[1..]);
      assert forall i :: 1 <= i < |users| ==> users[i] == users[1..][i - 1];
      if users[0].cost >= m then users[0].cost else m
  }

  /**
   * The index nextTestUser takes: the first user whose cost reaches
   * `cost`, lowering `cost` by one while no user does.
   */
  function NextIndex(users: seq<TestUser>, cost: int): (k: nat)
    requires users != []
    ensures k < |users|
    decreases cost - MaxCost(users)
  {
    match FirstAtLeast(users, cost)
      case Some(k) => k
      case None => NextIndex(users, cost - 1)
  }

  /**
   * The user taken is the first whose cost reaches the smaller of the
   * asked cost and the highest cost on the list.
   */
  lemma {:induction false} NextIndexIsFirst(users: seq<TestUser>, cost: int)
    requires users != []
    ensures var c := if cost <= MaxCost(users) then cost else MaxCost(users);
      users[NextIndex(users, cost)].cost >= c
      && forall i :: 0 <= i < NextIndex(users, cost) ==> users[i].cost < c
    decreases cost - MaxCost(users)
  {
    if FirstAtLeast(users, cost).None? {
      NextIndexIsFirst(users, cost - 1);
    }
  }

  /** The first user whose cost reaches `cost` is the one taken. */
  lemma NextIndexAt(users: seq<TestUser>, cost: int, k: nat)
    requires k < |users| && users[k].cost >= cost
    requires forall i :: 0 <= i < k ==> users[i].cost < cost
    ensures NextIndex(users, cost) == k
  {
    var j := FirstAtLeast(users, cost);
    assert j.Some? && j.value == k;
  }

  /** While no user reaches `cost`, the search goes on one lower. */
  lemma NextIndexLowers(users: seq<TestUser>, cost: int)
    requires users != [] && forall i :: 0 <= i < |users| ==> users[i].cost < cost
    ensures NextIndex(users, cost) == NextIndex(users, cost - 1)
  {
    assert FirstAtLeast(users, cost).None?;
  }

  /** The list with its k-th element taken out, the others kept in order. */
  function Without(users: seq<TestUser>, k: nat): (r: seq<TestUser>)
    requires k < |users|
    ensures |r| == |users| - 1
    ensures forall i :: 0 <= i < k ==> r[i] == users[i]
    ensures forall i :: k <= i < |r| ==> r[i] == users[i + 1]
  {
    users[..k] + users[k + 1..]
  }

  /** Taking a user out keeps every other user: the list shrinks by exactly that one. */
  lemma WithoutKeepsOthers(users: seq<TestUser>, k: nat)
    requires k < |users|
    ensures multiset(Without(users, k)) + multiset{users[k]} == multiset(users)
  {
    assert users == users[..k] + [users[k]] + users[k + 1..];
  }

  /** A running scenario, as far as the manager looks at it. */
  datatype Scenario = Scenario(bankId: string, retired: bool)

  function CountActive(scenarios: seq<Scenario>): (n: nat)
    ensures n <= |scenarios|
  {
    if scenarios == [] then 0
    else CountActive(scenarios[..|scenarios| - 1]) + if scenarios[|scenarios| - 1].retired then 0 else 1
  }

  /** Every scenario is active exactly when none has retired. */
  lemma {:induction false} CountActiveAll(scenarios: seq<Scenario>)
    ensures CountActive(scenarios) == |scenarios| <==> forall i :: 0 <= i < |scenarios| ==> !scenarios[i].retired
  {
    if scenarios != [] {
      var init := scenarios[..|scenarios| - 1];
      CountActiveAll(init);
      assert forall i :: 0 <= i < |init| ==> init[i] == scenarios[i];
    }
  }

  /** 2 to the power n: the level-up threshold is Pow2(level)·100. */
  function Pow2(n: nat): (p: nat)
    ensures p >= 1
  {
    if n == 0 then 1 else 2 * Pow2(n - 1)
  }

  lemma {:induction false} Pow2AboveLevel(n: nat)
    ensures Pow2(n) > n
  {
    if n > 0 {
      Pow2AboveLevel(n - 1);
    }
  }

  class Manager {
    var score: int
    var errors: seq<string>
    var overError: bool
    var level: nat
    var scenarios: seq<Scenario>
    var testusers: seq<TestUser>

    /**
     * Errors are only added through AppendError, which sets overError
     * when the count reaches a limit of at most AllowErrorMax.
     */
    ghost predicate Valid()
      reads this
    {
      !overError ==> |errors| < AllowErrorMax
    }

    constructor (testusers: seq<TestUser>)
      ensures Valid()
      ensures score == 0 && errors == [] && !overError && level == 0 && scenarios == []
      ensures this.testusers == testusers
    {
      score := 0;
      errors := [];
      overError := false;
      level := 0;
      scenarios := [];
      this.testusers := testusers;
    }

    method AddScore(s: int)
      modifies this
      requires Valid()
      ensures Valid()
      ensures score == old(score) + s
      ensures errors == old(errors) && overError == old(overError) && level == old(level)
      ensures scenarios == old(scenarios) && testusers == old(testusers)
    {
      score := score + s;
    }

    /**
     * AppendError: no error, no change. Otherwise the error is recorded,
     * and once the count reaches the score's limit the run is marked as
     * over the limit and an error is returned.
     */
    method AppendError(e: Option<string>) returns (err: Option<string>)
      modifies this
      requires Valid()
      ensures Valid()
      ensures e.None? ==> err.None? && errors == old(errors) && overError == old(overError)
      ensures e.Some? ==> errors == old(errors) + [e.value]
      ensures e.Some? ==> (err.Some? <==> ErrorLimit(score) <= |errors|)
      ensures e.Some? ==> overError == (old(overError) || ErrorLimit(score) <= |errors|)
      ensures score == old(score) && level == old(level)
      ensures scenarios == old(scenarios) && testusers == old(testusers)
    {
      if e.None? {
        return None;
      }
      errors := errors + [e.value];
      var limit := ErrorLimit(score);
      if limit <= |errors| {
        overError := true;
        return Some("too many errors");
      }
      return None;
    }

    /** TotalScore: never above a non-negative score, and at least half of it within AllowErrorMax errors. */
    function TotalScore(): (t: int)
      reads this
      ensures score >= 0 ==> t <= score
      ensures score >= 0 && |errors| <= AllowErrorMax ==> t >= score - score / 2
    {
      if score >= 0 then
        TotalBounds(score, |errors|);
        Total(score, |errors|)
      else Total(score, |errors|)
    }

    /** FinalScore: nothing once the errors went over the limit. */
    function FinalScore(): (f: int)
      reads this
      ensures overError ==> f == 0
      ensures !overError ==> f == TotalScore()
    {
      if overError then 0 else TotalScore()
    }

    /** A run that stayed within its error limit keeps at least half its score. */
    lemma FinalScoreAtLeastHalf()
      requires Valid() && score >= 0 && !overError
      ensures FinalScore() >= score - score / 2
    {
      TotalBounds(score, |errors|);
    }

    /** ActiveUsers: the number of scenarios that have not retired. */
    method ActiveUsers() returns (n: nat)
      ensures n == CountActive(scenarios)
    {
      n := 0;
      var i := 0;
      while i < |scenarios|
        invariant 0 <= i <= |scenarios|
        invariant n == CountActive(scenarios[..i])
      {
        assert scenarios[..i + 1][..i] == scenarios[..i];
        if !scenarios[i].retired {
          n := n + 1;
        }
        i := i + 1;
      }
      assert scenarios[..i] == scenarios;
    }

    /**
     * nextTestUser: the zero user when none is left; otherwise the first
     * user whose cost reaches `cost` (trying ever lower costs), taken off
     * the list.
     */
    method NextTestUser(cost: int) returns (tu: TestUser)
      modifies this
      ensures old(testusers) == [] ==> tu == NoTestUser && testusers == []
      ensures old(testusers) != [] ==>
        tu == old(testusers)[NextIndex(old(testusers), cost)]
        && testusers == Without(old(testusers), NextIndex(old(testusers), cost))
      ensures score == old(score) && errors == old(errors) && overError == old(overError)
      ensures level == old(level) && scenarios == old(scenarios)
      decreases if testusers == [] then 0 else cost - MaxCost(testusers)
    {
      if |testusers| == 0 {
        return NoTestUser;
      }
      var i := 0;
      while i < |testusers|
        invariant 0 <= i <= |testusers|
        invariant forall j :: 0 <= j < i ==> testusers[j].cost < cost
      {
        if testusers[i].cost >= cost {
          NextIndexAt(testusers, cost, i);
          tu := testusers[i];
          testusers := testusers[..i] + testusers[i + 1..];
          return;
        }
        i := i + 1;
      }
      NextIndexLowers(testusers, cost);
      tu := NextTestUser(cost - 1);
    }

    /**
     * The level-up loop of tickScenario: while the score reaches
     * 2^level·100 and there are at most AllowErrorMin errors, the level
     * rises and AddUsersOnNatural more investors are started.
     */
    method LevelUp() returns (started: nat)
      modifies this
      ensures level >= old(level)
      ensures forall l :: old(level) <= l < level ==> Pow2(l) * 100 <= score
      ensures score < Pow2(level) * 100 || |errors| > AllowErrorMin
      ensures |errors| > AllowErrorMin ==> level == old(level)
      ensures started == (level - old(level)) * AddUsersOnNatural
      ensures score == old(score) && errors == old(errors) && overError == old(overError)
      ensures scenarios == old(scenarios) && testusers == old(testusers)
    {
      started := 0;
      while true
        invariant level >= old(level)
        invariant forall l :: old(level) <= l < level ==> Pow2(l) * 100 <= score
        invariant |errors| > AllowErrorMin ==> level == old(level)
        invariant started == (level - old(level)) * AddUsersOnNatural
        invariant score == old(score) && errors == old(errors) && overError == old(overError)
        invariant scenarios == old(scenarios) && testusers == old(testusers)
        decreases score - level
      {
        if score < Pow2(level) * 100 {
          break;
        }
        if AllowErrorMin < |errors| {
          break;
        }
        Pow2AboveLevel(level);
        level := level + 1;
        started := started + AddUsersOnNatural;
      }
    }
  }
}
