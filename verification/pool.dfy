/**
  The coordinator's pool of connected agents, `AgentManager._agents`: a Python
  list of WebSocket objects compared by identity.
 */
module Pool {
  import opened Wrappers

  /** The identity of one agent connection. */
  type Agent = nat

  /** The `HTTPException` raised when no agent is connected. */
  datatype HttpError = HttpError(statusCode: int, detail: string)

  /** `list.remove` raises `ValueError` for an absent element. */
  datatype PoolError = NotInPool

  const NoAgentStatus: int := 400
  const NoAgentDetail: string := "没有可用的代理连接"

  /** Each connection occurs at most once. */
  predicate NoDuplicates(pool: seq<Agent>)
  {
    forall i, j :: 0 <= i < j < |pool| ==> pool[i] != pool[j]
  }

  /** `add_agent`: append the connection to the pool. */
  function AddAgent(pool: seq<Agent>, a: Agent): (r: seq<Agent>)
    ensures a in r
    ensures |r| == |pool| + 1 && r[..|pool|] == pool && r[|pool|] == a
    ensures multiset(r) == multiset(pool) + multiset{a}
  {
    pool + [a]
  }

  /** A connection new to the pool keeps the pool free of duplicates. */
  lemma AddFreshKeepsNoDuplicates(pool: seq<Agent>, a: Agent)
    requires NoDuplicates(pool) && a !in pool
    ensures NoDuplicates(AddAgent(pool, a))
  {
  }

  /** The position of the first occurrence of `a`. */
  function IndexOf(pool: seq<Agent>, a: Agent): (i: nat)
    requires a in pool
    ensures i < |pool| && pool[i] == a
    ensures forall j :: 0 <= j < i ==> pool[j] != a
  {
    if pool[0] == a then 0 else 1 + IndexOf(pool[1..], a)
  }

  /**
    `remove_agent`, i.e. `list.remove`: drop the first occurrence of `a`,
    keeping the others in order; an absent connection raises.
   */
  function RemoveAgent(pool: seq<Agent>, a: Agent): (r: Result<seq<Agent>, PoolError>)
    ensures r.Err? <==> a !in pool
    ensures r.Ok? ==> |r.value| == |pool| - 1
    ensures r.Ok? ==> multiset(r.value) == multiset(pool) - multiset{a}
    ensures r.Ok? ==> exists i :: 0 <= i < |pool| && pool[i] == a && a !in pool[..i] && r.value == pool[..i] + pool[i + 1..]
  {
    if a !in pool then Err(NotInPool)
    else
      var i := IndexOf(pool, a);
      assert pool == pool[..i] + [a] + pool[i + 1..];
      assert a !in pool[..i];
      assert multiset(pool) == multiset(pool[..i]) + multiset{a} + multiset(pool[i + 1..]);
      Ok(pool[..i] + pool[i + 1..])
  }

  /**
    The guarded removal in the reader's `finally`: remove the connection if it
    is still pooled, otherwise do nothing.
   */
  function Evict(pool: seq<Agent>, a: Agent): (r: seq<Agent>)
    ensures a !in pool ==> r == pool
    ensures a in pool ==> multiset(r) == multiset(pool) - multiset{a} && |r| == |pool| - 1
    ensures NoDuplicates(pool) ==> a !in r && NoDuplicates(r)
    ensures forall b :: b != a ==> (b in r <==> b in pool)
  {
    if a in pool then
      var rest := RemoveAgent(pool, a).value;
      RemovalFacts(pool, a, rest);
      rest
    else pool
  }

  /** What dropping one occurrence of a pooled connection keeps. */
  lemma RemovalFacts(pool: seq<Agent>, a: Agent, rest: seq<Agent>)
    requires RemoveAgent(pool, a) == Ok(rest)
    ensures forall b :: b != a ==> (b in rest <==> b in pool)
    ensures NoDuplicates(pool) ==> a !in rest && NoDuplicates(rest)
  {
    var i :| 0 <= i < |pool| && pool[i] == a && a !in pool[..i] && rest == pool[..i] + pool[i + 1..];
    RemovalKeepsOthers(pool, i);
    if NoDuplicates(pool) {
      RemovalKeepsNoDuplicates(pool, i);
    }
  }

  /** Dropping position i keeps every element that differs from the dropped one. */
  lemma RemovalKeepsOthers(pool: seq<Agent>, i: nat)
    requires i < |pool|
    ensures forall b :: b != pool[i] ==> (b in pool[..i] + pool[i + 1..] <==> b in pool)
  {
    assert pool == pool[..i] + [pool[i]] + pool[i + 1..];
  }

  /** Dropping position i of a duplicate-free pool removes that element entirely and keeps the rest duplicate-free. */
  lemma RemovalKeepsNoDuplicates(pool: seq<Agent>, i: nat)
    requires i < |pool| && NoDuplicates(pool)
    ensures pool[i] !in pool[..i] + pool[i + 1..]
    ensures NoDuplicates(pool[..i] + pool[i + 1..])
  {
    var rest := pool[..i] + pool[i + 1..];
    forall x | 0 <= x < |rest|
      ensures rest[x] == pool[if x < i then x else x + 1]
    {
    }
    forall x, y | 0 <= x < y < |rest|
      ensures rest[x] != rest[y]
    {
      assert rest[x] == pool[if x < i then x else x + 1];
      assert rest[y] == pool[if y < i then y else y + 1];
    }
    forall x | 0 <= x < |rest|
      ensures rest[x] != pool[i]
    {
      assert rest[x] == pool[if x < i then x else x + 1];
    }
  }

  /** Evicting twice is the same as evicting once when each connection is pooled once. */
  lemma EvictIdempotent(pool: seq<Agent>, a: Agent)
    requires NoDuplicates(pool)
    ensures Evict(Evict(pool, a), a) == Evict(pool, a)
  {
  }

  /**
    `_get_agent`: an empty pool raises the 400 `HTTPException`; otherwise
    `random.choice`, modelled by an arbitrary `pick` folded onto a position.
   */
  function GetAgent(pool: seq<Agent>, pick: nat): (r: Result<Agent, HttpError>)
    ensures r.Err? <==> |pool| == 0
    ensures r.Err? ==> r.error == HttpError(NoAgentStatus, NoAgentDetail)
    ensures r.Ok? ==> r.value in pool
  {
    if |pool| == 0 then Err(HttpError(NoAgentStatus, NoAgentDetail))
    else Ok(pool[pick % |pool|])
  }

  /** Every pooled connection is the choice of some pick. */
  lemma GetAgentCanChooseAny(pool: seq<Agent>, a: Agent)
    requires a in pool
    ensures exists pick: nat :: GetAgent(pool, pick) == Ok(a)
  {
    var i :| 0 <= i < |pool| && pool[i] == a;
    assert GetAgent(pool, i) == Ok(a);
  }
}
