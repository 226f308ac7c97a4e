/** Leases on named locks: the in-memory lock, the Redis lock, and the two of them side by side. */
module LeaseLock {
  import opened Wrappers

  datatype Name = Name(key: string)
  datatype Token = Token(hex: string)

  datatype Lease = Lease(token: Token, expires: real)

  type Leases = map<Name, Lease>

  function LiveOwner(held: Leases, key: Name, now: real): Option<Token> {
    if key !in held || held[key].expires <= now then None else Some(held[key].token)
  }

  /** What one call leaves behind, and whether it succeeded. */
  datatype Reply = Reply(held: Leases, success: bool)

  function Acquire(held: Leases, key: Name, ttl: int, token: Token, now: real): Reply {
    if LiveOwner(held, key, now).Some? then Reply(held, false)
    else Reply(held[key := Lease(token, now + ttl as real)], true)
  }

  function Renew(held: Leases, key: Name, ttl: int, token: Token, now: real): Reply {
    if LiveOwner(held, key, now) != Some(token) then Reply(held, false)
    else Reply(held[key := Lease(token, now + ttl as real)], true)
  }

  /** The in-memory lock compares tokens only: it also releases a lease that has lapsed. */
  function Release(held: Leases, key: Name, token: Token): Reply {
    if key in held && held[key].token == token then Reply(held - {key}, true) else Reply(held, false)
  }

  class InMemoryDistributedLock {
    var held: Leases

    constructor ()
      ensures held == map[]
    {
      held := map[];
    }

    /** `drawn` is the token generated for this call; it is returned when the lock was free. */
    method TryAcquire(key: Name, ttl: int, drawn: Token, now: real) returns (token: Option<Token>)
      modifies this
      ensures Reply(held, token.Some?) == Acquire(old(held), key, ttl, drawn, now)
      ensures token.Some? ==> token == Some(drawn)
      ensures token.Some? && ttl >= 1 ==> LiveOwner(held, key, now) == token
    {
      if key in held && !(held[key].expires <= now) {
        return None;
      }
      held := held[key := Lease(drawn, now + ttl as real)];
      return Some(drawn);
    }

    method TryRenew(key: Name, token: Token, ttl: int, now: real) returns (ok: bool)
      modifies this
      ensures Reply(held, ok) == Renew(old(held), key, ttl, token, now)
    {
      if !(key in held && !(held[key].expires <= now) && held[key].token == token) {
        return false;
      }
      held := held[key := Lease(token, now + ttl as real)];
      return true;
    }

    method TryRelease(key: Name, token: Token) returns (ok: bool)
      modifies this
      ensures Reply(held, ok) == Release(old(held), key, token)
    {
      if key in held && held[key].token == token {
        held := held - {key};
        return true;
      }
      return false;
    }
  }

  // ----- Redis: the key is gone once it has expired -----

  function WholeTtl(ttl: int): int {
    if ttl > 1 then ttl else 1
  }

  /** SET NX PX, compare-and-expire, compare-and-delete, each on the live key only. */
  function RedisAcquire(held: Leases, key: Name, ttl: int, token: Token, now: real): Reply {
    if LiveOwner(held, key, now).Some? then Reply(held, false)
    else Reply(held[key := Lease(token, now + WholeTtl(ttl) as real)], true)
  }

  function RedisRenew(held: Leases, key: Name, ttl: int, token: Token, now: real): Reply {
    if LiveOwner(held, key, now) != Some(token) then Reply(held, false)
    else Reply(held[key := Lease(token, now + WholeTtl(ttl) as real)], true)
  }

  function RedisRelease(held: Leases, key: Name, token: Token, now: real): Reply {
    if LiveOwner(held, key, now) == Some(token) then Reply(held - {key}, true) else Reply(held, false)
  }

  class RedisDistributedLock {
    var keys: Leases

    constructor ()
      ensures keys == map[]
    {
      keys := map[];
    }

    method TryAcquire(key: Name, ttl: int, drawn: Token, now: real) returns (token: Option<Token>)
      modifies this
      ensures Reply(keys, token.Some?) == RedisAcquire(old(keys), key, ttl, drawn, now)
      ensures token.Some? ==> token == Some(drawn) == LiveOwner(keys, key, now)
    {
      if key in keys && now < keys[key].expires {
        return None;
      }
      keys := keys[key := Lease(drawn, now + WholeTtl(ttl) as real)];
      return Some(drawn);
    }

    method TryRenew(key: Name, token: Token, ttl: int, now: real) returns (ok: bool)
      modifies this
      ensures Reply(keys, ok) == RedisRenew(old(keys), key, ttl, token, now)
    {
      if key in keys && now < keys[key].expires && keys[key].token == token {
        keys := keys[key := Lease(token, now + WholeTtl(ttl) as real)];
        return true;
      }
      return false;
    }

    method TryRelease(key: Name, token: Token, now: real) returns (ok: bool)
      modifies this
      ensures Reply(keys, ok) == RedisRelease(old(keys), key, token, now)
    {
      if key in keys && now < keys[key].expires && keys[key].token == token {
        keys := keys - {key};
        return true;
      }
      return false;
    }
  }

  // ----- stale tokens -----

  /** A token that does not own the lock can neither renew nor release it, in either realisation. */
  lemma StaleTokenIsHarmless(held: Leases, key: Name, ttl: int, token: Token, now: real)
    requires LiveOwner(held, key, now).Some? && LiveOwner(held, key, now) != Some(token)
    ensures Renew(held, key, ttl, token, now) == Reply(held, false) == Release(held, key, token)
    ensures RedisRenew(held, key, ttl, token, now) == Reply(held, false) == RedisRelease(held, key, token, now)
    ensures Acquire(held, key, ttl, token, now) == Reply(held, false) == RedisAcquire(held, key, ttl, token, now)
  {
  }

  /** A release by the owner frees the lock at once for the next one, and touches no other lock. */
  lemma ReleaseHandsOver(held: Leases, key: Name, ttl: int, owner: Token, next: Token, now: real)
    requires LiveOwner(held, key, now) == Some(owner) && ttl >= 1
    ensures var freed := Release(held, key, owner);
            freed == RedisRelease(held, key, owner, now) && freed.success &&
            LiveOwner(Acquire(freed.held, key, ttl, next, now).held, key, now) == Some(next) &&
            LiveOwner(RedisAcquire(freed.held, key, ttl, next, now).held, key, now) == Some(next) &&
            forall other :: other != key ==> LiveOwner(freed.held, other, now) == LiveOwner(held, other, now)
  {
  }

  // ----- how long a lease lasts -----

  /** A granted or renewed lease is live for its lifetime and not longer; Redis grants at least a second. */
  lemma LeaseLasts(held: Leases, key: Name, ttl: int, token: Token, now: real, later: real)
    requires now <= later
    ensures Acquire(held, key, ttl, token, now).success ==>
              (LiveOwner(Acquire(held, key, ttl, token, now).held, key, later) == Some(token) <==>
               later < now + ttl as real)
    ensures Renew(held, key, ttl, token, now).success ==>
              (LiveOwner(Renew(held, key, ttl, token, now).held, key, later) == Some(token) <==>
               later < now + ttl as real)
    ensures RedisAcquire(held, key, ttl, token, now).success ==>
              (LiveOwner(RedisAcquire(held, key, ttl, token, now).held, key, later) == Some(token) <==>
               later < now + ttl as real || later < now + 1.0)
    ensures RedisRenew(held, key, ttl, token, now).success ==>
              (LiveOwner(RedisRenew(held, key, ttl, token, now).held, key, later) == Some(token) <==>
               later < now + ttl as real || later < now + 1.0)
  {
  }

  // ----- side by side -----

  datatype Op =
    | AcquireOp(key: Name, ttl: int, token: Token)
    | RenewOp(key: Name, ttl: int, token: Token)
    | ReleaseOp(key: Name, token: Token)

  datatype Timed = Timed(now: real, op: Op)

  function MemoryReply(held: Leases, c: Timed): Reply {
    match c.op
    case AcquireOp(key, ttl, token) => Acquire(held, key, ttl, token, c.now)
    case RenewOp(key, ttl, token) => Renew(held, key, ttl, token, c.now)
    case ReleaseOp(key, token) => Release(held, key, token)
  }

  function RedisReply(held: Leases, c: Timed): Reply {
    match c.op
    case AcquireOp(key, ttl, token) => RedisAcquire(held, key, ttl, token, c.now)
    case RenewOp(key, ttl, token) => RedisRenew(held, key, ttl, token, c.now)
    case ReleaseOp(key, token) => RedisRelease(held, key, token, c.now)
  }

  function MemoryRun(calls: seq<Timed>): Leases {
    if calls == [] then map[] else MemoryReply(MemoryRun(calls[..|calls| - 1]), calls[|calls| - 1]).held
  }

  function RedisRun(calls: seq<Timed>): Leases {
    if calls == [] then map[] else RedisReply(RedisRun(calls[..|calls| - 1]), calls[|calls| - 1]).held
  }

  ghost predicate Ordered(calls: seq<Timed>, now: real) {
    (forall i, j :: 0 <= i < j < |calls| ==> calls[i].now <= calls[j].now) &&
    (forall i :: 0 <= i < |calls| ==> calls[i].now <= now)
  }

  /** The lifetimes asked for on one lock are at least a second. */
  ghost predicate LongEnough(calls: seq<Timed>, key: Name) {
    forall i :: 0 <= i < |calls| && calls[i].op.key == key ==> Lasting(calls[i].op)
  }

  predicate Lasting(op: Op) {
    !op.ReleaseOp? ==> op.ttl >= 1
  }

  /** From `now` on a lock has the same live lease in both. */
  ghost predicate SameLease(m: Leases, r: Leases, key: Name, now: real) {
    LiveOwner(m, key, now).Some? || LiveOwner(r, key, now).Some? ==> key in m && key in r && m[key] == r[key]
  }

  /** A call on this lock, or on any other one. */
  lemma SameLeaseStep(m: Leases, r: Leases, c: Timed, key: Name)
    requires SameLease(m, r, key, c.now) && (c.op.key == key ==> Lasting(c.op))
    ensures SameLease(MemoryReply(m, c).held, RedisReply(r, c).held, key, c.now)
    ensures c.op.key == key ==>
              (MemoryReply(m, c).success != RedisReply(r, c).success <==>
               c.op.ReleaseOp? && key in m && m[key].token == c.op.token && m[key].expires <= c.now)
  {
    assert LiveOwner(m, key, c.now) == LiveOwner(r, key, c.now);
  }

  lemma {:induction false} SameLeaseOnRuns(calls: seq<Timed>, key: Name, now: real)
    requires Ordered(calls, now) && LongEnough(calls, key)
    ensures SameLease(MemoryRun(calls), RedisRun(calls), key, now)
    decreases |calls|
  {
    if calls != [] {
      var front, last := calls[..|calls| - 1], calls[|calls| - 1];
      SameLeaseOnRuns(front, key, last.now);
      SameLeaseStep(MemoryRun(front), RedisRun(front), last, key);
    }
  }

  /** After the same calls, in which the lifetimes on a lock are at least a second, both realisations have the same
      owner of that lock at every later instant, and the next call on it is answered alike, except that only the
      in-memory lock reports success for releasing a lease that has lapsed. Calls on other locks are arbitrary. */
  lemma SameOwner(calls: seq<Timed>, now: real, next: Op)
    requires Ordered(calls, now) && LongEnough(calls, next.key) && Lasting(next)
    ensures var m, r, key := MemoryRun(calls), RedisRun(calls), next.key;
            LiveOwner(m, key, now) == LiveOwner(r, key, now) &&
            (MemoryReply(m, Timed(now, next)).success != RedisReply(r, Timed(now, next)).success <==>
             next.ReleaseOp? && key in m && m[key].token == next.token && m[key].expires <= now)
  {
    SameLeaseOnRuns(calls, next.key, now);
    SameLeaseStep(MemoryRun(calls), RedisRun(calls), Timed(now, next), next.key);
  }

  /** The condition on lifetimes is exact: taking a free lock gives the same lease iff the lifetime is a second or
      more, because Redis rounds shorter ones up. */
  lemma SameLeaseIffLongEnough(held: Leases, key: Name, ttl: int, token: Token, now: real)
    requires LiveOwner(held, key, now).None?
    ensures (forall later :: later >= now ==>
               LiveOwner(Acquire(held, key, ttl, token, now).held, key, later) ==
               LiveOwner(RedisAcquire(held, key, ttl, token, now).held, key, later)) <==> ttl >= 1
  {
    var m, r := Acquire(held, key, ttl, token, now).held, RedisAcquire(held, key, ttl, token, now).held;
    if ttl < 1 {
      assert LiveOwner(m, key, now) != LiveOwner(r, key, now);
    }
  }
}
