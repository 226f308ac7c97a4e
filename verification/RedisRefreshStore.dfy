/** The Redis token store: every token is a key with a lifetime, a revoked family is a marker with a lifetime.

    A key is there until its deadline. */
module RedisRefreshStore {
  import opened Wrappers
  import opened RefreshStore

  datatype Key = Key(family: Family, user: User, expiresAt: real, status: Status, deadline: real)

  datatype Redis = Redis(keys: map<Token, Key>, markers: map<Family, real>)

  const NOTHING := Redis(map[], map[])

  /** Python's int() on a float: towards zero. */
  function Truncate(x: real): int {
    if x >= 0.0 then x.Floor else -((-x).Floor)
  }

  /** Lifetime of a token key, in whole seconds and at least one. */
  function KeyTtl(expiresAt: real, now: real): int {
    var seconds := Truncate(expiresAt - now);
    if seconds > 1 then seconds else 1
  }

  predicate Alive(s: Redis, t: Token, now: real) {
    t in s.keys && now < s.keys[t].deadline
  }

  predicate Marked(s: Redis, f: Family, now: real) {
    f in s.markers && now < s.markers[f]
  }

  /** The lifetime is computed from the clock at `read`; the key gets it at `now`. */
  function RedisSave(s: Redis, r: Record, read: real, now: real): Redis {
    var deadline := now + KeyTtl(r.expiresAt, read) as real;
    s.(keys := s.keys[r.token := Key(r.family, r.user, r.expiresAt, r.status, deadline)])
  }

  function RedisRevoke(s: Redis, f: Family, now: real, familyTtl: int): Redis {
    s.(markers := s.markers[f := now + familyTtl as real])
  }

  /** The server-side script; it is given the clock in whole seconds. */
  function RedisClassify(s: Redis, t: Token, now: real): Outcome {
    if !Alive(s, t, now) then Outcome(NOT_FOUND, None, None)
    else
      var k := s.keys[t];
      var state :=
        if Marked(s, k.family, now) then REVOKED
        else if Truncate(now) as real >= k.expiresAt then EXPIRED
        else if k.status == Consumed then ROTATED
        else VALID;
      Outcome(state, Some(k.user), Some(k.family))
  }

  function RedisConsume(s: Redis, t: Token, now: real): Redis {
    if RedisClassify(s, t, now).state == VALID then s.(keys := s.keys[t := s.keys[t].(status := Consumed)]) else s
  }

  function RedisFamilyOf(s: Redis, t: Token, now: real): Option<Family> {
    if Alive(s, t, now) then Some(s.keys[t].family) else None
  }

  class RedisRefreshTokenStore {
    var keys: map<Token, Key>
    var markers: map<Family, real>
    const familyTtl: int

    function View(): Redis
      reads this
    {
      Redis(keys, markers)
    }

    constructor (familyTtl: int)
      ensures View() == NOTHING && this.familyTtl == familyTtl
    {
      keys, markers, this.familyTtl := map[], map[], familyTtl;
    }

    method SaveRecord(r: Record, read: real, now: real)
      modifies this
      ensures View() == RedisSave(old(View()), r, read, now)
    {
      var ttl := KeyTtl(r.expiresAt, read);
      keys := keys[r.token := Key(r.family, r.user, r.expiresAt, r.status, now + ttl as real)];
    }

    method ConsumeForRotation(t: Token, now: real) returns (outcome: Outcome)
      modifies this
      ensures outcome == RedisClassify(old(View()), t, now)
      ensures View() == RedisConsume(old(View()), t, now)
    {
      if !(t in keys && now < keys[t].deadline) {
        return Outcome(NOT_FOUND, None, None);
      }
      var key := keys[t];
      if key.family in markers && now < markers[key.family] {
        return Outcome(REVOKED, Some(key.user), Some(key.family));
      }
      if Truncate(now) as real >= key.expiresAt {
        return Outcome(EXPIRED, Some(key.user), Some(key.family));
      }
      if key.status == Consumed {
        return Outcome(ROTATED, Some(key.user), Some(key.family));
      }
      keys := keys[t := key.(status := Consumed)];
      return Outcome(VALID, Some(key.user), Some(key.family));
    }

    method FamilyOfToken(t: Token, now: real) returns (family: Option<Family>)
      ensures family == RedisFamilyOf(View(), t, now)
    {
      return if t in keys && now < keys[t].deadline then Some(keys[t].family) else None;
    }

    method RevokeFamily(f: Family, now: real)
      modifies this
      ensures View() == RedisRevoke(old(View()), f, now, familyTtl)
    {
      markers := markers[f := now + familyTtl as real];
    }
  }

  // ----- lifetimes -----

  /** A key does not outlive its token exactly when the lifetime was computed at least a second before the expiry, and
      the key was set before the part that was cut off had passed. */
  lemma KeyOutlivesToken(expiresAt: real, read: real, now: real)
    requires read <= now
    ensures var left := expiresAt - read;
            now + KeyTtl(expiresAt, read) as real <= expiresAt <==>
            left >= 1.0 && now - read <= left - left.Floor as real
  {
  }
}
