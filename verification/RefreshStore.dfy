/** Rotating refresh tokens: what the in-memory store does, as functions and as the object that is updated. */
module RefreshStore {
  import opened Wrappers

  /** Tokens are known by their digest only; digests, families and users are compared and never computed with. */
  datatype Token = Token(digest: string)
  datatype Family = Family(hex: string)
  datatype User = User(uuid: string)

  datatype Status = Active | Consumed

  datatype Record = Record(token: Token, family: Family, user: User, expiresAt: real, status: Status)

  datatype RotationState = VALID | ROTATED | REVOKED | EXPIRED | NOT_FOUND

  datatype Outcome = Outcome(state: RotationState, user: Option<User>, family: Option<Family>)

  datatype Store = Store(records: map<Token, Record>, revoked: set<Family>)

  const EMPTY := Store(map[], {})

  function Save(s: Store, r: Record): Store {
    s.(records := s.records[r.token := r])
  }

  function Revoke(s: Store, f: Family): Store {
    s.(revoked := s.revoked + {f})
  }

  function FamilyOf(s: Store, t: Token): Option<Family> {
    if t in s.records then Some(s.records[t].family) else None
  }

  /** The checks in their order: unknown, revoked, expired, replayed, valid. */
  function Classify(s: Store, t: Token, now: real): Outcome {
    if t !in s.records then Outcome(NOT_FOUND, None, None)
    else
      var r := s.records[t];
      if r.family in s.revoked then Outcome(REVOKED, None, Some(r.family))
      else if now >= r.expiresAt then Outcome(EXPIRED, None, Some(r.family))
      else if r.status == Consumed then Outcome(ROTATED, Some(r.user), Some(r.family))
      else Outcome(VALID, Some(r.user), Some(r.family))
  }

  function Consume(s: Store, t: Token, now: real): Store {
    if Classify(s, t, now).state == VALID
    then s.(records := s.records[t := s.records[t].(status := Consumed)])
    else s
  }

  class InMemoryRefreshTokenStore {
    var records: map<Token, Record>
    var revokedFamilies: set<Family>

    function View(): Store
      reads this
    {
      Store(records, revokedFamilies)
    }

    constructor ()
      ensures View() == EMPTY
    {
      records, revokedFamilies := map[], {};
    }

    method SaveRecord(r: Record)
      modifies this
      ensures View() == Save(old(View()), r)
    {
      records := records[r.token := r];
    }

    method ConsumeForRotation(t: Token, now: real) returns (outcome: Outcome)
      modifies this
      ensures outcome == Classify(old(View()), t, now)
      ensures View() == Consume(old(View()), t, now)
    {
      if t !in records {
        return Outcome(NOT_FOUND, None, None);
      }
      var record := records[t];
      if record.family in revokedFamilies {
        return Outcome(REVOKED, None, Some(record.family));
      }
      if now >= record.expiresAt {
        return Outcome(EXPIRED, None, Some(record.family));
      }
      if record.status == Consumed {
        return Outcome(ROTATED, Some(record.user), Some(record.family));
      }
      records := records[t := record.(status := Consumed)];
      return Outcome(VALID, Some(record.user), Some(record.family));
    }

    method FamilyOfToken(t: Token) returns (family: Option<Family>)
      ensures family == FamilyOf(View(), t)
    {
      return if t in records then Some(records[t].family) else None;
    }

    method RevokeFamily(f: Family)
      modifies this
      ensures View() == Revoke(old(View()), f)
    {
      revokedFamilies := revokedFamilies + {f};
    }
  }
}
