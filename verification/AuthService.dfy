/** The authentication service run one request at a time, and its place among the interleaved steps. */
module AuthService {
  import opened Wrappers
  import opened RefreshStore
  import opened AuthProtocol

  /** Saving a newly minted token for a family. */
  function Issued(s: Store, token: Token, family: Family, user: User, now: real, ttl: real): Store {
    Save(s, Record(token, family, user, now + ttl, Active))
  }

  /** The store after a refresh that ran without interruption. */
  function Refreshed(s: Store, presented: Token, minted: Token, now: real, ttl: real): Store {
    var outcome := Classify(s, presented, now);
    if outcome.state == VALID then
      Issued(Consume(s, presented, now), minted, s.records[presented].family, s.records[presented].user, now, ttl)
    else if outcome.state == ROTATED then Revoke(s, s.records[presented].family)
    else s
  }

  function LoggedOut(s: Store, presented: Token): Store {
    var family := FamilyOf(s, presented);
    if family.Some? then Revoke(s, family.value) else s
  }

  class Service {
    const store: InMemoryRefreshTokenStore
    const refreshTtl: real

    constructor (store: InMemoryRefreshTokenStore, refreshTtl: real)
      ensures this.store == store && this.refreshTtl == refreshTtl
    {
      this.store := store;
      this.refreshTtl := refreshTtl;
    }

    method IssuePair(user: User, family: Family, minted: Token, now: real)
      modifies store
      ensures store.View() == Issued(old(store.View()), minted, family, user, now, refreshTtl)
    {
      store.SaveRecord(Record(minted, family, user, now + refreshTtl, Active));
    }

    /** The new token, or None for an authentication error. `minted` is the token drawn by the generator. */
    method Refresh(presented: Token, minted: Token, now: real) returns (issued: Option<Token>)
      modifies store
      ensures store.View() == Refreshed(old(store.View()), presented, minted, now, refreshTtl)
      ensures issued == if Classify(old(store.View()), presented, now).state == VALID then Some(minted) else None
    {
      var outcome := store.ConsumeForRotation(presented, now);
      if outcome.state == VALID && outcome.user.Some? {
        if outcome.family.Some? {
          IssuePair(outcome.user.value, outcome.family.value, minted, now);
        }
        return Some(minted);
      }
      if outcome.state == ROTATED && outcome.family.Some? {
        store.RevokeFamily(outcome.family.value);
      }
      return None;
    }

    /** Never fails: an unknown token revokes nothing. */
    method Logout(presented: Token)
      modifies store
      ensures store.View() == LoggedOut(old(store.View()), presented)
    {
      var family := store.FamilyOfToken(presented);
      if family.Some? {
        store.RevokeFamily(family.value);
      }
    }
  }

  /** A successful refresh hands over: the old token is a replay from now on and the new one is good for the whole
      lifetime; a replay leaves the family with nothing that is accepted. */
  lemma RefreshHandsOver(s: Store, presented: Token, minted: Token, now: real, ttl: real, later: real)
    requires minted !in s.records && now <= later < now + ttl
    ensures var s' := Refreshed(s, presented, minted, now, ttl);
            match Classify(s, presented, now).state
            case VALID =>
              Classify(s', minted, later).state == VALID &&
              Classify(s', presented, later).state ==
                (if later < s.records[presented].expiresAt then ROTATED else EXPIRED) &&
              Classify(s', minted, now + ttl).state == EXPIRED
            case ROTATED =>
              forall t <- s'.records | s'.records[t].family == s.records[presented].family ::
                Classify(s', t, later).state == REVOKED
            case _ => s' == s
  {
  }

  /** Logging out ends the session of the presented token and no other: its whole family is refused from now on, and
      the answers for other families stay. */
  lemma LogoutEndsSession(s: Store, presented: Token, t: Token, later: real)
    ensures if FamilyOf(s, presented).Some? && FamilyOf(s, t) == FamilyOf(s, presented)
            then Classify(LoggedOut(s, presented), t, later).state == REVOKED
            else Classify(LoggedOut(s, presented), t, later) == Classify(s, t, later)
  {
  }

  /** An uninterrupted refresh is one of the interleavings of the protocol. */
  lemma RefreshIsInterleaving(w: World, q: Request, presented: Token, minted: Token, ttl: real)
    returns (worlds: seq<World>, events: seq<Event>)
    requires w.store.InMemory? && q !in w.tasks && minted !in w.minted
    ensures |worlds| == |events| + 1 && worlds[0] == w
    ensures forall i :: 0 <= i < |events| ==> Next(worlds[i], events[i], worlds[i + 1], ttl)
    ensures worlds[|events|].store == InMemory(Refreshed(w.store.memory, presented, minted, w.now, ttl))
    ensures worlds[|events|].tasks == w.tasks
  {
    var outcome := w.store.Verdict(presented, w.now);
    var w1 :=
      w.(store := w.store.AfterConsume(presented, w.now), tasks := AfterPresent(w.tasks, q, outcome));
    worlds, events := [w, w1], [Present(q, presented, outcome)];
    if outcome.state == VALID {
      var record := Record(minted, w1.tasks[q].family, w1.tasks[q].user, w1.now + ttl, Active);
      var w2 := w1.(tasks := w1.tasks[q := Saving(record)], minted := w1.minted + {minted});
      var w3 := w2.(store := w2.store.AfterSave(record, w2.now, w2.now), tasks := w2.tasks - {q});
      assert w3.tasks == w.tasks;
      worlds, events := [w, w1, w2, w3], events + [Issue(q, minted), SaveIt(q, w2.now)];
    } else if outcome.state == ROTATED {
      var w2 := w1.(store := w1.store.AfterRevoke(w1.tasks[q].family, w1.now), tasks := w1.tasks - {q});
      assert w2.tasks == w.tasks;
      worlds, events := [w, w1, w2], events + [RevokeIt(q)];
    }
  }
}
