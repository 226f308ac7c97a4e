/** The verdict on a refresh token in terms of the calls that the in-memory store has seen. */
module TokenHistory {
  import opened Wrappers
  import opened RefreshStore

  datatype Call = SaveCall(record: Record) | ConsumeCall(token: Token) | RevokeCall(family: Family)

  datatype Timed = Timed(now: real, call: Call)

  function After(s: Store, c: Timed): Store {
    match c.call
    case SaveCall(r) => Save(s, r)
    case ConsumeCall(t) => Consume(s, t, c.now)
    case RevokeCall(f) => Revoke(s, f)
  }

  /** The store after a list of calls, one after the other. */
  function Run(calls: seq<Timed>): Store {
    if calls == [] then EMPTY else After(Run(calls[..|calls| - 1]), calls[|calls| - 1])
  }

  // ----- the history of a token -----

  predicate Saves(c: Timed, t: Token) {
    c.call.SaveCall? && c.call.record.token == t
  }

  /** The `i`th call has saved the token, and no later one has done so again. */
  ghost predicate SavedAt(calls: seq<Timed>, t: Token, i: nat) {
    i < |calls| && Saves(calls[i], t) && forall j :: i < j < |calls| ==> !Saves(calls[j], t)
  }

  ghost predicate FamilyRevoked(calls: seq<Timed>, f: Family) {
    exists k :: 0 <= k < |calls| && calls[k].call == RevokeCall(f)
  }

  /** Since the `i`th call saved it the token was presented in time, before its family was revoked. */
  ghost predicate TakenSince(calls: seq<Timed>, r: Record, i: nat) {
    exists k :: i < k < |calls| && Takes(calls, r, k)
  }

  ghost predicate Takes(calls: seq<Timed>, r: Record, k: nat)
    requires k < |calls|
  {
    calls[k].call == ConsumeCall(r.token) && calls[k].now < r.expiresAt && !FamilyRevoked(calls[..k], r.family)
  }

  // ----- what the store knows of it -----

  lemma {:induction false} RevokedIs(calls: seq<Timed>, f: Family)
    ensures f in Run(calls).revoked <==> FamilyRevoked(calls, f)
  {
    if calls != [] {
      var front, n := calls[..|calls| - 1], |calls| - 1;
      RevokedIs(front, f);
      if FamilyRevoked(front, f) {
        var k :| 0 <= k < |front| && front[k].call == RevokeCall(f);
        assert calls[k].call == RevokeCall(f);
      }
      if FamilyRevoked(calls, f) {
        var k :| 0 <= k < |calls| && calls[k].call == RevokeCall(f);
        assert k < n ==> front[k].call == RevokeCall(f);
      }
    }
  }

  lemma {:induction false} KnownIs(calls: seq<Timed>, t: Token)
    ensures t in Run(calls).records <==> exists i :: 0 <= i < |calls| && Saves(calls[i], t)
  {
    if calls != [] {
      var front, n := calls[..|calls| - 1], |calls| - 1;
      KnownIs(front, t);
      assert forall i :: 0 <= i < n ==> front[i] == calls[i];
    }
  }

  lemma TakenNext(front: seq<Timed>, last: Timed, r: Record, i: nat)
    requires i < |front|
    ensures TakenSince(front + [last], r, i) <==>
            TakenSince(front, r, i) ||
            (last.call == ConsumeCall(r.token) && last.now < r.expiresAt && !FamilyRevoked(front, r.family))
  {
    var calls, n := front + [last], |front|;
    assert calls[..n] == front && calls[n] == last;
    forall k | i < k < n
      ensures Takes(calls, r, k) <==> Takes(front, r, k)
    {
      assert calls[..k] == front[..k] && calls[k] == front[k];
    }
    assert Takes(calls, r, n) <==>
           last.call == ConsumeCall(r.token) && last.now < r.expiresAt && !FamilyRevoked(front, r.family);
  }

  /** The record is the one saved last, consumed if it has been taken since. */
  lemma {:induction false} RecordIs(calls: seq<Timed>, t: Token, i: nat)
    requires SavedAt(calls, t, i)
    ensures var r := calls[i].call.record;
            t in Run(calls).records &&
            Run(calls).records[t] == r.(status := if TakenSince(calls, r, i) then Consumed else r.status)
    decreases |calls|
  {
    var front, last, r := calls[..|calls| - 1], calls[|calls| - 1], calls[i].call.record;
    if i < |front| {
      assert front + [last] == calls && !Saves(last, t);
      assert SavedAt(front, t, i);
      RecordIs(front, t, i);
      RevokedIs(front, r.family);
      TakenNext(front, last, r, i);
    }
  }

  /** After any calls a token is unknown if it was never saved. Else, with the record saved last, it is refused as
      revoked if its family has been revoked at any time, as expired from its expiry on, as a replay if it was taken
      before, and otherwise it is valid. The owner is named for replays and valid tokens only, the family always. */
  lemma VerdictByHistory(calls: seq<Timed>, t: Token, now: real)
    ensures var outcome := Classify(Run(calls), t, now);
            if forall i :: 0 <= i < |calls| ==> !Saves(calls[i], t) then outcome == Outcome(NOT_FOUND, None, None)
            else
              forall i: nat :: SavedAt(calls, t, i) ==>
                var r := calls[i].call.record;
                outcome ==
                if FamilyRevoked(calls, r.family) then Outcome(REVOKED, None, Some(r.family))
                else if now >= r.expiresAt then Outcome(EXPIRED, None, Some(r.family))
                else if r.status == Consumed || TakenSince(calls, r, i) then
                  Outcome(ROTATED, Some(r.user), Some(r.family))
                else Outcome(VALID, Some(r.user), Some(r.family))
  {
    KnownIs(calls, t);
    forall i: nat | SavedAt(calls, t, i)
      ensures var r := calls[i].call.record;
              Run(calls).records[t] == r.(status := if TakenSince(calls, r, i) then Consumed else r.status) &&
              t in Run(calls).records && (r.family in Run(calls).revoked <==> FamilyRevoked(calls, r.family))
    {
      RecordIs(calls, t, i);
      RevokedIs(calls, calls[i].call.record.family);
    }
  }

  /** The save that counts exists whenever there was one. */
  lemma {:induction false} LastSave(calls: seq<Timed>, t: Token) returns (i: nat)
    requires exists k :: 0 <= k < |calls| && Saves(calls[k], t)
    ensures SavedAt(calls, t, i)
  {
    var n := |calls| - 1;
    if Saves(calls[n], t) {
      i := n;
    } else {
      var front := calls[..n];
      assert forall k :: 0 <= k < n ==> front[k] == calls[k];
      i := LastSave(front, t);
    }
  }

  /** So a token is refreshed at most once for each time it is saved, and never after a logout of its family. */
  lemma TakenOnce(calls: seq<Timed>, t: Token, i: nat, now: real)
    requires SavedAt(calls, t, i) && Classify(Run(calls), t, now).state == VALID
    ensures !TakenSince(calls, calls[i].call.record, i) && !FamilyRevoked(calls, calls[i].call.record.family)
    ensures now < calls[i].call.record.expiresAt
    ensures TakenSince(calls + [Timed(now, ConsumeCall(t))], calls[i].call.record, i)
  {
    VerdictByHistory(calls, t, now);
    TakenNext(calls, Timed(now, ConsumeCall(t)), calls[i].call.record, i);
  }
}
