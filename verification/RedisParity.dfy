/** The in-memory and the Redis token store side by side under the calls of the authentication service.

    The service asks a store for the family to revoke, with a refresh or a logout, and revokes it in a later step. Each
    store gives its own answer and is revoked accordingly; everything else is the same call to both. */
module RedisParity {
  import opened Wrappers
  import opened RefreshStore
  import opened RedisRefreshStore

  /** SaveOp computed the lifetime at `read`. RevokeOp completes the request with this number, counting refreshes and
      logouts. */
  datatype Op =
    | SaveOp(record: Record, read: real)
    | ConsumeOp(token: Token)
    | LogoutOp(token: Token)
    | RevokeOp(request: nat)

  datatype Timed = Timed(now: real, op: Op)

  /** A store, and for each request the family that its answer tells the service to revoke. */
  datatype Side<S> = Side(store: S, pending: seq<Option<Family>>)

  function ToRevoke(outcome: Outcome): Option<Family> {
    if outcome.state == ROTATED then outcome.family else None
  }

  function Due(pending: seq<Option<Family>>, request: nat): Option<Family> {
    if request < |pending| then pending[request] else None
  }

  function MemoryStep(x: Side<Store>, c: Timed): Side<Store> {
    match c.op
    case SaveOp(r, _) => x.(store := Save(x.store, r))
    case ConsumeOp(t) => Side(Consume(x.store, t, c.now), x.pending + [ToRevoke(Classify(x.store, t, c.now))])
    case LogoutOp(t) => x.(pending := x.pending + [FamilyOf(x.store, t)])
    case RevokeOp(k) =>
      var family := Due(x.pending, k);
      if family.Some? then x.(store := Revoke(x.store, family.value)) else x
  }

  function RedisStep(y: Side<Redis>, c: Timed, familyTtl: int): Side<Redis> {
    match c.op
    case SaveOp(r, read) => y.(store := RedisSave(y.store, r, read, c.now))
    case ConsumeOp(t) =>
      Side(RedisConsume(y.store, t, c.now), y.pending + [ToRevoke(RedisClassify(y.store, t, c.now))])
    case LogoutOp(t) => y.(pending := y.pending + [RedisFamilyOf(y.store, t, c.now)])
    case RevokeOp(k) =>
      var family := Due(y.pending, k);
      if family.Some? then y.(store := RedisRevoke(y.store, family.value, c.now, familyTtl)) else y
  }

  function MemoryRun(ops: seq<Timed>): Side<Store> {
    if ops == [] then Side(EMPTY, []) else MemoryStep(MemoryRun(ops[..|ops| - 1]), ops[|ops| - 1])
  }

  function RedisRun(ops: seq<Timed>, familyTtl: int): Side<Redis> {
    if ops == [] then Side(NOTHING, []) else RedisStep(RedisRun(ops[..|ops| - 1], familyTtl), ops[|ops| - 1], familyTtl)
  }

  /** The clock does not run backwards, and `now` is not before the last step. */
  ghost predicate Ordered(ops: seq<Timed>, now: real) {
    0.0 <= now && (forall i, j :: 0 <= i < j < |ops| ==> ops[i].now <= ops[j].now) &&
    (forall i :: 0 <= i < |ops| ==> 0.0 <= ops[i].now <= now)
  }

  // ----- every run: what a live key knows -----

  /** Status and record agree, or the verdict no longer depends on the status. */
  ghost predicate Agrees(m: Store, s: Redis, r: Record, k: Key, now: real) {
    k.family == r.family && k.user == r.user && k.expiresAt == r.expiresAt &&
    (k.status == r.status || k.family in m.revoked || k.family in s.markers || now >= k.expiresAt)
  }

  ghost predicate KeysAgree(m: Store, s: Redis, now: real) {
    forall t :: Alive(s, t, now) ==> t in m.records && Agrees(m, s, m.records[t], s.keys[t], now)
  }

  lemma LaterAgrees(m: Store, s: Redis, now: real, later: real)
    requires KeysAgree(m, s, now) && now <= later
    ensures KeysAgree(m, s, later)
  {
    forall t | Alive(s, t, later)
      ensures t in m.records && Agrees(m, s, m.records[t], s.keys[t], later)
    {
      assert Alive(s, t, now);
    }
  }

  /** What a live key answers, compared with the record. The clock that Redis is given is cut to whole seconds. */
  lemma LiveVerdict(m: Store, s: Redis, t: Token, now: real)
    requires 0.0 <= now && Alive(s, t, now) && t in m.records && Agrees(m, s, m.records[t], s.keys[t], now)
    ensures var k := s.keys[t];
            RedisClassify(s, t, now).state == Classify(m, t, now).state <==>
            if k.family in m.revoked || Marked(s, k.family, now) then k.family in m.revoked && Marked(s, k.family, now)
            else if now >= k.expiresAt then Truncate(now) as real >= k.expiresAt
            else k.family in s.markers ==> k.status == m.records[t].status
    ensures RedisClassify(s, t, now).family == Classify(m, t, now).family
  {
  }

  lemma ConsumeAgrees(m: Store, s: Redis, c: Token, now: real)
    requires KeysAgree(m, s, now) && 0.0 <= now
    ensures KeysAgree(Consume(m, c, now), RedisConsume(s, c, now), now)
  {
    var m', s' := Consume(m, c, now), RedisConsume(s, c, now);
    forall t | Alive(s', t, now)
      ensures t in m'.records && Agrees(m', s', m'.records[t], s'.keys[t], now)
    {
      assert Alive(s, t, now);
    }
  }

  lemma AgreeStep(x: Side<Store>, y: Side<Redis>, c: Timed, familyTtl: int)
    requires KeysAgree(x.store, y.store, c.now) && 0.0 <= c.now && |x.pending| == |y.pending|
    ensures KeysAgree(MemoryStep(x, c).store, RedisStep(y, c, familyTtl).store, c.now)
    ensures |MemoryStep(x, c).pending| == |RedisStep(y, c, familyTtl).pending|
  {
    var m', s' := MemoryStep(x, c).store, RedisStep(y, c, familyTtl).store;
    if c.op.ConsumeOp? {
      ConsumeAgrees(x.store, y.store, c.op.token, c.now);
    } else {
      forall t | Alive(s', t, c.now)
        ensures t in m'.records && Agrees(m', s', m'.records[t], s'.keys[t], c.now)
      {
        assert !(c.op.SaveOp? && c.op.record.token == t) ==> Alive(y.store, t, c.now);
      }
    }
  }

  lemma {:induction false} AgreeOnRuns(ops: seq<Timed>, now: real, familyTtl: int)
    requires Ordered(ops, now)
    ensures KeysAgree(MemoryRun(ops).store, RedisRun(ops, familyTtl).store, now)
    ensures |MemoryRun(ops).pending| == |RedisRun(ops, familyTtl).pending|
    decreases |ops|
  {
    if ops != [] {
      var front, last := ops[..|ops| - 1], ops[|ops| - 1];
      AgreeOnRuns(front, last.now, familyTtl);
      AgreeStep(MemoryRun(front), RedisRun(front, familyTtl), last, familyTtl);
      LaterAgrees(MemoryRun(ops).store, RedisRun(ops, familyTtl).store, last.now, now);
    }
  }

  /** After any calls, a live key gets the same verdict from both stores exactly when: its family is revoked in memory
      iff a marker is live; if neither, Redis sees the expiry that the clock has passed; and if neither of that, the
      statuses agree should Redis ever have marked the family on its own. */
  lemma SameVerdictExactly(ops: seq<Timed>, now: real, familyTtl: int, t: Token)
    requires Ordered(ops, now) && Alive(RedisRun(ops, familyTtl).store, t, now)
    ensures var m, s := MemoryRun(ops).store, RedisRun(ops, familyTtl).store;
            var k := s.keys[t];
            t in m.records &&
            (RedisClassify(s, t, now).state == Classify(m, t, now).state <==>
             if k.family in m.revoked || Marked(s, k.family, now) then
               k.family in m.revoked && Marked(s, k.family, now)
             else if now >= k.expiresAt then Truncate(now) as real >= k.expiresAt
             else k.family in s.markers ==> k.status == m.records[t].status)
  {
    AgreeOnRuns(ops, now, familyTtl);
    LiveVerdict(MemoryRun(ops).store, RedisRun(ops, familyTtl).store, t, now);
  }

  /** Both stores name the same family for a logout exactly when the presented key is alive or the token unknown. */
  lemma SameLogoutExactly(ops: seq<Timed>, now: real, familyTtl: int, t: Token)
    requires Ordered(ops, now)
    ensures var m, s := MemoryRun(ops).store, RedisRun(ops, familyTtl).store;
            FamilyOf(m, t) == RedisFamilyOf(s, t, now) <==> Alive(s, t, now) || t !in m.records
  {
    AgreeOnRuns(ops, now, familyTtl);
  }

  // ----- one family: when Redis revokes what memory revokes -----

  /** The tokens of the family are saved so that their keys do not outlive them, nor they the marker of a revocation. */
  ghost predicate SavedInTime(ops: seq<Timed>, familyTtl: int, f: Family) {
    forall i :: 0 <= i < |ops| && ops[i].op.SaveOp? && ops[i].op.record.family == f ==> InTimeFor(ops[i], familyTtl)
  }

  predicate InTimeFor(c: Timed, familyTtl: int)
    requires c.op.SaveOp?
  {
    var r := c.op.record;
    c.now + KeyTtl(r.expiresAt, c.op.read) as real <= r.expiresAt <= c.now + familyTtl as real
  }

  /** Some token of the family was saved after the family had been revoked. */
  ghost predicate SavedLate(ops: seq<Timed>, f: Family) {
    exists i :: 0 <= i < |ops| && ops[i].op.SaveOp? && ops[i].op.record.family == f &&
                f in MemoryRun(ops[..i]).store.revoked
  }

  /** The call is not a logout with, or a replay of, a token of the family that memory remembers but whose key has
      lapsed. */
  ghost predicate Timely(x: Side<Store>, y: Side<Redis>, c: Timed, f: Family) {
    match c.op
    case LogoutOp(t) => FamilyOf(x.store, t) == Some(f) ==> Alive(y.store, t, c.now)
    case ConsumeOp(t) => ToRevoke(Classify(x.store, t, c.now)) == Some(f) ==> Alive(y.store, t, c.now)
    case _ => true
  }

  ghost predicate AllTimely(ops: seq<Timed>, familyTtl: int, f: Family) {
    forall i :: 0 <= i < |ops| ==> Timely(MemoryRun(ops[..i]), RedisRun(ops[..i], familyTtl), ops[i], f)
  }

  /** The family is revoked, or about to be, in both stores or in neither. */
  ghost predicate RevokedAlike(x: Side<Store>, y: Side<Redis>, f: Family) {
    (f in x.store.revoked <==> f in y.store.markers) && |x.pending| == |y.pending| &&
    forall k :: 0 <= k < |x.pending| ==> SamePending(x.pending[k], y.pending[k], f, f in x.store.revoked)
  }

  ghost predicate SamePending(p: Option<Family>, q: Option<Family>, f: Family, revoked: bool) {
    (p == Some(f) ==> q == Some(f)) && (q == Some(f) ==> p == Some(f) || revoked)
  }

  ghost predicate KeysInTime(s: Redis, now: real, familyTtl: int, f: Family) {
    forall t <- s.keys :: s.keys[t].family == f ==>
      s.keys[t].deadline <= s.keys[t].expiresAt <= now + familyTtl as real
  }

  lemma RevokedAlikeStep(x: Side<Store>, y: Side<Redis>, c: Timed, familyTtl: int, f: Family)
    requires RevokedAlike(x, y, f) && KeysAgree(x.store, y.store, c.now) && KeysInTime(y.store, c.now, familyTtl, f)
    requires Timely(x, y, c, f) && 0.0 <= c.now
    ensures RevokedAlike(MemoryStep(x, c), RedisStep(y, c, familyTtl), f)
  {
    var revoked := f in x.store.revoked;
    match c.op
    case SaveOp(_, _) =>
    case ConsumeOp(t) =>
      assert SamePending(ToRevoke(Classify(x.store, t, c.now)), ToRevoke(RedisClassify(y.store, t, c.now)), f, revoked);
    case LogoutOp(t) =>
      assert SamePending(FamilyOf(x.store, t), RedisFamilyOf(y.store, t, c.now), f, revoked);
    case RevokeOp(k) =>
      assert k < |x.pending| ==> SamePending(x.pending[k], y.pending[k], f, revoked);
  }

  lemma KeysInTimeStep(y: Side<Redis>, c: Timed, familyTtl: int, f: Family)
    requires KeysInTime(y.store, c.now, familyTtl, f)
    requires c.op.SaveOp? && c.op.record.family == f ==> InTimeFor(c, familyTtl)
    ensures KeysInTime(RedisStep(y, c, familyTtl).store, c.now, familyTtl, f)
  {
  }

  /** The marker of the family outlives its keys, unless one was saved late. */
  ghost predicate Outlived(ops: seq<Timed>, s: Redis, f: Family) {
    f in s.markers && !SavedLate(ops, f) ==>
      forall t <- s.keys :: s.keys[t].family == f ==> s.keys[t].deadline <= s.markers[f]
  }

  lemma LateStaysLate(ops: seq<Timed>, last: Timed, f: Family)
    requires SavedLate(ops, f)
    ensures SavedLate(ops + [last], f)
  {
    var i :| 0 <= i < |ops| && ops[i].op.SaveOp? && ops[i].op.record.family == f &&
             f in MemoryRun(ops[..i]).store.revoked;
    var longer := ops + [last];
    assert longer[i] == ops[i] && longer[..i] == ops[..i];
  }

  lemma NowLate(ops: seq<Timed>, last: Timed)
    requires last.op.SaveOp? && last.op.record.family in MemoryRun(ops).store.revoked
    ensures SavedLate(ops + [last], last.op.record.family)
  {
    var longer := ops + [last];
    assert longer[|ops|] == last && longer[..|ops|] == ops;
  }

  lemma OutlivedStep(ops: seq<Timed>, last: Timed, y: Side<Redis>, familyTtl: int, f: Family)
    requires Outlived(ops, y.store, f) && KeysInTime(y.store, last.now, familyTtl, f)
    requires f in y.store.markers ==> f in MemoryRun(ops).store.revoked
    ensures Outlived(ops + [last], RedisStep(y, last, familyTtl).store, f)
  {
    if SavedLate(ops, f) {
      LateStaysLate(ops, last, f);
    } else if f in y.store.markers && last.op.SaveOp? && last.op.record.family == f {
      NowLate(ops, last);
    }
  }

  /** All of it, after any run of timely calls. */
  ghost predicate InTime(ops: seq<Timed>, x: Side<Store>, y: Side<Redis>, now: real, familyTtl: int, f: Family) {
    RevokedAlike(x, y, f) && KeysInTime(y.store, now, familyTtl, f) && Outlived(ops, y.store, f)
  }

  lemma InTimeStep(ops: seq<Timed>, last: Timed, x: Side<Store>, y: Side<Redis>, familyTtl: int, f: Family)
    requires InTime(ops, x, y, last.now, familyTtl, f) && KeysAgree(x.store, y.store, last.now) && x == MemoryRun(ops)
    requires Timely(x, y, last, f) && 0.0 <= last.now
    requires last.op.SaveOp? && last.op.record.family == f ==> InTimeFor(last, familyTtl)
    ensures InTime(ops + [last], MemoryStep(x, last), RedisStep(y, last, familyTtl), last.now, familyTtl, f)
  {
    RevokedAlikeStep(x, y, last, familyTtl, f);
    KeysInTimeStep(y, last, familyTtl, f);
    OutlivedStep(ops, last, y, familyTtl, f);
  }

  lemma PrefixInTime(front: seq<Timed>, last: Timed, familyTtl: int, f: Family)
    requires SavedInTime(front + [last], familyTtl, f) && AllTimely(front + [last], familyTtl, f)
    ensures SavedInTime(front, familyTtl, f) && AllTimely(front, familyTtl, f)
    ensures Timely(MemoryRun(front), RedisRun(front, familyTtl), last, f)
    ensures last.op.SaveOp? && last.op.record.family == f ==> InTimeFor(last, familyTtl)
  {
    var ops := front + [last];
    assert forall i :: 0 <= i < |front| ==> front[i] == ops[i] && front[..i] == ops[..i];
    assert ops[|front|] == last && ops[..|front|] == front;
  }

  lemma {:induction false} InTimeOnRuns(ops: seq<Timed>, now: real, familyTtl: int, f: Family)
    requires Ordered(ops, now) && SavedInTime(ops, familyTtl, f) && AllTimely(ops, familyTtl, f)
    ensures InTime(ops, MemoryRun(ops), RedisRun(ops, familyTtl), now, familyTtl, f)
    decreases |ops|
  {
    if ops != [] {
      var front, last := ops[..|ops| - 1], ops[|ops| - 1];
      assert front + [last] == ops;
      PrefixInTime(front, last, familyTtl, f);
      InTimeOnRuns(front, last.now, familyTtl, f);
      AgreeOnRuns(front, last.now, familyTtl);
      InTimeStep(front, last, MemoryRun(front), RedisRun(front, familyTtl), familyTtl, f);
    }
  }

  /** For a family whose tokens were all saved in time and before it was revoked, and which saw no logout or replay
      after the key of the token had lapsed, both stores give the same verdict on every live key, whatever happens in
      other families. For a lapsed key Redis says NOT_FOUND. */
  lemma SameVerdict(ops: seq<Timed>, now: real, familyTtl: int, f: Family, t: Token)
    requires Ordered(ops, now)
    requires SavedInTime(ops, familyTtl, f) && AllTimely(ops, familyTtl, f) && !SavedLate(ops, f)
    ensures var m, s := MemoryRun(ops).store, RedisRun(ops, familyTtl).store;
            if !Alive(s, t, now) then RedisClassify(s, t, now).state == NOT_FOUND
            else s.keys[t].family == f ==> RedisClassify(s, t, now).state == Classify(m, t, now).state
  {
    InTimeOnRuns(ops, now, familyTtl, f);
    if Alive(RedisRun(ops, familyTtl).store, t, now) {
      SameVerdictExactly(ops, now, familyTtl, t);
    }
  }

  /** What Redis accepts of such a family, memory accepts. */
  lemma RedisValidIsValid(ops: seq<Timed>, now: real, familyTtl: int, f: Family, t: Token)
    requires Ordered(ops, now)
    requires SavedInTime(ops, familyTtl, f) && AllTimely(ops, familyTtl, f) && !SavedLate(ops, f)
    requires var outcome := RedisClassify(RedisRun(ops, familyTtl).store, t, now);
             outcome.state == VALID && outcome.family == Some(f)
    ensures Classify(MemoryRun(ops).store, t, now).state == VALID
  {
    SameVerdict(ops, now, familyTtl, f, t);
  }

  /** Whatever the verdict, for a live key Redis names the owner and the family that memory has recorded. */
  lemma SameOwnerNamed(ops: seq<Timed>, now: real, familyTtl: int, t: Token)
    requires Ordered(ops, now) && Alive(RedisRun(ops, familyTtl).store, t, now)
    ensures var m, outcome := MemoryRun(ops).store, RedisClassify(RedisRun(ops, familyTtl).store, t, now);
            t in m.records && outcome.user == Some(m.records[t].user) && outcome.family == Some(m.records[t].family)
  {
    AgreeOnRuns(ops, now, familyTtl);
  }

  // ----- Redis alone: no token is accepted twice -----

  /** Consumed, or gone, until it is saved again. */
  ghost predicate Spent(s: Redis, t: Token, now: real) {
    Alive(s, t, now) ==> s.keys[t].status == Consumed
  }

  lemma {:induction false} StaysSpent(ops: seq<Timed>, familyTtl: int, t: Token, i: nat, now: real)
    requires Ordered(ops, now) && i < |ops| && ops[i].op == ConsumeOp(t)
    requires RedisClassify(RedisRun(ops[..i], familyTtl).store, t, ops[i].now).state == VALID
    requires forall k :: i < k < |ops| && ops[k].op.SaveOp? ==> ops[k].op.record.token != t
    ensures Spent(RedisRun(ops, familyTtl).store, t, now)
    decreases |ops|
  {
    var front, last := ops[..|ops| - 1], ops[|ops| - 1];
    if i < |front| {
      assert front[..i] == ops[..i];
      StaysSpent(front, familyTtl, t, i, last.now);
    }
  }

  /** Whatever lapses or is revoked in between, Redis accepts a token at most once each time it is saved. */
  lemma RedisValidAtMostOnce(ops: seq<Timed>, familyTtl: int, t: Token, i: nat, j: nat)
    requires i < j < |ops| && Ordered(ops, ops[|ops| - 1].now)
    requires ops[i].op == ConsumeOp(t) == ops[j].op
    requires forall k :: i < k < j && ops[k].op.SaveOp? ==> ops[k].op.record.token != t
    requires RedisClassify(RedisRun(ops[..i], familyTtl).store, t, ops[i].now).state == VALID
    ensures RedisClassify(RedisRun(ops[..j], familyTtl).store, t, ops[j].now).state != VALID
  {
    var before := ops[..j];
    assert before[..i] == ops[..i];
    StaysSpent(before, familyTtl, t, i, ops[j].now);
  }

  // ----- each condition is needed -----

  lemma RunNext(ops: seq<Timed>, c: Timed, familyTtl: int)
    ensures MemoryRun(ops + [c]) == MemoryStep(MemoryRun(ops), c)
    ensures RedisRun(ops + [c], familyTtl) == RedisStep(RedisRun(ops, familyTtl), c, familyTtl)
  {
    assert (ops + [c])[..|ops|] == ops;
  }

  /** The parity of a run fails on `t`: Redis accepts what memory refuses. */
  ghost predicate SlipsThrough(ops: seq<Timed>, familyTtl: int, now: real, t: Token) {
    Ordered(ops, now) && RedisClassify(RedisRun(ops, familyTtl).store, t, now).state == VALID &&
    Classify(MemoryRun(ops).store, t, now).state != VALID
  }

  /** A login and a refresh five seconds later, in both stores. */
  function Rotation(f: Family, u: User, t1: Token, t2: Token, lifetime: real): seq<Timed> {
    [Timed(0.0, SaveOp(Record(t1, f, u, lifetime, Active), 0.0)), Timed(5.0, ConsumeOp(t1)),
     Timed(5.0, SaveOp(Record(t2, f, u, 5.0 + lifetime, Active), 5.0))]
  }

  function RotatedStore(f: Family, u: User, t1: Token, t2: Token, lifetime: real): Side<Store> {
    Side(Store(map[t1 := Record(t1, f, u, lifetime, Consumed), t2 := Record(t2, f, u, 5.0 + lifetime, Active)], {}),
         [None])
  }

  function RotatedKeys(f: Family, u: User, t1: Token, t2: Token, lifetime: real): Side<Redis> {
    var whole := lifetime.Floor as real;
    Side(Redis(map[t1 := Key(f, u, lifetime, Consumed, whole), t2 := Key(f, u, 5.0 + lifetime, Active, 5.0 + whole)],
               map[]), [None])
  }

  lemma RotationSteps(f: Family, u: User, t1: Token, t2: Token, lifetime: real, familyTtl: int)
    requires t1 != t2 && 6.0 <= lifetime
    ensures var c := Rotation(f, u, t1, t2, lifetime);
            var x1, y1 := MemoryStep(Side(EMPTY, []), c[0]), RedisStep(Side(NOTHING, []), c[0], familyTtl);
            var x2, y2 := MemoryStep(x1, c[1]), RedisStep(y1, c[1], familyTtl);
            x1.store.revoked == {} == x2.store.revoked && Classify(x1.store, t1, 5.0).state == VALID &&
            MemoryStep(x2, c[2]) == RotatedStore(f, u, t1, t2, lifetime) &&
            RedisStep(y2, c[2], familyTtl) == RotatedKeys(f, u, t1, t2, lifetime)
  {
    var c := Rotation(f, u, t1, t2, lifetime);
    var x1, y1 := MemoryStep(Side(EMPTY, []), c[0]), RedisStep(Side(NOTHING, []), c[0], familyTtl);
    assert x1 == Side(Store(map[t1 := Record(t1, f, u, lifetime, Active)], {}), []);
    assert y1 == Side(Redis(map[t1 := Key(f, u, lifetime, Active, lifetime.Floor as real)], map[]), []);
    assert Truncate(5.0) == 5;
    var x2, y2 := MemoryStep(x1, c[1]), RedisStep(y1, c[1], familyTtl);
    assert x2.store.records == map[t1 := Record(t1, f, u, lifetime, Consumed)] && x2.pending == [None];
    assert y2.store.keys == map[t1 := Key(f, u, lifetime, Consumed, lifetime.Floor as real)] && y2.pending == [None];
    assert Truncate(5.0 + lifetime - 5.0) == lifetime.Floor;
  }

  lemma AfterRotation(f: Family, u: User, t1: Token, t2: Token, lifetime: real, familyTtl: int)
    requires t1 != t2 && 6.0 <= lifetime
    ensures var ops := Rotation(f, u, t1, t2, lifetime);
            MemoryRun(ops) == RotatedStore(f, u, t1, t2, lifetime) &&
            RedisRun(ops, familyTtl) == RotatedKeys(f, u, t1, t2, lifetime) &&
            MemoryRun([]).store.revoked == {} == MemoryRun(ops[..2]).store.revoked &&
            Classify(MemoryRun(ops[..1]).store, t1, 5.0).state == VALID
  {
    var ops := Rotation(f, u, t1, t2, lifetime);
    RotationSteps(f, u, t1, t2, lifetime, familyTtl);
    RunNext([], ops[0], familyTtl);
    assert [] + [ops[0]] == ops[..1];
    RunNext(ops[..1], ops[1], familyTtl);
    assert ops[..1] + [ops[1]] == ops[..2];
    RunNext(ops[..2], ops[2], familyTtl);
    assert ops[..2] + [ops[2]] == ops;
  }

  lemma RotationNotLate(f: Family, u: User, t1: Token, t2: Token, lifetime: real, familyTtl: int, c: Timed, d: Timed)
    requires t1 != t2 && 6.0 <= lifetime <= familyTtl as real && !c.op.SaveOp? && !d.op.SaveOp?
    ensures var ops := Rotation(f, u, t1, t2, lifetime) + [c] + [d];
            !SavedLate(ops, f) && SavedInTime(ops, familyTtl, f)
  {
    AfterRotation(f, u, t1, t2, lifetime, familyTtl);
    var first := Rotation(f, u, t1, t2, lifetime);
    var ops := first + [c] + [d];
    assert ops[..0] == [] && ops[..2] == first[..2];
  }

  /** What a rotated store answers for the new token after two more calls. */
  lemma NextTwo(f: Family, u: User, t1: Token, t2: Token, lifetime: real, familyTtl: int, c: Timed, d: Timed)
    requires t1 != t2 && 6.0 <= lifetime
    ensures var ops := Rotation(f, u, t1, t2, lifetime) + [c] + [d];
            MemoryRun(ops) == MemoryStep(MemoryStep(RotatedStore(f, u, t1, t2, lifetime), c), d) &&
            RedisRun(ops, familyTtl) ==
            RedisStep(RedisStep(RotatedKeys(f, u, t1, t2, lifetime), c, familyTtl), d, familyTtl)
  {
    var ops := Rotation(f, u, t1, t2, lifetime);
    AfterRotation(f, u, t1, t2, lifetime, familyTtl);
    RunNext(ops, c, familyTtl);
    RunNext(ops + [c], d, familyTtl);
  }

  /** A rotated token is presented for logout after its key has lapsed: memory revokes the family, Redis knows the token
      no more, and its successor stays good in Redis. Everything was saved in time and nothing late. */
  lemma LapsedLogoutSlipsThrough(f: Family, u: User, t1: Token, t2: Token)
    requires t1 != t2
    ensures var ops := Rotation(f, u, t1, t2, 10.0) + [Timed(11.0, LogoutOp(t1))] + [Timed(11.0, RevokeOp(1))];
            SlipsThrough(ops, 10, 12.0, t2) && SavedInTime(ops, 10, f) && !SavedLate(ops, f)
  {
    var logout, revoke := Timed(11.0, LogoutOp(t1)), Timed(11.0, RevokeOp(1));
    NextTwo(f, u, t1, t2, 10.0, 10, logout, revoke);
    LapsedLogout(f, u, t1, t2);
    RotationNotLate(f, u, t1, t2, 10.0, 10, logout, revoke);
  }

  lemma LapsedLogout(f: Family, u: User, t1: Token, t2: Token)
    requires t1 != t2
    ensures var logout, revoke := Timed(11.0, LogoutOp(t1)), Timed(11.0, RevokeOp(1));
            var x := MemoryStep(MemoryStep(RotatedStore(f, u, t1, t2, 10.0), logout), revoke);
            var y := RedisStep(RedisStep(RotatedKeys(f, u, t1, t2, 10.0), logout, 10), revoke, 10);
            Classify(x.store, t2, 12.0).state == REVOKED && RedisClassify(y.store, t2, 12.0).state == VALID
  {
  }

  /** The same with a replay in the last second of the token's life, which its key does not see. */
  lemma LapsedReplaySlipsThrough(f: Family, u: User, t1: Token, t2: Token)
    requires t1 != t2
    ensures var ops := Rotation(f, u, t1, t2, 10.5) + [Timed(10.25, ConsumeOp(t1))] + [Timed(11.0, RevokeOp(1))];
            SlipsThrough(ops, 11, 12.0, t2) && SavedInTime(ops, 11, f) && !SavedLate(ops, f)
  {
    var replay, revoke := Timed(10.25, ConsumeOp(t1)), Timed(11.0, RevokeOp(1));
    NextTwo(f, u, t1, t2, 10.5, 11, replay, revoke);
    LapsedReplay(f, u, t1, t2);
    RotationNotLate(f, u, t1, t2, 10.5, 11, replay, revoke);
  }

  lemma LapsedReplay(f: Family, u: User, t1: Token, t2: Token)
    requires t1 != t2
    ensures var replay, revoke := Timed(10.25, ConsumeOp(t1)), Timed(11.0, RevokeOp(1));
            var x := MemoryStep(MemoryStep(RotatedStore(f, u, t1, t2, 10.5), replay), revoke);
            var y := RedisStep(RedisStep(RotatedKeys(f, u, t1, t2, 10.5), replay, 11), revoke, 11);
            Classify(x.store, t2, 12.0).state == REVOKED && RedisClassify(y.store, t2, 12.0).state == VALID
  {
  }

  /** A login that is logged out at once. */
  function Session(f: Family, u: User, t: Token): seq<Timed> {
    [Timed(0.0, SaveOp(Record(t, f, u, 10.0, Active), 0.0)), Timed(0.0, LogoutOp(t)), Timed(0.0, RevokeOp(0))]
  }

  lemma SessionSteps(f: Family, u: User, t: Token, familyTtl: int)
    ensures var c := Session(f, u, t);
            var x1, y1 := MemoryStep(Side(EMPTY, []), c[0]), RedisStep(Side(NOTHING, []), c[0], familyTtl);
            var x2, y2 := MemoryStep(x1, c[1]), RedisStep(y1, c[1], familyTtl);
            var x3, y3 := MemoryStep(x2, c[2]), RedisStep(y2, c[2], familyTtl);
            Alive(y1.store, t, 0.0) && x1.store.revoked == {} &&
            x3 == Side(Store(map[t := Record(t, f, u, 10.0, Active)], {f}), [Some(f)]) &&
            y3 == Side(Redis(map[t := Key(f, u, 10.0, Active, 10.0)], map[f := familyTtl as real]), [Some(f)])
  {
    var c := Session(f, u, t);
    var x1, y1 := MemoryStep(Side(EMPTY, []), c[0]), RedisStep(Side(NOTHING, []), c[0], familyTtl);
    assert x1.store.records == map[t := Record(t, f, u, 10.0, Active)];
    assert y1.store.keys == map[t := Key(f, u, 10.0, Active, 10.0)];
    var x2, y2 := MemoryStep(x1, c[1]), RedisStep(y1, c[1], familyTtl);
    assert x2.pending == [Some(f)] == y2.pending;
    var x3, y3 := MemoryStep(x2, c[2]), RedisStep(y2, c[2], familyTtl);
    assert x3.store.revoked == {f} && y3.store.markers == map[f := familyTtl as real];
  }

  /** Its logout is timely, and it saves nothing late. */
  lemma AfterSession(f: Family, u: User, t: Token, familyTtl: int)
    ensures var ops := Session(f, u, t);
            MemoryRun(ops) == Side(Store(map[t := Record(t, f, u, 10.0, Active)], {f}), [Some(f)]) &&
            RedisRun(ops, familyTtl) ==
            Side(Redis(map[t := Key(f, u, 10.0, Active, 10.0)], map[f := familyTtl as real]), [Some(f)]) &&
            !SavedLate(ops, f) && AllTimely(ops, familyTtl, f)
  {
    var ops := Session(f, u, t);
    SessionSteps(f, u, t, familyTtl);
    RunNext([], ops[0], familyTtl);
    assert [] + [ops[0]] == ops[..1];
    RunNext(ops[..1], ops[1], familyTtl);
    assert ops[..1] + [ops[1]] == ops[..2];
    RunNext(ops[..2], ops[2], familyTtl);
    assert ops[..2] + [ops[2]] == ops && ops[..0] == [];
  }

  /** With tokens that live longer than the family's markers, a revoked one becomes good again. */
  lemma LongSaveSlipsThrough(f: Family, u: User, t: Token)
    ensures var ops := Session(f, u, t); SlipsThrough(ops, 5, 6.0, t) && !SavedLate(ops, f) && AllTimely(ops, 5, f)
  {
    AfterSession(f, u, t, 5);
    assert Truncate(6.0) == 6;
  }

  /** A token saved one second after its family was revoked outlives the marker. */
  lemma LateSaveSlipsThrough(f: Family, u: User, t1: Token, t2: Token)
    requires t1 != t2
    ensures var late := Timed(1.0, SaveOp(Record(t2, f, u, 11.0, Active), 1.0));
            var ops := Session(f, u, t1) + [late];
            SlipsThrough(ops, 10, 10.5, t2) && SavedInTime(ops, 10, f) && AllTimely(ops, 10, f)
  {
    var first, late := Session(f, u, t1), Timed(1.0, SaveOp(Record(t2, f, u, 11.0, Active), 1.0));
    AfterSession(f, u, t1, 10);
    RunNext(first, late, 10);
    assert Truncate(10.5) == 10;
    var ops := first + [late];
    assert forall i :: 0 <= i < |first| ==> ops[i] == first[i] && ops[..i] == first[..i];
  }

  lemma OneSave(c: Timed, familyTtl: int, f: Family)
    requires c.op.SaveOp? && c.op.record.family == f && 0.0 <= c.now
    ensures MemoryRun([c]) == MemoryStep(Side(EMPTY, []), c)
    ensures RedisRun([c], familyTtl) == RedisStep(Side(NOTHING, []), c, familyTtl)
    ensures !SavedLate([c], f) && AllTimely([c], familyTtl, f)
  {
    RunNext([], c, familyTtl);
    assert [] + [c] == [c] && [c][..0] == [];
  }

  /** With half a second to go the key outlives the token. */
  lemma ShortSaveSlipsThrough(f: Family, u: User, t: Token)
    ensures var ops := [Timed(0.0, SaveOp(Record(t, f, u, 0.5, Active), 0.0))];
            SlipsThrough(ops, 10, 0.75, t) && !SavedLate(ops, f) && AllTimely(ops, 10, f)
  {
    OneSave(Timed(0.0, SaveOp(Record(t, f, u, 0.5, Active), 0.0)), 10, f);
  }

  /** So it does when the key is set three quarters of a second after its lifetime was computed. */
  lemma SlowSaveSlipsThrough(f: Family, u: User, t: Token)
    ensures var ops := [Timed(0.75, SaveOp(Record(t, f, u, 9.5, Active), 0.0))];
            SlipsThrough(ops, 10, 9.6, t) && !SavedLate(ops, f) && AllTimely(ops, 10, f)
  {
    OneSave(Timed(0.75, SaveOp(Record(t, f, u, 9.5, Active), 0.0)), 10, f);
    assert Truncate(9.5) == 9 == Truncate(9.6);
  }
}
