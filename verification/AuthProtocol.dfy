/** Login, rotation and logout as interleaved steps over one token store, in memory or in Redis.

    A refresh consumes its token in one step and saves the next token in a later one; a detected replay is answered
    in one step and its family revoked in a later one. Between two steps of a request anything else may happen. */
module AuthProtocol {
  import opened Wrappers
  import opened RefreshStore
  import opened RedisRefreshStore

  /** What the protocol sees of a stored token. */
  datatype Entry = Entry(family: Family, status: Status)

  datatype Backend = InMemory(memory: Store) | InRedis(redis: Redis, familyTtl: int) {
    function Verdict(t: Token, now: real): Outcome {
      match this
      case InMemory(s) => Classify(s, t, now)
      case InRedis(s, _) => RedisClassify(s, t, now)
    }

    function AfterConsume(t: Token, now: real): Backend {
      match this
      case InMemory(s) => InMemory(Consume(s, t, now))
      case InRedis(s, ttl) => InRedis(RedisConsume(s, t, now), ttl)
    }

    /** `read` is when the lifetime of the key was computed, `now` when the key is set. */
    function AfterSave(r: Record, read: real, now: real): Backend {
      match this
      case InMemory(s) => InMemory(Save(s, r))
      case InRedis(s, ttl) => InRedis(RedisSave(s, r, read, now), ttl)
    }

    function AfterRevoke(f: Family, now: real): Backend {
      match this
      case InMemory(s) => InMemory(Revoke(s, f))
      case InRedis(s, ttl) => InRedis(RedisRevoke(s, f, now, ttl), ttl)
    }

    function Owner(t: Token, now: real): Option<Family> {
      match this
      case InMemory(s) => FamilyOf(s, t)
      case InRedis(s, _) => RedisFamilyOf(s, t, now)
    }

    /** The stored tokens, lapsed or not. */
    ghost function Entries(): map<Token, Entry> {
      match this
      case InMemory(s) => map t | t in s.records :: Entry(s.records[t].family, s.records[t].status)
      case InRedis(s, _) => map t | t in s.keys :: Entry(s.keys[t].family, s.keys[t].status)
    }
  }

  /** A valid token was unconsumed and is consumed then; no other verdict changes anything. */
  lemma ConsumeEntries(b: Backend, t: Token, now: real)
    ensures var o, e := b.Verdict(t, now), b.Entries();
            if o.state == VALID then
              t in e && e[t].status == Active && o.user.Some? && o.family == Some(e[t].family) &&
              b.AfterConsume(t, now).Entries() == e[t := e[t].(status := Consumed)]
            else b.AfterConsume(t, now) == b
  {
  }

  lemma SaveEntries(b: Backend, r: Record, read: real, now: real)
    ensures b.AfterSave(r, read, now).Entries() == b.Entries()[r.token := Entry(r.family, r.status)]
  {
  }

  lemma RevokeEntries(b: Backend, f: Family, now: real)
    ensures b.AfterRevoke(f, now).Entries() == b.Entries()
  {
  }

  /** What a request in flight still has to do. */
  datatype Task =
    | Issuing(family: Family, user: User)
    | Saving(record: Record)
    | Revoking(family: Family)

  type Request = nat

  /** `minted` and `families` are the tokens and families generated so far. */
  datatype World = World(store: Backend, now: real, tasks: map<Request, Task>, minted: set<Token>,
                         families: set<Family>)

  datatype Event =
    | LogIn(request: Request, user: User, family: Family)
    | Present(request: Request, token: Token, outcome: Outcome)
    | Issue(request: Request, token: Token)
    | SaveIt(request: Request, read: real)
    | RevokeIt(request: Request)
    | LogOut(request: Request, token: Token)
    | Tick(now: real)

  predicate Start(w: World) {
    (w.store.InMemory? ==> w.store.memory == EMPTY) && (w.store.InRedis? ==> w.store.redis == NOTHING) &&
    w.tasks == map[] && w.minted == {} && w.families == {}
  }

  /** The continuation of a refresh after its token was classified. */
  function AfterPresent(tasks: map<Request, Task>, request: Request, outcome: Outcome): map<Request, Task> {
    if outcome.state == VALID && outcome.user.Some? && outcome.family.Some?
    then tasks[request := Issuing(outcome.family.value, outcome.user.value)]
    else if outcome.state == ROTATED && outcome.family.Some? then tasks[request := Revoking(outcome.family.value)]
    else tasks
  }

  ghost predicate Next(w: World, ev: Event, w': World, ttl: real) {
    match ev
    case LogIn(q, user, family) =>
      // a new family for every login
      q !in w.tasks && family !in w.families &&
      w' == w.(tasks := w.tasks[q := Issuing(family, user)], families := w.families + {family})
    case Present(q, token, outcome) =>
      q !in w.tasks && outcome == w.store.Verdict(token, w.now) &&
      w' == w.(store := w.store.AfterConsume(token, w.now), tasks := AfterPresent(w.tasks, q, outcome))
    case Issue(q, token) =>
      // a new random token; the clock is read here
      q in w.tasks && w.tasks[q].Issuing? && token !in w.minted &&
      var record := Record(token, w.tasks[q].family, w.tasks[q].user, w.now + ttl, Active);
      w' == w.(tasks := w.tasks[q := Saving(record)], minted := w.minted + {token})
    case SaveIt(q, read) =>
      // the clock is read again to compute the lifetime of the key
      q in w.tasks && w.tasks[q].Saving? && read <= w.now &&
      w' == w.(store := w.store.AfterSave(w.tasks[q].record, read, w.now), tasks := w.tasks - {q})
    case RevokeIt(q) =>
      q in w.tasks && w.tasks[q].Revoking? &&
      w' == w.(store := w.store.AfterRevoke(w.tasks[q].family, w.now), tasks := w.tasks - {q})
    case LogOut(q, token) =>
      var family := w.store.Owner(token, w.now);
      q !in w.tasks &&
      w' == if family.Some? then w.(tasks := w.tasks[q := Revoking(family.value)]) else w
    case Tick(now) =>
      w.now <= now && w' == w.(now := now)
  }

  ghost predicate StepAt(worlds: seq<World>, events: seq<Event>, ttl: real, i: nat)
    requires i < |events| == |worlds| - 1
  {
    Next(worlds[i], events[i], worlds[i + 1], ttl)
  }

  ghost predicate IsRun(worlds: seq<World>, events: seq<Event>, ttl: real) {
    |worlds| == |events| + 1 && Start(worlds[0]) &&
    forall i :: 0 <= i < |events| ==> StepAt(worlds, events, ttl, i)
  }

  // ----- at most one unconsumed token -----

  /** A claim on a family: an unconsumed token, or a request that is about to save one. */
  datatype Claim = Held(token: Token) | InFlight(request: Request)

  ghost predicate Claims(w: World, c: Claim, f: Family) {
    match c
    case Held(t) => t in w.store.Entries() && w.store.Entries()[t] == Entry(f, Active)
    case InFlight(q) =>
      q in w.tasks &&
      match w.tasks[q] {
        case Issuing(family, _) => family == f
        case Saving(record) => record.family == f
        case Revoking(_) => false
      }
  }

  ghost function ClaimsOn(w: World, f: Family): set<Claim> {
    set c | c in (set t | t in w.store.Entries() :: Held(t)) + (set q | q in w.tasks :: InFlight(q)) && Claims(w, c, f)
  }

  /** Only generated tokens are stored. */
  ghost predicate RecordsFiled(w: World) {
    w.store.Entries().Keys <= w.minted
  }

  /** A token that waits to be saved is new to the store, and only one request saves it. */
  ghost predicate SavesNew(w: World) {
    (forall q <- w.tasks :: w.tasks[q].Saving? ==>
       var r := w.tasks[q].record; r.token in w.minted && r.token !in w.store.Entries() && r.status == Active) &&
    (forall p, q :: p in w.tasks && q in w.tasks && p != q && w.tasks[p].Saving? && w.tasks[q].Saving? ==>
       w.tasks[p].record.token != w.tasks[q].record.token)
  }

  ghost predicate Filed(w: World) {
    RecordsFiled(w) && SavesNew(w)
  }

  ghost predicate SoleClaims(w: World) {
    (forall c, f :: Claims(w, c, f) ==> f in w.families) &&
    (forall c, d, f :: Claims(w, c, f) && Claims(w, d, f) ==> c == d)
  }

  ghost predicate Inv(w: World) {
    Filed(w) && SoleClaims(w)
  }

  /** A step that adds no claim except on a family that had none, or in place of one it takes away. */
  lemma ClaimsFollow(w: World, w': World, f: Family, taken: Claim, given: Claim)
    requires SoleClaims(w) && w.families <= w'.families && f in w'.families
    requires Claims(w, taken, f) || f !in w.families
    requires forall c, g :: Claims(w', c, g) ==> (c == given && g == f) || (Claims(w, c, g) && c != taken)
    ensures SoleClaims(w')
  {
  }

  /** What a step does to the stored tokens. */
  lemma EntriesStep(w: World, ev: Event, w': World, ttl: real)
    requires Next(w, ev, w', ttl)
    ensures var e, e' := w.store.Entries(), w'.store.Entries();
            match ev
            case Present(_, t, outcome) =>
              if outcome.state == VALID then
                t in e && e[t].status == Active && outcome.user.Some? && outcome.family == Some(e[t].family) &&
                e' == e[t := e[t].(status := Consumed)]
              else e' == e
            case SaveIt(q, _) => var r := w.tasks[q].record; e' == e[r.token := Entry(r.family, r.status)]
            case _ => e' == e
  {
    match ev
    case Present(_, t, _) => ConsumeEntries(w.store, t, w.now);
    case SaveIt(q, read) => SaveEntries(w.store, w.tasks[q].record, read, w.now);
    case RevokeIt(q) => RevokeEntries(w.store, w.tasks[q].family, w.now);
    case _ =>
  }

  lemma RecordsFiledStep(w: World, ev: Event, w': World, ttl: real)
    requires RecordsFiled(w) && SavesNew(w) && Next(w, ev, w', ttl)
    ensures RecordsFiled(w')
  {
    EntriesStep(w, ev, w', ttl);
  }

  lemma SavesNewStep(w: World, ev: Event, w': World, ttl: real)
    requires RecordsFiled(w) && SavesNew(w) && Next(w, ev, w', ttl)
    ensures SavesNew(w')
  {
    EntriesStep(w, ev, w', ttl);
  }

  /** A successful rotation trades the token for the request that will save its successor. */
  lemma ClaimsAfterPresent(w: World, ev: Event, w': World, ttl: real)
    requires Inv(w) && ev.Present? && Next(w, ev, w', ttl)
    ensures SoleClaims(w')
  {
    var token, q := ev.token, ev.request;
    EntriesStep(w, ev, w', ttl);
    if ev.outcome.state == VALID {
      var family := w.store.Entries()[token].family;
      assert Claims(w, Held(token), family);
      forall c, g | Claims(w', c, g)
        ensures (c == InFlight(q) && g == family) || (Claims(w, c, g) && c != Held(token))
      {
      }
      ClaimsFollow(w, w', family, Held(token), InFlight(q));
    } else {
      assert forall c, g :: Claims(w', c, g) ==> Claims(w, c, g);
    }
  }

  /** Saving trades the request for the token it saved. */
  lemma ClaimsAfterSave(w: World, ev: Event, w': World, ttl: real)
    requires Inv(w) && ev.SaveIt? && Next(w, ev, w', ttl)
    ensures SoleClaims(w')
  {
    var q := ev.request;
    var r := w.tasks[q].record;
    EntriesStep(w, ev, w', ttl);
    assert Claims(w, InFlight(q), r.family);
    forall c, g | Claims(w', c, g)
      ensures (c == Held(r.token) && g == r.family) || (Claims(w, c, g) && c != InFlight(q))
    {
    }
    ClaimsFollow(w, w', r.family, InFlight(q), Held(r.token));
  }

  /** The other steps hand over or drop requests. */
  lemma ClaimsAfterOther(w: World, ev: Event, w': World, ttl: real)
    requires Inv(w) && !ev.Present? && !ev.SaveIt? && Next(w, ev, w', ttl)
    ensures SoleClaims(w')
  {
    EntriesStep(w, ev, w', ttl);
    if ev.LogIn? {
      ClaimsFollow(w, w', ev.family, InFlight(ev.request), InFlight(ev.request));
    } else {
      assert forall c, g :: Claims(w', c, g) ==> Claims(w, c, g);
    }
  }

  lemma InvStep(w: World, ev: Event, w': World, ttl: real)
    requires Inv(w) && Next(w, ev, w', ttl)
    ensures Inv(w')
  {
    RecordsFiledStep(w, ev, w', ttl);
    SavesNewStep(w, ev, w', ttl);
    match ev
    case Present(_, _, _) => ClaimsAfterPresent(w, ev, w', ttl);
    case SaveIt(_, _) => ClaimsAfterSave(w, ev, w', ttl);
    case _ => ClaimsAfterOther(w, ev, w', ttl);
  }

  lemma {:induction false} InvOnRuns(worlds: seq<World>, events: seq<Event>, ttl: real, i: nat)
    requires IsRun(worlds, events, ttl) && i <= |events|
    ensures Inv(worlds[i])
  {
    if i > 0 {
      InvOnRuns(worlds, events, ttl, i - 1);
      assert StepAt(worlds, events, ttl, i - 1);
      InvStep(worlds[i - 1], events[i - 1], worlds[i], ttl);
    }
  }

  lemma AtMostOne<T>(s: set<T>)
    requires forall a, b :: a in s && b in s ==> a == b
    ensures |s| <= 1
  {
    if a :| a in s {
      assert s == {a};
    }
  }

  /** In every interleaving a family has at most one unconsumed token, counting those still to be saved. */
  lemma AtMostOneClaim(worlds: seq<World>, events: seq<Event>, ttl: real, i: nat, f: Family)
    requires IsRun(worlds, events, ttl) && i <= |events|
    ensures |ClaimsOn(worlds[i], f)| <= 1
  {
    InvOnRuns(worlds, events, ttl, i);
    AtMostOne(ClaimsOn(worlds[i], f));
  }

  // ----- what stays -----

  /** Consumed stays consumed, a token stays in its family, and in memory a revoked family stays revoked. */
  ghost predicate Stays(w: World, w': World) {
    (w.store.InMemory? <==> w'.store.InMemory?) &&
    (w.store.InMemory? ==> w.store.memory.revoked <= w'.store.memory.revoked) &&
    var e, e' := w.store.Entries(), w'.store.Entries();
    forall t <- e :: t in e' && e'[t].family == e[t].family && (e[t].status == Consumed ==> e'[t].status == Consumed)
  }

  lemma StaysStep(w: World, ev: Event, w': World, ttl: real)
    requires Inv(w) && Next(w, ev, w', ttl)
    ensures Stays(w, w')
  {
    EntriesStep(w, ev, w', ttl);
  }

  lemma {:induction false} StaysOnRuns(worlds: seq<World>, events: seq<Event>, ttl: real, i: nat, j: nat)
    requires IsRun(worlds, events, ttl) && i <= j <= |events|
    ensures Stays(worlds[i], worlds[j])
    decreases j
  {
    if i < j {
      StaysOnRuns(worlds, events, ttl, i, j - 1);
      InvOnRuns(worlds, events, ttl, j - 1);
      assert StepAt(worlds, events, ttl, j - 1);
      StaysStep(worlds[j - 1], events[j - 1], worlds[j], ttl);
    }
  }

  lemma ValidConsumes(w: World, ev: Event, w': World, ttl: real)
    requires ev.Present? && ev.outcome.state == VALID && Next(w, ev, w', ttl)
    ensures ev.token in w.store.Entries() && w.store.Entries()[ev.token].status == Active
    ensures ev.token in w'.store.Entries() && w'.store.Entries()[ev.token].status == Consumed
  {
    EntriesStep(w, ev, w', ttl);
  }

  /** No token is accepted twice in a run, whichever store is behind it. */
  lemma ValidAtMostOnce(worlds: seq<World>, events: seq<Event>, ttl: real, i: nat, j: nat)
    requires IsRun(worlds, events, ttl) && i < j < |events|
    requires events[i].Present? && events[i].outcome.state == VALID
    requires events[j].Present? && events[j].token == events[i].token
    ensures events[j].outcome.state != VALID
  {
    assert StepAt(worlds, events, ttl, i) && StepAt(worlds, events, ttl, j);
    ValidConsumes(worlds[i], events[i], worlds[i + 1], ttl);
    StaysOnRuns(worlds, events, ttl, i + 1, j);
    if events[j].outcome.state == VALID {
      ValidConsumes(worlds[j], events[j], worlds[j + 1], ttl);
    }
  }

  /** In memory a revoked family is dead: each of its tokens is refused, also one saved after the revocation. */
  lemma RevokedForGood(worlds: seq<World>, events: seq<Event>, ttl: real, i: nat, j: nat, f: Family)
    requires IsRun(worlds, events, ttl) && i <= j < |events|
    requires worlds[i].store.InMemory? && f in worlds[i].store.memory.revoked
    requires events[j].Present? && worlds[j].store.Owner(events[j].token, worlds[j].now) == Some(f)
    ensures events[j].outcome.state == REVOKED && worlds[j + 1] == worlds[j]
  {
    assert StepAt(worlds, events, ttl, j);
    StaysOnRuns(worlds, events, ttl, i, j);
  }

  predicate Belongs(ev: Event, q: Request) {
    match ev
    case LogIn(r, _, _) => r == q
    case Present(r, _, _) => r == q
    case Issue(r, _) => r == q
    case SaveIt(r, _) => r == q
    case RevokeIt(r) => r == q
    case LogOut(r, _) => r == q
    case Tick(_) => false
  }

  lemma {:induction false} TaskWaits(worlds: seq<World>, events: seq<Event>, ttl: real, i: nat, j: nat, q: Request)
    requires IsRun(worlds, events, ttl) && i <= j <= |events| && q in worlds[i].tasks
    requires forall k :: i <= k < j ==> !Belongs(events[k], q)
    ensures q in worlds[j].tasks && worlds[j].tasks[q] == worlds[i].tasks[q]
    decreases j
  {
    if i < j {
      TaskWaits(worlds, events, ttl, i, j - 1, q);
      assert StepAt(worlds, events, ttl, j - 1);
    }
  }

  /** In memory, replaying a consumed, unexpired token kills its family: once the replaying request has taken its
      next step, every later token of the family is refused. */
  lemma ReplayRevokes(worlds: seq<World>, events: seq<Event>, ttl: real, i: nat, j: nat, k: nat)
    requires IsRun(worlds, events, ttl) && i < j < k < |events|
    requires events[i].Present? && events[i].outcome.state == ROTATED
    requires Belongs(events[j], events[i].request)
    requires forall m :: i < m < j ==> !Belongs(events[m], events[i].request)
    requires worlds[i].store.InMemory? && events[k].Present?
    requires worlds[k].store.Owner(events[k].token, worlds[k].now) == events[i].outcome.family
    ensures events[j].RevokeIt? && events[k].outcome.state == REVOKED
  {
    var q := events[i].request;
    assert StepAt(worlds, events, ttl, i);
    TaskWaits(worlds, events, ttl, i + 1, j, q);
    assert StepAt(worlds, events, ttl, j);
    StaysOnRuns(worlds, events, ttl, i, j);
    RevokedForGood(worlds, events, ttl, j + 1, k, events[i].outcome.family.value);
  }
}
