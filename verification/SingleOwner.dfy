/** Critical sections guarded by a lease, in any interleaving, over either realisation of the lock. */
module SingleOwner {
  import opened Wrappers
  import opened LeaseLock

  type Process = nat

  /** The lock of one process, or the one that all instances share. */
  datatype Lock = InMemory | Redis {
    function TryAcquire(held: Leases, key: Name, ttl: int, token: Token, now: real): Reply {
      if this == InMemory then Acquire(held, key, ttl, token, now) else RedisAcquire(held, key, ttl, token, now)
    }

    function TryRenew(held: Leases, key: Name, ttl: int, token: Token, now: real): Reply {
      if this == InMemory then Renew(held, key, ttl, token, now) else RedisRenew(held, key, ttl, token, now)
    }

    function TryRelease(held: Leases, key: Name, token: Token, now: real): Reply {
      if this == InMemory then Release(held, key, token) else RedisRelease(held, key, token, now)
    }

    /** How long a granted lease lives. */
    function Granted(ttl: int): real {
      (if this == InMemory then ttl else WholeTtl(ttl)) as real
    }
  }

  /** A body that runs under a lease; `deadline` is what its last successful acquire or renew granted,
      or the time it let go of the lease. */
  datatype Body = Body(key: Name, token: Token, deadline: real)

  datatype World = World(held: Leases, now: real, bodies: map<Process, Body>, minted: set<Token>)

  datatype Event =
    | Enter(process: Process, key: Name, ttl: int, token: Token)
    | Extend(process: Process, ttl: int)
    | LetGo(process: Process)
    | Exit(process: Process)
    | Tick(now: real)

  function Min(a: real, b: real): real {
    if a < b then a else b
  }

  predicate Start(w: World) {
    w.held == map[] && w.bodies == map[] && w.minted == {}
  }

  ghost predicate Next(lock: Lock, w: World, ev: Event, w': World) {
    match ev
    case Enter(p, key, ttl, token) =>
      // a new token is drawn; the body runs only if the lock was free
      p !in w.bodies && token !in w.minted &&
      var reply := lock.TryAcquire(w.held, key, ttl, token, w.now);
      var body := Body(key, token, w.now + lock.Granted(ttl));
      w' == w.(held := reply.held,
               minted := w.minted + {token},
               bodies := if reply.success then w.bodies[p := body] else w.bodies)
    case Extend(p, ttl) =>
      p in w.bodies &&
      var body := w.bodies[p];
      var reply := lock.TryRenew(w.held, body.key, ttl, body.token, w.now);
      var renewed := body.(deadline := w.now + lock.Granted(ttl));
      w' == w.(held := reply.held,
               bodies := if reply.success then w.bodies[p := renewed] else w.bodies)
    case LetGo(p) =>
      // the body releases its lease early and goes on without one
      p in w.bodies &&
      var body := w.bodies[p];
      w' == w.(held := lock.TryRelease(w.held, body.key, body.token, w.now).held,
               bodies := w.bodies[p := body.(deadline := Min(body.deadline, w.now))])
    case Exit(p) =>
      // the lease is released on the way out, also after an error
      p in w.bodies &&
      var body := w.bodies[p];
      w' == w.(held := lock.TryRelease(w.held, body.key, body.token, w.now).held, bodies := w.bodies - {p})
    case Tick(now) =>
      w.now <= now && w' == w.(now := now)
  }

  ghost predicate IsRun(lock: Lock, worlds: seq<World>, events: seq<Event>) {
    |worlds| == |events| + 1 && Start(worlds[0]) &&
    forall i :: 0 <= i < |events| ==> Next(lock, worlds[i], events[i], worlds[i + 1])
  }

  /** A body within its deadline holds the lease, and what is held under its token is what it was granted. */
  ghost predicate Backed(w: World, b: Body) {
    (w.now < b.deadline ==> b.key in w.held && w.held[b.key] == Lease(b.token, b.deadline)) &&
    (b.key in w.held && w.held[b.key].token == b.token ==> w.held[b.key].expires == b.deadline)
  }

  ghost predicate TokensMinted(w: World) {
    (forall key <- w.held :: w.held[key].token in w.minted) &&
    (forall p <- w.bodies :: w.bodies[p].token in w.minted) &&
    (forall p, q :: p in w.bodies && q in w.bodies && p != q ==> w.bodies[p].token != w.bodies[q].token)
  }

  ghost predicate Inv(w: World) {
    TokensMinted(w) && forall p <- w.bodies :: Backed(w, w.bodies[p])
  }

  lemma TokensMintedStep(lock: Lock, w: World, ev: Event, w': World)
    requires TokensMinted(w) && Next(lock, w, ev, w')
    ensures TokensMinted(w')
  {
  }

  /** A call under one token leaves the lease of another body as it is, while that body may rely on it. */
  lemma LeaseUntouched(lock: Lock, w: World, ev: Event, w': World, b: Body)
    requires Backed(w, b) && Next(lock, w, ev, w') && w.now < b.deadline
    requires ev.Enter? ==> ev.token != b.token
    requires ev.Extend? || ev.LetGo? || ev.Exit? ==> w.bodies[ev.process].token != b.token
    ensures b.key in w'.held && w'.held[b.key] == w.held[b.key]
  {
  }

  lemma NoLeaseAppears(lock: Lock, w: World, ev: Event, w': World, b: Body)
    requires Next(lock, w, ev, w') && b.key in w'.held && w'.held[b.key].token == b.token
    requires ev.Enter? ==> ev.token != b.token
    requires ev.Extend? || ev.LetGo? || ev.Exit? ==> w.bodies[ev.process].token != b.token
    ensures b.key in w.held && w.held[b.key] == w'.held[b.key]
  {
  }

  /** What a call made for one body does to the lease of another: nothing. */
  lemma OthersStayBacked(lock: Lock, w: World, ev: Event, w': World, p: Process)
    requires Inv(w) && Next(lock, w, ev, w') && p in w.bodies && p in w'.bodies && w'.bodies[p] == w.bodies[p]
    requires ev.Extend? || ev.LetGo? || ev.Exit? ==> ev.process != p
    ensures Backed(w', w'.bodies[p])
  {
    var b := w.bodies[p];
    if w.now < b.deadline {
      LeaseUntouched(lock, w, ev, w', b);
    }
    if b.key in w'.held && w'.held[b.key].token == b.token {
      NoLeaseAppears(lock, w, ev, w', b);
    }
  }

  /** A body's own call leaves it backed by what it was granted. */
  lemma OwnStaysBacked(lock: Lock, w: World, ev: Event, w': World, p: Process)
    requires Inv(w) && Next(lock, w, ev, w') && p in w'.bodies
    requires (ev.Enter? && p !in w.bodies) || ((ev.Extend? || ev.LetGo?) && ev.process == p)
    ensures Backed(w', w'.bodies[p])
  {
    if p in w.bodies {
      assert Backed(w, w.bodies[p]);
    }
  }

  lemma InvStep(lock: Lock, w: World, ev: Event, w': World)
    requires Inv(w) && Next(lock, w, ev, w')
    ensures Inv(w')
  {
    TokensMintedStep(lock, w, ev, w');
    forall p | p in w'.bodies
      ensures Backed(w', w'.bodies[p])
    {
      if p !in w.bodies || ((ev.Extend? || ev.LetGo?) && ev.process == p) {
        OwnStaysBacked(lock, w, ev, w', p);
      } else {
        OthersStayBacked(lock, w, ev, w', p);
      }
    }
  }

  lemma {:induction false} InvOnRuns(lock: Lock, worlds: seq<World>, events: seq<Event>, i: nat)
    requires IsRun(lock, worlds, events) && i <= |events|
    ensures Inv(worlds[i])
  {
    if i > 0 {
      InvOnRuns(lock, worlds, events, i - 1);
      InvStep(lock, worlds[i - 1], events[i - 1], worlds[i]);
    }
  }

  /** Bodies under the same lock that have not let their lease lapse never overlap. */
  lemma BodiesExclude(lock: Lock, worlds: seq<World>, events: seq<Event>, i: nat, p: Process, q: Process)
    requires IsRun(lock, worlds, events) && i <= |events|
    requires p in worlds[i].bodies && q in worlds[i].bodies && worlds[i].bodies[p].key == worlds[i].bodies[q].key
    requires worlds[i].now < worlds[i].bodies[p].deadline && worlds[i].now < worlds[i].bodies[q].deadline
    ensures p == q
  {
    InvOnRuns(lock, worlds, events, i);
  }

  /** Without the proviso they can: a body that outlives its lease runs beside the next owner's. */
  lemma LapsedBodiesOverlap(lock: Lock) returns (worlds: seq<World>, events: seq<Event>)
    ensures IsRun(lock, worlds, events) && |events| == 3 && 0 in worlds[3].bodies && 1 in worlds[3].bodies
    ensures worlds[3].bodies[0].key == worlds[3].bodies[1].key
  {
    var k, a, b := Name("k"), Token("a"), Token("b");
    var w0 := World(map[], 0.0, map[], {});
    var w1 := World(map[k := Lease(a, 1.0)], 0.0, map[0 := Body(k, a, 1.0)], {a});
    var w2 := w1.(now := 2.0);
    var w3 := World(map[k := Lease(b, 3.0)], 2.0, map[0 := Body(k, a, 1.0), 1 := Body(k, b, 3.0)], {a, b});
    worlds, events := [w0, w1, w2, w3], [Enter(0, k, 1, a), Tick(2.0), Enter(1, k, 1, b)];
    assert w2.held[k := Lease(b, 3.0)] == w3.held;
    assert w2.bodies[1 := Body(k, b, 3.0)] == w3.bodies;
  }

  // ----- a token owns a lock for one interval -----

  function OwnerOf(w: World, key: Name): Option<Token> {
    LiveOwner(w.held, key, w.now)
  }

  /** Once generated and not the owner, never the owner again. */
  lemma LostStaysLost(lock: Lock, w: World, ev: Event, w': World, key: Name, token: Token)
    requires Inv(w) && Next(lock, w, ev, w') && token in w.minted && OwnerOf(w, key) != Some(token)
    ensures token in w'.minted && OwnerOf(w', key) != Some(token)
  {
  }

  lemma {:induction false} LostForGood(lock: Lock, worlds: seq<World>, events: seq<Event>,
                                       i: nat, j: nat, key: Name, token: Token)
    requires IsRun(lock, worlds, events) && i <= j <= |events|
    requires token in worlds[i].minted && OwnerOf(worlds[i], key) != Some(token)
    ensures OwnerOf(worlds[j], key) != Some(token) && token in worlds[j].minted
    decreases j
  {
    if i < j {
      LostForGood(lock, worlds, events, i, j - 1, key, token);
      InvOnRuns(lock, worlds, events, j - 1);
      LostStaysLost(lock, worlds[j - 1], events[j - 1], worlds[j], key, token);
    }
  }

  /** The instants at which a token owns a lock form one interval, so the intervals of two tokens are disjoint and
      do not interleave. */
  lemma OwnershipIsOneInterval(lock: Lock, worlds: seq<World>, events: seq<Event>,
                               i: nat, j: nat, k: nat, key: Name, token: Token)
    requires IsRun(lock, worlds, events) && i <= j <= k <= |events|
    requires OwnerOf(worlds[i], key) == Some(token) && OwnerOf(worlds[k], key) == Some(token)
    ensures OwnerOf(worlds[j], key) == Some(token)
  {
    InvOnRuns(lock, worlds, events, i);
    MintedStays(lock, worlds, events, i, j, token);
    if OwnerOf(worlds[j], key) != Some(token) {
      LostForGood(lock, worlds, events, j, k, key, token);
    }
  }

  lemma {:induction false} MintedStays(lock: Lock, worlds: seq<World>, events: seq<Event>, i: nat, j: nat, token: Token)
    requires IsRun(lock, worlds, events) && i <= j <= |events| && token in worlds[i].minted
    ensures token in worlds[j].minted
    decreases j
  {
    if i < j {
      MintedStays(lock, worlds, events, i, j - 1, token);
      assert Next(lock, worlds[j - 1], events[j - 1], worlds[j]);
    }
  }
}
