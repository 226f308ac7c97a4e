/** Serving analytics cache-aside, with invalidation on mutation events and a lifetime as the safety net. */
module AnalyticsCache {
  import opened Wrappers
  import opened Analytics
  import opened MemoryStatus

  // ----- keys -----

  /** A user, or everybody. */
  type Scope = Option<string>

  function ScopeText(scope: Scope): string {
    if scope.Some? then "user:" + scope.value else "global"
  }

  function AnalyticsKey(scope: Scope): string {
    "analytics:" + ScopeText(scope)
  }

  function HealthKey(scope: Scope): string {
    "health:" + ScopeText(scope)
  }

  function InvalidationKeys(user: string): seq<string> {
    [AnalyticsKey(Some(user)), AnalyticsKey(None), HealthKey(Some(user)), HealthKey(None)]
  }

  /** Different scopes have different keys, and invalidation hits exactly the writer's and the global ones. */
  lemma KeysDistinct(a: Scope, b: Scope, user: string)
    ensures AnalyticsKey(a) == AnalyticsKey(b) <==> a == b
    ensures AnalyticsKey(a) in InvalidationKeys(user) <==> a == Some(user) || a == None
  {
    assert AnalyticsKey(a)[10..] == ScopeText(a) && AnalyticsKey(b)[10..] == ScopeText(b);
    assert AnalyticsKey(a)[0] == 'a' && HealthKey(None)[0] == 'h' && HealthKey(Some(user))[0] == 'h';
    assert AnalyticsKey(None)[10..] == "global" && AnalyticsKey(Some(user))[10..] == "user:" + user;
    assert a.Some? ==> ScopeText(a)[0] == 'u' && ScopeText(a)[5..] == a.value;
    assert b.Some? ==> ScopeText(b)[0] == 'u' && ScopeText(b)[5..] == b.value;
    assert a.None? ==> ScopeText(a)[0] == 'g';
    assert ("user:" + user)[0] == 'u' && ("user:" + user)[5..] == user;
  }

  // ----- the cache -----

  datatype Entry = Entry(value: Summary, expires: real)

  type Cache = map<string, Entry>

  function Lookup(cache: Cache, key: string, now: real): Option<Summary> {
    if key in cache && now < cache[key].expires then Some(cache[key].value) else None
  }

  class InMemoryCacheProvider {
    var store: Cache

    constructor ()
      ensures store == map[]
    {
      store := map[];
    }

    /** An entry that has expired is evicted on the way. */
    method Get(key: string, now: real) returns (value: Option<Summary>)
      modifies this
      ensures value == Lookup(old(store), key, now)
      ensures store == if value.None? then old(store) - {key} else old(store)
    {
      if key !in store {
        assert store - {key} == store;
        return None;
      }
      if now >= store[key].expires {
        store := store - {key};
        return None;
      }
      return Some(store[key].value);
    }

    method Set(key: string, value: Summary, ttl: int, now: real)
      modifies this
      ensures store == old(store)[key := Entry(value, now + ttl as real)]
    {
      store := store[key := Entry(value, now + ttl as real)];
    }

    method Delete(key: string)
      modifies this
      ensures store == old(store) - {key}
    {
      store := store - {key};
    }
  }

  function Without(cache: Cache, keys: seq<string>): Cache {
    if keys == [] then cache else Without(cache, keys[..|keys| - 1]) - {keys[|keys| - 1]}
  }

  lemma {:induction false} WithoutIs(cache: Cache, keys: seq<string>)
    ensures Without(cache, keys) == map k | k in cache && k !in keys :: cache[k]
  {
    if keys != [] {
      WithoutIs(cache, keys[..|keys| - 1]);
      assert keys == keys[..|keys| - 1] + [keys[|keys| - 1]];
    }
  }

  /** What a read answers and leaves in the cache. */
  function Served(cache: Cache, rows: seq<Row>, scope: Scope, now: real): Summary {
    var hit := Lookup(cache, AnalyticsKey(scope), now);
    if hit.Some? then hit.value else Aggregate(ListFor(rows, scope))
  }

  function CacheAfterRead(cache: Cache, rows: seq<Row>, scope: Scope, now: real, ttl: int): Cache {
    var key := AnalyticsKey(scope);
    if Lookup(cache, key, now).Some? then cache
    else cache[key := Entry(Aggregate(ListFor(rows, scope)), now + ttl as real)]
  }

  /** The memories that are not deleted, of one user or of all. */
  function ListFor(rows: seq<Row>, scope: Scope): seq<Row> {
    if rows == [] then []
    else
      var last := rows[|rows| - 1];
      ListFor(rows[..|rows| - 1], scope) +
      if last.status != Deleted && (scope.None? || last.user == scope.value) then [last] else []
  }

  /** The service in front of the table and the cache. */
  class MemoryAnalyticsService {
    const cache: InMemoryCacheProvider
    const ttl: int

    constructor (cache: InMemoryCacheProvider, ttl: int)
      ensures this.cache == cache && this.ttl == ttl
    {
      this.cache, this.ttl := cache, ttl;
    }

    method GetAnalytics(rows: seq<Row>, scope: Scope, now: real) returns (result: Summary)
      modifies cache
      ensures result == Served(old(cache.store), rows, scope, now)
      ensures cache.store == CacheAfterRead(old(cache.store), rows, scope, now, ttl)
    {
      var key := AnalyticsKey(scope);
      var cached := cache.Get(key, now);
      if cached.Some? {
        return cached.value;
      }
      var memories := ListFor(rows, scope);
      var distribution := CountScores(memories);
      result := Aggregate(memories).(distribution := distribution);
      cache.Set(key, result, ttl, now);
    }

    /** The handler of the subscribed mutation events. */
    method OnMemoryMutation(user: string)
      modifies cache
      ensures cache.store == Without(old(cache.store), InvalidationKeys(user))
    {
      var keys := InvalidationKeys(user);
      for i := 0 to |keys|
        invariant cache.store == Without(old(cache.store), keys[..i])
      {
        assert keys[..i + 1][..i] == keys[..i];
        cache.Delete(keys[i]);
      }
      assert keys[..|keys|] == keys;
    }
  }

  // ----- runs -----

  datatype World = World(rows: seq<Row>, cache: Cache, now: real)

  datatype Event =
    | Write(user: string, rows: seq<Row>, emitted: Option<EventKind>)
    | Read(scope: Scope, served: Summary)
    | Tick(now: real)

  /** The events the invalidation handler is registered for. */
  const SUBSCRIBED := {MemoryCreated, MemoryUpdated, MemoryArchived, MemoryDeleted, MemoryPromoted, MemoryReinforced,
                       MemoryDecayed}

  predicate Announced(ev: Event) {
    ev.Write? ==> ev.emitted.Some? && ev.emitted.value in SUBSCRIBED
  }

  /** A write that is announced, or that the aggregate of this scope does not show. */
  ghost predicate Harmless(before: seq<Row>, ev: Event, scope: Scope) {
    ev.Write? && !Announced(ev) ==> Aggregate(ListFor(ev.rows, scope)) == Aggregate(ListFor(before, scope))
  }

  /** A write changes the memories of one user only. */
  ghost predicate OnlyChanges(before: seq<Row>, after: seq<Row>, user: string) {
    forall other :: other != user ==> ListFor(after, Some(other)) == ListFor(before, Some(other))
  }

  ghost predicate Next(w: World, ev: Event, w': World, ttl: int) {
    match ev
    case Write(user, rows, emitted) =>
      // the handler of an emitted event runs before the next step
      OnlyChanges(w.rows, rows, user) &&
      w' == w.(rows := rows, cache := if Announced(ev) then Without(w.cache, InvalidationKeys(user)) else w.cache)
    case Read(scope, served) =>
      served == Served(w.cache, w.rows, scope, w.now) &&
      w' == w.(cache := CacheAfterRead(w.cache, w.rows, scope, w.now, ttl))
    case Tick(now) =>
      w.now <= now && w' == w.(now := now)
  }

  ghost predicate StepAt(worlds: seq<World>, events: seq<Event>, ttl: int, i: nat)
    requires i < |events| == |worlds| - 1
  {
    Next(worlds[i], events[i], worlds[i + 1], ttl)
  }

  ghost predicate IsRun(worlds: seq<World>, events: seq<Event>, ttl: int) {
    |worlds| == |events| + 1 && worlds[0].cache == map[] &&
    forall i :: 0 <= i < |events| ==> StepAt(worlds, events, ttl, i)
  }

  /** What is cached for a scope, expired or not, is the aggregate of the table as it is now. */
  ghost predicate Fresh(w: World, scope: Scope) {
    AnalyticsKey(scope) in w.cache ==> w.cache[AnalyticsKey(scope)].value == Aggregate(ListFor(w.rows, scope))
  }

  lemma FreshStep(w: World, ev: Event, w': World, ttl: int, scope: Scope)
    requires Fresh(w, scope) && Next(w, ev, w', ttl) && Harmless(w.rows, ev, scope)
    ensures Fresh(w', scope)
  {
    match ev
    case Write(user, rows, _) =>
      if Announced(ev) {
        WithoutIs(w.cache, InvalidationKeys(user));
        KeysDistinct(scope, scope, user);
      }
    case Read(other, _) =>
      KeysDistinct(scope, other, "");
    case Tick(_) =>
  }

  lemma {:induction false} FreshOnRuns(worlds: seq<World>, events: seq<Event>, ttl: int, i: nat, scope: Scope)
    requires IsRun(worlds, events, ttl) && i <= |events|
    requires forall k :: 0 <= k < i ==> Harmless(worlds[k].rows, events[k], scope)
    ensures Fresh(worlds[i], scope)
  {
    if i > 0 {
      FreshOnRuns(worlds, events, ttl, i - 1, scope);
      assert StepAt(worlds, events, ttl, i - 1);
      FreshStep(worlds[i - 1], events[i - 1], worlds[i], ttl, scope);
    }
  }

  /** If every write so far was announced, or did not change the aggregate of a scope, a read of that scope serves the
      aggregate of the current table. */
  lemma ReadsAreFresh(worlds: seq<World>, events: seq<Event>, ttl: int, i: nat)
    requires IsRun(worlds, events, ttl) && i < |events| && events[i].Read?
    requires forall k :: 0 <= k < i ==> Harmless(worlds[k].rows, events[k], events[i].scope)
    ensures events[i].served == Aggregate(ListFor(worlds[i].rows, events[i].scope))
  {
    FreshOnRuns(worlds, events, ttl, i, events[i].scope);
    assert StepAt(worlds, events, ttl, i);
  }

  /** So a user is served fresh aggregates as long as the unannounced writes are those of other users. */
  lemma OwnReadsAreFresh(worlds: seq<World>, events: seq<Event>, ttl: int, i: nat, user: string)
    requires IsRun(worlds, events, ttl) && i < |events| && events[i].Read? && events[i].scope == Some(user)
    requires forall k :: 0 <= k < i && events[k].Write? && !Announced(events[k]) ==> events[k].user != user
    ensures events[i].served == Aggregate(ListFor(worlds[i].rows, Some(user)))
  {
    forall k | 0 <= k < i
      ensures Harmless(worlds[k].rows, events[k], Some(user))
    {
      assert StepAt(worlds, events, ttl, k);
    }
    ReadsAreFresh(worlds, events, ttl, i);
  }

  /** A cached value is the aggregate that this world's table had, `ttl` before it expires. */
  ghost predicate Dated(w: World, ttl: int, scope: Scope, e: Entry) {
    e.value == Aggregate(ListFor(w.rows, scope)) && e.expires == w.now + ttl as real
  }

  /** A step keeps an entry, drops it, or writes what a read of this scope has just computed. */
  lemma EntryStep(w: World, ev: Event, w': World, ttl: int, scope: Scope)
    requires Next(w, ev, w', ttl) && AnalyticsKey(scope) in w'.cache
    ensures var key := AnalyticsKey(scope);
            (key in w.cache && w'.cache[key] == w.cache[key]) || Dated(w, ttl, scope, w'.cache[key])
  {
    match ev
    case Write(user, _, _) =>
      WithoutIs(w.cache, InvalidationKeys(user));
    case Read(other, _) =>
      KeysDistinct(scope, other, "");
    case Tick(_) =>
  }

  lemma {:induction false} EntriesDated(worlds: seq<World>, events: seq<Event>, ttl: int, i: nat, scope: Scope)
    returns (j: nat)
    requires IsRun(worlds, events, ttl) && i <= |events| && AnalyticsKey(scope) in worlds[i].cache
    ensures j <= i && Dated(worlds[j], ttl, scope, worlds[i].cache[AnalyticsKey(scope)])
  {
    var key := AnalyticsKey(scope);
    var w, w' := worlds[i - 1], worlds[i];
    assert StepAt(worlds, events, ttl, i - 1);
    EntryStep(w, events[i - 1], w', ttl, scope);
    if key in w.cache && w'.cache[key] == w.cache[key] {
      j := EntriesDated(worlds, events, ttl, i - 1, scope);
    } else {
      j := i - 1;
    }
  }

  /** Also with unannounced writes, a served value was right at most `ttl` seconds ago. */
  lemma StaleAtMostTtl(worlds: seq<World>, events: seq<Event>, ttl: int, i: nat) returns (j: nat)
    requires IsRun(worlds, events, ttl) && i < |events| && events[i].Read?
    ensures j <= i && events[i].served == Aggregate(ListFor(worlds[j].rows, events[i].scope))
    ensures j < i ==> worlds[i].now < worlds[j].now + ttl as real
  {
    var scope := events[i].scope;
    assert StepAt(worlds, events, ttl, i);
    if Lookup(worlds[i].cache, AnalyticsKey(scope), worlds[i].now).Some? {
      j := EntriesDated(worlds, events, ttl, i, scope);
    } else {
      j := i;
    }
  }

  /** Without an announcement any write that changes an aggregate can be missed: a read before it leaves the old
      aggregate behind, and the read after it serves that. */
  lemma QuietWriteIsMissed(before: seq<Row>, write: Event, scope: Scope, now: real, ttl: int)
    returns (worlds: seq<World>, events: seq<Event>)
    requires ttl > 0 && write.Write? && !Announced(write) && OnlyChanges(before, write.rows, write.user)
    requires Aggregate(ListFor(before, scope)) != Aggregate(ListFor(write.rows, scope))
    ensures IsRun(worlds, events, ttl) && |events| == 3 && worlds[0].rows == before
    ensures events[1] == write && events[2].Read? && events[2].scope == scope
    ensures worlds[2].rows == write.rows && events[2].served != Aggregate(ListFor(worlds[2].rows, scope))
  {
    var stale := Aggregate(ListFor(before, scope));
    var w0 := World(before, map[], now);
    var w1 := w0.(cache := map[AnalyticsKey(scope) := Entry(stale, now + ttl as real)]);
    var w2 := w1.(rows := write.rows);
    var read := Read(scope, stale);
    worlds, events := [w0, w1, w2, w2], [read, write, read];
    assert Next(w0, read, w1, ttl) && Next(w1, write, w2, ttl) && Next(w2, read, w2, ttl);
    assert StepAt(worlds, events, ttl, 0) && StepAt(worlds, events, ttl, 1) && StepAt(worlds, events, ttl, 2);
  }
}
