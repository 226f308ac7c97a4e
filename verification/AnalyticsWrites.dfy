/** The lifecycle operations as writes to the table that analytics reads. */
module AnalyticsWrites {
  import opened Wrappers
  import opened Analytics
  import opened AnalyticsCache
  import opened MemoryStatus
  import opened Lifecycle
  import MemoryUseCases

  function RowOf(m: Memory): Row {
    Row(m.user, m.status, m.isPromoted, m.score.Total())
  }

  /** A successful operation on the memory in row `i`, as an event of the cache. */
  function WriteOf(rows: seq<Row>, i: nat, m: Memory, op: Op): Event
    requires i < |rows|
  {
    Write(m.user, rows[i := RowOf(Apply(m, op).memory)], Apply(m, op).emitted)
  }

  /** The operations that analytics does not hear of. */
  predicate Quiet(op: Op) {
    op.Restore? || op.Supersede? || op.Forget?
  }

  /** Forgetting a superseded memory leaves it neither active nor archived, as it was. */
  predicate Unseen(m: Memory, op: Op) {
    op.Forget? && m.status == Superseded
  }

  predicate Covers(scope: Scope, user: string) {
    scope == None || scope == Some(user)
  }

  lemma QuietOperations(m: Memory, op: Op)
    requires Apply(m, op).error == None
    ensures (Apply(m, op).emitted.Some? && Apply(m, op).emitted.value in SUBSCRIBED) <==> !Quiet(op)
  {
  }

  // ----- one row in a table -----

  lemma {:induction false} ListForConcat(a: seq<Row>, b: seq<Row>, scope: Scope)
    ensures ListFor(a + b, scope) == ListFor(a, scope) + ListFor(b, scope)
    decreases |b|
  {
    if b == [] {
      assert a + b == a;
    } else {
      var front := b[..|b| - 1];
      assert (a + b)[..|a + b| - 1] == a + front;
      ListForConcat(a, front, scope);
    }
  }

  lemma ListForOne(r: Row, scope: Scope)
    ensures ListFor([r], scope) == if r.status != Deleted && Covers(scope, r.user) then [r] else []
  {
    assert [r][..0] == [];
  }

  /** The table around a row. */
  lemma ListForRow(rows: seq<Row>, i: nat, r: Row, scope: Scope)
    requires i < |rows|
    ensures ListFor(rows[i := r], scope) ==
            ListFor(rows[..i], scope) + ListFor([r], scope) + ListFor(rows[i + 1..], scope)
  {
    ListForConcat(rows[..i] + [r], rows[i + 1..], scope);
    ListForConcat(rows[..i], [r], scope);
    assert rows[i := r] == rows[..i] + [r] + rows[i + 1..];
  }

  /** Only the writer's rows change. */
  lemma OthersSame(rows: seq<Row>, i: nat, r: Row, scope: Scope)
    requires i < |rows| && rows[i].user == r.user && !Covers(scope, r.user)
    ensures ListFor(rows[i := r], scope) == ListFor(rows, scope)
  {
    assert rows[i := rows[i]] == rows;
    ListForRow(rows, i, r, scope);
    ListForRow(rows, i, rows[i], scope);
    ListForOne(r, scope);
    ListForOne(rows[i], scope);
  }

  /** Every operation is a write of the memory's owner. */
  lemma OperationsAreWrites(rows: seq<Row>, i: nat, m: Memory, op: Op, cache: Cache, now: real, ttl: int)
    requires i < |rows| && rows[i] == RowOf(m) && Apply(m, op).error == None
    ensures var ev := WriteOf(rows, i, m, op);
            OnlyChanges(rows, ev.rows, m.user) && (Announced(ev) <==> !Quiet(op)) &&
            Next(World(rows, cache, now), ev,
                 World(ev.rows, if Quiet(op) then cache else Without(cache, InvalidationKeys(m.user)), now), ttl)
  {
    var r := RowOf(Apply(m, op).memory);
    VersionCountsEdits(m, op);
    QuietOperations(m, op);
    forall other | other != m.user
      ensures ListFor(rows[i := r], Some(other)) == ListFor(rows, Some(other))
    {
      OthersSame(rows, i, r, Some(other));
    }
  }

  lemma ListForAppended(rows: seq<Row>, r: Row, scope: Scope)
    requires r.status != Deleted
    ensures ListFor(rows + [r], scope) == ListFor(rows, scope) + if Covers(scope, r.user) then [r] else []
  {
    ListForConcat(rows, [r], scope);
    ListForOne(r, scope);
  }

  /** A new row, announced as a creation. */
  lemma AppendIsWrite(rows: seq<Row>, r: Row, cache: Cache, now: real, ttl: int)
    requires r.status != Deleted
    ensures var ev := Write(r.user, rows + [r], Some(MemoryCreated));
            Next(World(rows, cache, now), ev, World(ev.rows, Without(cache, InvalidationKeys(r.user)), now), ttl)
  {
    forall other | other != r.user
      ensures ListFor(rows + [r], Some(other)) == ListFor(rows, Some(other))
    {
      ListForAppended(rows, r, Some(other));
    }
  }

  lemma CreatedRow(w: MemoryUseCases.World, q: MemoryUseCases.Request)
    requires q.CreateRequest? && MemoryUseCases.Execute(w, q).error == None
    ensures var after := MemoryUseCases.Execute(w, q).world;
            q.id in after.table && RowOf(after.table[q.id]).user == q.user &&
            RowOf(after.table[q.id]).status == Active
  {
  }

  /** Creating a memory appends its row: an announced write of its owner, which adds one memory to the owner's list and
      to everybody's. */
  lemma CreationIsWrite(rows: seq<Row>, w: MemoryUseCases.World, q: MemoryUseCases.Request, scope: Scope, cache: Cache,
                        now: real, ttl: int)
    requires q.CreateRequest? && MemoryUseCases.Execute(w, q).error == None
    ensures var r := RowOf(MemoryUseCases.Execute(w, q).world.table[q.id]);
            var ev := Write(q.user, rows + [r], Some(MemoryCreated));
            Next(World(rows, cache, now), ev, World(ev.rows, Without(cache, InvalidationKeys(q.user)), now), ttl) &&
            ListFor(ev.rows, scope) == ListFor(rows, scope) + if Covers(scope, q.user) then [r] else []
  {
    CreatedRow(w, q);
    var r := RowOf(MemoryUseCases.Execute(w, q).world.table[q.id]);
    AppendIsWrite(rows, r, cache, now, ttl);
    ListForAppended(rows, r, scope);
  }

  // ----- what a quiet operation does to the aggregates -----

  /** The table as a scope that covers the row sees it, before and after the row is replaced. */
  lemma Around(rows: seq<Row>, i: nat, r: Row, scope: Scope) returns (a: seq<Row>, b: seq<Row>)
    requires i < |rows| && rows[i].user == r.user && Covers(scope, r.user)
    requires rows[i].status != Deleted && r.status != Deleted
    ensures ListFor(rows, scope) == a + [rows[i]] + b && ListFor(rows[i := r], scope) == a + [r] + b
  {
    assert rows[i := rows[i]] == rows;
    a, b := ListFor(rows[..i], scope), ListFor(rows[i + 1..], scope);
    ListForRow(rows, i, r, scope);
    ListForRow(rows, i, rows[i], scope);
    ListForOne(r, scope);
    ListForOne(rows[i], scope);
  }

  lemma CountReplaced(a: seq<Row>, x: Row, y: Row, b: seq<Row>, p: Row -> bool)
    ensures Count(a + [y] + b, p) - Count(a + [x] + b, p) == (if p(y) then 1 else 0) - (if p(x) then 1 else 0)
    ensures Sum(a + [y] + b) - Sum(a + [x] + b) == y.totalScore - x.totalScore
  {
    CountAround(a, y, b, p);
    CountAround(a, x, b, p);
  }

  lemma SameAggregate(a: seq<Row>, x: Row, y: Row, b: seq<Row>)
    requires y == x.(status := y.status)
    requires x.status in {Superseded, Forgotten} && y.status in {Superseded, Forgotten}
    ensures Aggregate(a + [y] + b) == Aggregate(a + [x] + b)
  {
    var before, after := a + [x] + b, a + [y] + b;
    CountReplaced(a, x, y, b, (r: Row) => r.status == Active);
    CountReplaced(a, x, y, b, (r: Row) => r.status == Archived);
    CountReplaced(a, x, y, b, (r: Row) => r.isPromoted);
    forall k | 0 <= k < BUCKETS
      ensures Distribution(after)[k] == Distribution(before)[k]
    {
      CountReplaced(a, x, y, b, (r: Row) => InBucket(r.totalScore, k));
    }
    assert Distribution(after) == Distribution(before);
  }

  lemma OtherAggregate(a: seq<Row>, x: Row, y: Row, b: seq<Row>)
    requires (x.status == Active) != (y.status == Active) || (x.status == Archived) != (y.status == Archived)
    ensures Aggregate(a + [y] + b) != Aggregate(a + [x] + b)
  {
    CountReplaced(a, x, y, b, (r: Row) => r.status == Active);
    CountReplaced(a, x, y, b, (r: Row) => r.status == Archived);
  }

  /** A quiet operation changes the state only, and two states are told apart unless both are hidden ones. */
  lemma QuietStatus(m: Memory, op: Op)
    requires Apply(m, op).error == None && Quiet(op)
    ensures var t := Apply(m, op).memory.status;
            RowOf(Apply(m, op).memory) == RowOf(m).(status := t) && t != Deleted && m.status != Deleted &&
            if Unseen(m, op) then m.status == Superseded && t == Forgotten
            else (m.status == Active) != (t == Active) || (m.status == Archived) != (t == Archived)
  {
  }

  /** In every table a successful quiet operation changes exactly the aggregates of its user and of everybody, unless
      it forgets a superseded memory, which changes none. */
  lemma QuietChanges(rows: seq<Row>, i: nat, m: Memory, op: Op, scope: Scope)
    requires i < |rows| && rows[i] == RowOf(m) && Apply(m, op).error == None && Quiet(op)
    ensures Aggregate(ListFor(WriteOf(rows, i, m, op).rows, scope)) != Aggregate(ListFor(rows, scope)) <==>
            Covers(scope, m.user) && !Unseen(m, op)
  {
    var r := RowOf(Apply(m, op).memory);
    QuietStatus(m, op);
    if !Covers(scope, m.user) {
      OthersSame(rows, i, r, scope);
    } else {
      var a, b := Around(rows, i, r, scope);
      if Unseen(m, op) {
        SameAggregate(a, rows[i], r, b);
      } else {
        OtherAggregate(a, rows[i], r, b);
      }
    }
  }

  /** An operation is harmless to what is cached for a scope exactly when it is announced, forgets a superseded memory,
      or is on the memory of somebody else. */
  lemma HarmlessExactly(rows: seq<Row>, i: nat, m: Memory, op: Op, scope: Scope)
    requires i < |rows| && rows[i] == RowOf(m) && Apply(m, op).error == None
    ensures Harmless(rows, WriteOf(rows, i, m, op), scope) <==>
            !Quiet(op) || Unseen(m, op) || !Covers(scope, m.user)
  {
    QuietOperations(m, op);
    if Quiet(op) {
      QuietChanges(rows, i, m, op, scope);
    }
  }

  /** Any other operation is missed in some run: the old aggregate is cached, nothing is announced, and the next read
      serves the old one. */
  lemma SeenQuietIsMissed(rows: seq<Row>, i: nat, m: Memory, op: Op, scope: Scope, now: real, ttl: int)
    returns (worlds: seq<World>, events: seq<Event>)
    requires i < |rows| && rows[i] == RowOf(m) && Apply(m, op).error == None && ttl > 0
    requires Quiet(op) && !Unseen(m, op) && Covers(scope, m.user)
    ensures IsRun(worlds, events, ttl) && |events| == 3 && worlds[0].rows == rows
    ensures events[1].Write? && events[1].rows == WriteOf(rows, i, m, op).rows && !Announced(events[1])
    ensures events[2].Read? && events[2].scope == scope
    ensures events[2].served != Aggregate(ListFor(worlds[2].rows, scope))
  {
    QuietChanges(rows, i, m, op, scope);
    OperationsAreWrites(rows, i, m, op, map[], now, ttl);
    worlds, events := QuietWriteIsMissed(rows, WriteOf(rows, i, m, op), scope, now, ttl);
  }
}
