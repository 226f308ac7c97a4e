/** Fixed-window rate limiting: the in-memory limiter, the Redis limiter, and what both of them count. */
module RateLimit {
  import opened Window

  datatype Key = Key(name: string)

  datatype Decision = Decision(allowed: bool, limit: int, remaining: int, retryAfter: int, reset: int)

  /** One call of the limiter. */
  datatype Call = Call(key: Key, limit: int, window: nat, now: real) {
    predicate Valid() {
      window >= 1
    }

    function Bucket(): int
      requires Valid()
    {
      CurrentBucket(now, window)
    }
  }

  /** The instant at which the current bucket ends. */
  function Reset(now: real, window: nat): int
    requires window >= 1
  {
    (CurrentBucket(now, window) + 1) * window
  }

  function BuildDecision(count: int, limit: int, now: real, window: nat): Decision
    requires window >= 1
  {
    var reset := Reset(now, window);
    var allowed := count <= limit;
    Decision(allowed, limit, Max(0, limit - count),
             if allowed then 0 else Max(0, (reset as real - now).Floor), reset)
  }

  function Max(a: int, b: int): int {
    if a < b then b else a
  }

  function Min(a: int, b: int): int {
    if a < b then a else b
  }

  // ----- in memory: one slot for each key -----

  datatype Slot = Slot(bucket: int, count: nat)

  type Slots = map<Key, Slot>

  function SlotCount(slots: Slots, h: Call): nat
    requires h.Valid()
  {
    if h.key in slots && slots[h.key].bucket == h.Bucket() then slots[h.key].count + 1 else 1
  }

  function SlotHit(slots: Slots, h: Call): Slots
    requires h.Valid()
  {
    slots[h.key := Slot(h.Bucket(), SlotCount(slots, h))]
  }

  class InMemoryRateLimiter {
    var counters: Slots

    constructor ()
      ensures counters == map[]
    {
      counters := map[];
    }

    method Hit(key: Key, limit: int, window: nat, now: real) returns (d: Decision)
      requires window >= 1
      modifies this
      ensures var h := Call(key, limit, window, now);
              counters == SlotHit(old(counters), h) &&
              d == BuildDecision(SlotCount(old(counters), h), limit, now, window)
    {
      var bucket := CurrentBucket(now, window);
      var count: nat := 1;
      if key in counters && counters[key].bucket == bucket {
        count := counters[key].count + 1;
      }
      counters := counters[key := Slot(bucket, count)];
      d := BuildDecision(count, limit, now, window);
    }
  }

  // ----- Redis: one expiring counter for each key and bucket -----

  datatype Counter = Counter(count: nat, deadline: real)

  datatype Cell = Cell(key: Key, bucket: int)

  type Counters = map<Cell, Counter>

  function CellOf(h: Call): Cell
    requires h.Valid()
  {
    Cell(h.key, h.Bucket())
  }

  function CellCount(cells: Counters, h: Call): nat
    requires h.Valid()
  {
    var c := CellOf(h);
    if c in cells && h.now < cells[c].deadline then cells[c].count + 1 else 1
  }

  /** The first hit sets the expiry, one second past the window; later hits leave it. */
  function CellHit(cells: Counters, h: Call): Counters
    requires h.Valid()
  {
    var c := CellOf(h);
    var count := CellCount(cells, h);
    var deadline := if count == 1 then h.now + (h.window + 1) as real else cells[c].deadline;
    cells[c := Counter(count, deadline)]
  }

  class RedisRateLimiter {
    var cells: Counters

    constructor ()
      ensures cells == map[]
    {
      cells := map[];
    }

    method Hit(key: Key, limit: int, window: nat, now: real) returns (d: Decision)
      requires window >= 1
      modifies this
      ensures var h := Call(key, limit, window, now);
              cells == CellHit(old(cells), h) &&
              d == BuildDecision(CellCount(old(cells), h), limit, now, window)
    {
      var cell := Cell(key, CurrentBucket(now, window));
      var current: nat := 1;
      if cell in cells && now < cells[cell].deadline {
        current := cells[cell].count + 1;
      }
      if current == 1 {
        cells := cells[cell := Counter(current, now + (window + 1) as real)];
      } else {
        cells := cells[cell := cells[cell].(count := current)];
      }
      d := BuildDecision(current, limit, now, window);
    }
  }

  // ----- runs -----

  /** A run of calls under a clock that does not go back, with one window for the key that is watched. */
  ghost predicate IsRun(hits: seq<Call>, key: Key, window: nat) {
    window >= 1 && (forall h <- hits :: h.Valid() && (h.key == key ==> h.window == window)) &&
    (forall i, j :: 0 <= i < j < |hits| ==> hits[i].now <= hits[j].now)
  }

  ghost predicate Follows(hits: seq<Call>, h: Call) {
    forall g <- hits :: g.now <= h.now
  }

  function SlotsAfter(hits: seq<Call>): Slots
    requires forall h <- hits :: h.Valid()
  {
    if hits == [] then map[] else SlotHit(SlotsAfter(hits[..|hits| - 1]), hits[|hits| - 1])
  }

  function CellsAfter(hits: seq<Call>): Counters
    requires forall h <- hits :: h.Valid()
  {
    if hits == [] then map[] else CellHit(CellsAfter(hits[..|hits| - 1]), hits[|hits| - 1])
  }

  /** The number of calls for a key in one bucket. */
  function Seen(hits: seq<Call>, key: Key, bucket: int): nat
    requires forall h <- hits :: h.Valid()
  {
    if hits == [] then 0
    else
      var last := hits[|hits| - 1];
      Seen(hits[..|hits| - 1], key, bucket) + if last.key == key && last.Bucket() == bucket then 1 else 0
  }

  // ----- both limiters count the calls of the bucket -----

  lemma {:induction false} NoneSeenBeyond(hits: seq<Call>, key: Key, window: nat, bucket: int)
    requires IsRun(hits, key, window) && forall h <- hits :: h.key == key ==> h.Bucket() < bucket
    ensures Seen(hits, key, bucket) == 0
  {
    if hits != [] {
      NoneSeenBeyond(hits[..|hits| - 1], key, window, bucket);
      assert hits[|hits| - 1] in hits;
    }
  }

  /** The slot holds the latest bucket and the number of calls in it. */
  lemma {:induction false} SlotIsCount(hits: seq<Call>, key: Key, window: nat)
    requires IsRun(hits, key, window)
    ensures var slots := SlotsAfter(hits);
            if key in slots then
              slots[key].count == Seen(hits, key, slots[key].bucket) &&
              forall h <- hits :: h.key == key ==> h.Bucket() <= slots[key].bucket
            else forall h <- hits :: h.key != key
    decreases |hits|, 0
  {
    if hits != [] {
      var front, last := hits[..|hits| - 1], hits[|hits| - 1];
      assert hits == front + [last];
      SlotIsCount(front, key, window);
      if last.key == key {
        SlotCountIsSeen(front, last, window);
        forall h | h in front && h.key == key
          ensures h.Bucket() <= last.Bucket()
        {
          var i :| 0 <= i < |front| && front[i] == h;
          assert hits[i].now <= hits[|front|].now;
          BucketsMonotone(h.now, last.now, window);
        }
      }
    }
  }

  /** In memory, a call gets the number of calls so far in its bucket, itself included. */
  lemma SlotCountIsSeen(hits: seq<Call>, h: Call, window: nat)
    requires IsRun(hits, h.key, window) && h.Valid() && h.window == window && Follows(hits, h)
    ensures SlotCount(SlotsAfter(hits), h) == Seen(hits, h.key, h.Bucket()) + 1
    decreases |hits|, 1
  {
    SlotIsCount(hits, h.key, window);
    var slots := SlotsAfter(hits);
    if !(h.key in slots && slots[h.key].bucket == h.Bucket()) {
      forall g | g in hits && g.key == h.key
        ensures g.Bucket() < h.Bucket()
      {
        BucketsMonotone(g.now, h.now, window);
        LatestBucket(hits, h.key, window, h);
      }
      NoneSeenBeyond(hits, h.key, window, h.Bucket());
    }
  }

  /** The bucket in the slot is that of some earlier call. */
  lemma {:induction false} LatestBucket(hits: seq<Call>, key: Key, window: nat, h: Call)
    requires IsRun(hits, key, window) && key in SlotsAfter(hits)
    requires h.Valid() && h.window == window && Follows(hits, h)
    ensures SlotsAfter(hits)[key].bucket <= h.Bucket()
  {
    var front, last := hits[..|hits| - 1], hits[|hits| - 1];
    assert last in hits;
    if last.key == key {
      BucketsMonotone(last.now, h.now, window);
    } else {
      LatestBucket(front, key, window, h);
    }
  }

  /** While a bucket lasts, its counter is there and holds the number of calls in it. */
  lemma {:induction false} CellIsCount(hits: seq<Call>, key: Key, window: nat, bucket: int)
    requires IsRun(hits, key, window)
    ensures var cells, c := CellsAfter(hits), Cell(key, bucket);
            if c in cells then
              cells[c].count == Seen(hits, key, bucket) >= 1 &&
              Begin(bucket, window) + window as real < cells[c].deadline
            else Seen(hits, key, bucket) == 0
  {
    if hits != [] {
      var front, last := hits[..|hits| - 1], hits[|hits| - 1];
      assert last in hits;
      CellIsCount(front, key, window, bucket);
      if CellOf(last) == Cell(key, bucket) {
        BucketBounds(last.now, window);
      }
    }
  }

  /** In Redis, a call gets the same number. */
  lemma CellCountIsSeen(hits: seq<Call>, h: Call, window: nat)
    requires IsRun(hits, h.key, window) && h.Valid() && h.window == window
    ensures CellCount(CellsAfter(hits), h) == Seen(hits, h.key, h.Bucket()) + 1
  {
    CellIsCount(hits, h.key, window, h.Bucket());
    BucketBounds(h.now, window);
  }

  /** Both limiters decide every call of every run alike. */
  lemma SameDecision(hits: seq<Call>, h: Call, window: nat)
    requires IsRun(hits, h.key, window) && h.Valid() && h.window == window && Follows(hits, h)
    ensures BuildDecision(SlotCount(SlotsAfter(hits), h), h.limit, h.now, h.window) ==
            BuildDecision(CellCount(CellsAfter(hits), h), h.limit, h.now, h.window)
  {
    SlotCountIsSeen(hits, h, window);
    CellCountIsSeen(hits, h, window);
  }

  // ----- how many calls are let through -----

  predicate Allowed(hits: seq<Call>, h: Call)
    requires h.Valid() && forall g <- hits :: g.Valid()
  {
    BuildDecision(SlotCount(SlotsAfter(hits), h), h.limit, h.now, h.window).allowed
  }

  function AllowedIn(hits: seq<Call>, key: Key, bucket: int): nat
    requires forall h <- hits :: h.Valid()
  {
    if hits == [] then 0
    else
      var front, last := hits[..|hits| - 1], hits[|hits| - 1];
      AllowedIn(front, key, bucket) +
      if last.key == key && last.Bucket() == bucket && Allowed(front, last) then 1 else 0
  }

  function AllowedBetween(hits: seq<Call>, key: Key, start: real, end: real): nat
    requires forall h <- hits :: h.Valid()
  {
    if hits == [] then 0
    else
      var front, last := hits[..|hits| - 1], hits[|hits| - 1];
      AllowedBetween(front, key, start, end) +
      if last.key == key && start <= last.now <= end && Allowed(front, last) then 1 else 0
  }

  /** With a fixed limit, exactly the first `limit` calls of a bucket are let through. */
  lemma {:induction false} FirstCallsAllowed(hits: seq<Call>, key: Key, window: nat, limit: int, bucket: int)
    requires IsRun(hits, key, window) && forall h <- hits :: h.key == key ==> h.limit == limit
    ensures AllowedIn(hits, key, bucket) == Min(Seen(hits, key, bucket), Max(0, limit))
  {
    if hits != [] {
      var front, last := hits[..|hits| - 1], hits[|hits| - 1];
      assert last in hits && Follows(front, last);
      FirstCallsAllowed(front, key, window, limit, bucket);
      if last.key == key {
        SlotCountIsSeen(front, last, window);
      }
    }
  }

  lemma {:induction false} IntervalWithinTwoBuckets(hits: seq<Call>, key: Key, window: nat, start: real)
    requires IsRun(hits, key, window)
    ensures var b := CurrentBucket(start, window);
            AllowedBetween(hits, key, start, start + window as real) <=
            AllowedIn(hits, key, b) + AllowedIn(hits, key, b + 1)
  {
    if hits != [] {
      var front, last := hits[..|hits| - 1], hits[|hits| - 1];
      assert last in hits;
      IntervalWithinTwoBuckets(front, key, window, start);
      if last.key == key && start <= last.now <= start + window as real {
        TwoBuckets(start, last.now, window);
      }
    }
  }

  /** Any interval of one window's length, ends included, sees at most twice the limit. */
  lemma AtMostTwiceTheLimit(hits: seq<Call>, key: Key, window: nat, limit: int, start: real)
    requires IsRun(hits, key, window) && forall h <- hits :: h.key == key ==> h.limit == limit
    ensures AllowedBetween(hits, key, start, start + window as real) <= 2 * Max(0, limit)
  {
    var b := CurrentBucket(start, window);
    IntervalWithinTwoBuckets(hits, key, window, start);
    FirstCallsAllowed(hits, key, window, limit, b);
    FirstCallsAllowed(hits, key, window, limit, b + 1);
  }

  // ----- what the decision announces -----

  /** The remaining number is that of the further calls of the bucket that will be let through. */
  lemma RemainingIsHonest(count: int, more: nat, limit: int, now: real, later: real, window: nat)
    requires window >= 1 && more >= 1
    ensures BuildDecision(count + more, limit, later, window).allowed <==>
            more <= BuildDecision(count, limit, now, window).remaining
  {
  }

  /** The announced reset is the first instant after the current bucket. */
  lemma ResetIsExact(now: real, window: nat, t: real)
    requires window >= 1 && now <= t
    ensures CurrentBucket(t, window) > CurrentBucket(now, window) <==> t >= Reset(now, window) as real
  {
    var b, c := CurrentBucket(now, window), CurrentBucket(t, window);
    BucketsMonotone(now, t, window);
    BucketBounds(t, window);
    assert Reset(now, window) as real == Begin(b + 1, window);
    BeginNext(b, window);
    if c > b {
      Scale((b + 1) as real, c as real, window as real);
    }
  }

  lemma WholeSeconds(now: real, reset: int)
    ensures var wait := (reset as real - now).Floor;
            (now + wait as real >= reset as real <==> now == now.Floor as real) &&
            now + (wait + 1) as real >= reset as real
  {
    if now == now.Floor as real {
      assert (reset as real - now).Floor == reset - now.Floor;
    }
  }

  /** Waiting for the announced number of seconds is enough exactly when the refusal came at a whole second, because
      the announcement is rounded down; one second more is always enough. */
  lemma RetryAfterIsEnough(count: int, limit: int, now: real, window: nat)
    requires window >= 1 && count > limit
    ensures var wait := BuildDecision(count, limit, now, window).retryAfter;
            (CurrentBucket(now + wait as real, window) > CurrentBucket(now, window) <==> now == now.Floor as real) &&
            CurrentBucket(now + (wait + 1) as real, window) > CurrentBucket(now, window)
  {
    var wait := BuildDecision(count, limit, now, window).retryAfter;
    ResetIsExact(now, window, now);
    assert wait == (Reset(now, window) as real - now).Floor;
    WholeSeconds(now, Reset(now, window));
    ResetIsExact(now, window, now + wait as real);
    ResetIsExact(now, window, now + (wait + 1) as real);
  }
}
