/** Dividing time into windows of equal length. */
module Window {
  function CurrentBucket(now: real, window: nat): int
    requires window >= 1
  {
    (now / window as real).Floor
  }

  lemma Scale(a: real, b: real, w: real)
    requires w > 0.0
    ensures a <= b ==> a * w <= b * w
    ensures a < b ==> a * w < b * w
  {
  }

  lemma OneMore(x: real, w: real)
    ensures (x + 1.0) * w == x * w + w
  {
  }

  lemma Divide(x: real, w: real) returns (q: real)
    requires w > 0.0
    ensures q.Floor == (x / w).Floor && q * w == x
  {
    q := x / w;
  }

  /** Where a bucket begins. */
  function Begin(bucket: int, window: nat): real {
    bucket as real * window as real
  }

  lemma BeginNext(bucket: int, window: nat)
    ensures Begin(bucket + 1, window) == Begin(bucket, window) + window as real
  {
    OneMore(bucket as real, window as real);
  }

  lemma BeginOrdered(a: int, b: int, window: nat)
    requires window >= 1 && Begin(a, window) < Begin(b, window) + window as real
    ensures a <= b
  {
    BeginNext(b, window);
    Scale((b + 1) as real, a as real, window as real);
  }

  /** A bucket begins at a multiple of the window and lasts for one window. */
  lemma BucketBounds(now: real, window: nat)
    requires window >= 1
    ensures var bucket := CurrentBucket(now, window);
            Begin(bucket, window) <= now < Begin(bucket, window) + window as real
  {
    FloorBounds(now, window as real);
  }

  lemma FloorBounds(x: real, w: real)
    requires w > 0.0
    ensures var b := (x / w).Floor as real; b * w <= x < b * w + w
  {
    var q := Divide(x, w);
    var b := q.Floor as real;
    assert b <= q < b + 1.0;
    Scale(b, q, w);
    Scale(q, b + 1.0, w);
    OneMore(b, w);
  }

  lemma BucketsMonotone(a: real, b: real, window: nat)
    requires window >= 1 && a <= b
    ensures CurrentBucket(a, window) <= CurrentBucket(b, window)
  {
    BucketBounds(a, window);
    BucketBounds(b, window);
    BeginOrdered(CurrentBucket(a, window), CurrentBucket(b, window), window);
  }

  /** An interval of one window's length meets at most two buckets. */
  lemma TwoBuckets(start: real, now: real, window: nat)
    requires window >= 1 && start <= now <= start + window as real
    ensures CurrentBucket(start, window) <= CurrentBucket(now, window) <= CurrentBucket(start, window) + 1
  {
    var b := CurrentBucket(start, window);
    BucketsMonotone(start, now, window);
    BucketBounds(start, window);
    BucketBounds(now, window);
    BeginNext(b, window);
    BeginOrdered(CurrentBucket(now, window), b + 1, window);
  }
}
