/** Memory analytics: the aggregate, the cache it is served from, and the invalidation of that cache. */
module Analytics {
  import opened Rounding
  import opened MemoryStatus

  /** What analytics reads of a stored memory. */
  datatype Row = Row(user: string, status: Status, isPromoted: bool, totalScore: real)

  datatype Summary = Summary(total: nat, active: nat, archived: nat, promoted: nat, average: real,
                             distribution: seq<nat>)

  // ----- the aggregate -----

  const BUCKETS := 5

  /** Lower bounds are inclusive; the last bucket includes 1. */
  function Low(b: nat): real {
    0.2 * b as real
  }

  function High(b: nat): real {
    if b == BUCKETS - 1 then 1.0001 else 0.2 * (b + 1) as real
  }

  predicate InBucket(score: real, b: nat) {
    b < BUCKETS && Low(b) <= score < High(b)
  }

  function Count(rows: seq<Row>, p: Row -> bool): nat {
    if rows == [] then 0 else Count(rows[..|rows| - 1], p) + if p(rows[|rows| - 1]) then 1 else 0
  }

  function Sum(rows: seq<Row>): real {
    if rows == [] then 0.0 else Sum(rows[..|rows| - 1]) + rows[|rows| - 1].totalScore
  }

  function Distribution(rows: seq<Row>): seq<nat> {
    seq(BUCKETS, b requires 0 <= b < BUCKETS => Count(rows, (r: Row) => InBucket(r.totalScore, b)))
  }

  function Aggregate(rows: seq<Row>): Summary {
    Summary(|rows|, Count(rows, (r: Row) => r.status == Active), Count(rows, (r: Row) => r.status == Archived),
            Count(rows, (r: Row) => r.isPromoted),
            if rows == [] then 0.0 else Round4(Sum(rows) / |rows| as real), Distribution(rows))
  }

  /** The counting loop over all scores; a score goes to the first bucket that holds it. */
  method CountScores(rows: seq<Row>) returns (distribution: seq<nat>)
    ensures distribution == Distribution(rows)
  {
    distribution := seq(BUCKETS, _ => 0);
    for i := 0 to |rows|
      invariant distribution == Distribution(rows[..i])
    {
      assert rows[..i + 1][..i] == rows[..i];
      var score := rows[i].totalScore;
      var hit := BUCKETS;
      for b := 0 to BUCKETS
        invariant hit == BUCKETS
        invariant forall c :: 0 <= c < b ==> !InBucket(score, c)
      {
        if Low(b) <= score < High(b) {
          hit := b;
          OneBucket(score, b);
          break;
        }
      }
      assert forall c :: 0 <= c < BUCKETS && InBucket(score, c) ==> c == hit;
      if hit < BUCKETS {
        distribution := distribution[hit := distribution[hit] + 1];
      }
    }
    assert rows[..|rows|] == rows;
  }

  lemma OneBucket(score: real, b: nat)
    requires InBucket(score, b)
    ensures forall c: nat :: InBucket(score, c) ==> c == b
  {
  }

  ghost predicate InUnit(rows: seq<Row>) {
    forall r <- rows :: 0.0 <= r.totalScore <= 1.0
  }

  /** With scores in the unit interval every memory is in exactly one bucket. */
  lemma {:induction false} BucketsPartition(rows: seq<Row>)
    requires InUnit(rows)
    ensures var d := Distribution(rows); d[0] + d[1] + d[2] + d[3] + d[4] == |rows|
  {
    if rows != [] {
      var front, last := rows[..|rows| - 1], rows[|rows| - 1];
      assert last in rows;
      BucketsPartition(front);
      var before, after := Distribution(front), Distribution(rows);
      assert exists b: nat :: InBucket(last.totalScore, b) by {
        assert InBucket(last.totalScore, 0) || InBucket(last.totalScore, 1) || InBucket(last.totalScore, 2) ||
               InBucket(last.totalScore, 3) || InBucket(last.totalScore, 4);
      }
      var b: nat :| InBucket(last.totalScore, b);
      OneBucket(last.totalScore, b);
      assert forall c :: 0 <= c < BUCKETS ==> after[c] == before[c] + if c == b then 1 else 0;
    }
  }

  /** The buckets are fifths of the unit interval, and 1 belongs to the last. */
  lemma BucketIsFifth(score: real, b: nat)
    requires 0.0 <= score <= 1.0
    ensures InBucket(score, b) <==> b == if score == 1.0 then 4 else (5.0 * score).Floor
  {
    if InBucket(score, b) {
      assert 5.0 * Low(b) == b as real;
    }
  }

  lemma {:induction false} SumInRange(rows: seq<Row>)
    requires InUnit(rows)
    ensures 0.0 <= Sum(rows) <= |rows| as real
  {
    if rows != [] {
      assert rows[|rows| - 1] in rows;
      SumInRange(rows[..|rows| - 1]);
    }
  }

  /** With scores in the unit interval so is the average. */
  lemma AverageInUnit(rows: seq<Row>)
    requires InUnit(rows)
    ensures 0.0 <= Aggregate(rows).average <= 1.0
  {
    if rows != [] {
      SumInRange(rows);
      Quotient(Sum(rows), |rows| as real);
      Round4InUnit(Sum(rows) / |rows| as real);
    }
  }

  lemma Quotient(a: real, n: real)
    requires 0.0 <= a <= n && n > 0.0
    ensures 0.0 <= a / n <= 1.0
  {
  }

  lemma {:induction false} CountConcat(a: seq<Row>, b: seq<Row>, p: Row -> bool)
    ensures Count(a + b, p) == Count(a, p) + Count(b, p)
    ensures Sum(a + b) == Sum(a) + Sum(b)
    decreases |b|
  {
    if b == [] {
      assert a + b == a;
    } else {
      CountConcat(a, b[..|b| - 1], p);
      assert (a + b)[..|a + b| - 1] == a + b[..|b| - 1];
    }
  }

  lemma CountAround(before: seq<Row>, r: Row, after: seq<Row>, p: Row -> bool)
    ensures Count(before + [r] + after, p) == Count(before, p) + Count(after, p) + (if p(r) then 1 else 0)
    ensures Sum(before + [r] + after) == Sum(before) + Sum(after) + r.totalScore
  {
    CountConcat(before + [r], after, p);
    CountConcat(before, [r], p);
    assert [r][..0] == [];
  }

  /** Taking one memory out of a list. */
  lemma TakenOut(rows: seq<Row>, x: Row, p: Row -> bool) returns (rest: seq<Row>)
    requires x in multiset(rows)
    ensures |rest| == |rows| - 1 && multiset(rest) == multiset(rows) - multiset{x}
    ensures Count(rows, p) == Count(rest, p) + if p(x) then 1 else 0
    ensures Sum(rows) == Sum(rest) + x.totalScore
  {
    var i :| 0 <= i < |rows| && rows[i] == x;
    var before, after := rows[..i], rows[i + 1..];
    rest := before + after;
    assert rows == before + [x] + after;
    CountAround(before, x, after, p);
    CountConcat(before, after, p);
  }

  lemma {:induction false} CountRearranged(a: seq<Row>, b: seq<Row>, p: Row -> bool)
    requires multiset(a) == multiset(b)
    ensures Count(a, p) == Count(b, p) && Sum(a) == Sum(b) && |a| == |b|
    decreases |a|
  {
    assert |multiset(a)| == |multiset(b)|;
    if a != [] {
      var x := a[0];
      assert x in multiset(a);
      var a' := TakenOut(a, x, p);
      var b' := TakenOut(b, x, p);
      CountRearranged(a', b', p);
    }
  }

  /** The aggregate does not depend on the order in which the memories are listed. */
  lemma AggregateOrderless(a: seq<Row>, b: seq<Row>)
    requires multiset(a) == multiset(b)
    ensures Aggregate(a) == Aggregate(b)
  {
    CountRearranged(a, b, (r: Row) => r.status == Active);
    CountRearranged(a, b, (r: Row) => r.status == Archived);
    CountRearranged(a, b, (r: Row) => r.isPromoted);
    forall k | 0 <= k < BUCKETS
      ensures Distribution(a)[k] == Distribution(b)[k]
    {
      CountRearranged(a, b, (r: Row) => InBucket(r.totalScore, k));
    }
  }
}
