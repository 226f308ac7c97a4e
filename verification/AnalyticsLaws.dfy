/** The aggregate and what is served of it, in terms of the memories one by one. */
module AnalyticsLaws {
  import opened Wrappers
  import opened Rounding
  import opened MemoryStatus
  import opened Analytics
  import opened AnalyticsCache

  /** Where the memories with a property are. */
  ghost function Where(rows: seq<Row>, p: Row -> bool): set<int> {
    set i | 0 <= i < |rows| && p(rows[i])
  }

  lemma {:induction false} CountIsSize(rows: seq<Row>, p: Row -> bool)
    ensures Count(rows, p) == |Where(rows, p)|
  {
    if rows != [] {
      var front, n := rows[..|rows| - 1], |rows| - 1;
      CountIsSize(front, p);
      if p(rows[n]) {
        assert Where(rows, p) == Where(front, p) + {n};
      } else {
        assert Where(rows, p) == Where(front, p);
      }
    }
  }

  /** The aggregate counts the memories, the active, the archived and the promoted ones. */
  lemma AggregateCounts(rows: seq<Row>)
    ensures var a := Aggregate(rows);
            a.total == |rows| &&
            a.active == |set i | 0 <= i < |rows| && rows[i].status == Active| &&
            a.archived == |set i | 0 <= i < |rows| && rows[i].status == Archived| &&
            a.promoted == |set i | 0 <= i < |rows| && rows[i].isPromoted|
  {
    CountIsSize(rows, (r: Row) => r.status == Active);
    CountIsSize(rows, (r: Row) => r.status == Archived);
    CountIsSize(rows, (r: Row) => r.isPromoted);
    assert Where(rows, (r: Row) => r.status == Active) == set i | 0 <= i < |rows| && rows[i].status == Active;
    assert Where(rows, (r: Row) => r.status == Archived) == set i | 0 <= i < |rows| && rows[i].status == Archived;
    assert Where(rows, (r: Row) => r.isPromoted) == set i | 0 <= i < |rows| && rows[i].isPromoted;
  }

  /** For scores in the unit interval bucket `b` counts those in the fifth from b/5 on, the last one with its end. */
  lemma DistributionCounts(rows: seq<Row>, b: nat)
    requires InUnit(rows) && b < BUCKETS
    ensures |Aggregate(rows).distribution| == 5
    ensures Aggregate(rows).distribution[b] ==
            |set i | 0 <= i < |rows| && (if rows[i].totalScore == 1.0 then b == 4
                                         else b as real <= 5.0 * rows[i].totalScore < b as real + 1.0)|
  {
    CountIsSize(rows, (r: Row) => InBucket(r.totalScore, b));
    forall i | 0 <= i < |rows|
      ensures InBucket(rows[i].totalScore, b) <==>
              if rows[i].totalScore == 1.0 then b == 4
              else b as real <= 5.0 * rows[i].totalScore < b as real + 1.0
    {
      assert rows[i] in rows;
      BucketIsFifth(rows[i].totalScore, b);
    }
    assert Where(rows, (r: Row) => InBucket(r.totalScore, b)) ==
           set i | 0 <= i < |rows| && (if rows[i].totalScore == 1.0 then b == 4
                                       else b as real <= 5.0 * rows[i].totalScore < b as real + 1.0);
  }

  lemma TimesQuotient(a: real, n: real) returns (q: real)
    requires n > 0.0
    ensures q == a / n && q * n == a
  {
    q := a / n;
  }

  /** The average is the mean of the scores to the nearest ten-thousandth, and 0 for no memories. */
  lemma AverageIsMean(rows: seq<Row>) returns (mean: real)
    ensures mean * |rows| as real == Sum(rows)
    ensures Aggregate(rows).average == if rows == [] then 0.0 else Round4(mean)
    ensures rows != [] ==> Aggregate(rows).average - 0.00005 <= mean < Aggregate(rows).average + 0.00005
  {
    if rows == [] {
      mean := 0.0;
    } else {
      mean := TimesQuotient(Sum(rows), |rows| as real);
      var n := RoundsToNearest(mean);
    }
  }

  /** The sum adds up the scores in any way they are split. */
  lemma SumAdds(a: seq<Row>, r: Row, b: seq<Row>)
    ensures Sum([]) == 0.0 && Sum([r]) == r.totalScore && Sum(a + b) == Sum(a) + Sum(b)
  {
    CountConcat(a, b, (r: Row) => true);
    assert [r][..0] == [];
  }

  // ----- the cache in front of it -----

  /** What a read computes is served to later reads of the scope until its lifetime has passed, whatever the table is
      by then, and computed anew from that moment on. */
  lemma ServedForTtl(cache: Cache, rows: seq<Row>, later: seq<Row>, scope: Scope, now: real, ttl: int, at: real)
    requires Lookup(cache, AnalyticsKey(scope), now).None? && now <= at
    ensures var cache' := CacheAfterRead(cache, rows, scope, now, ttl);
            Served(cache', later, scope, at) ==
            if at < now + ttl as real then Served(cache, rows, scope, now) else Aggregate(ListFor(later, scope))
  {
  }

  /** A hit leaves the cache as it is, so reading does not prolong a lifetime. */
  lemma HitsDoNotProlong(cache: Cache, rows: seq<Row>, scope: Scope, now: real, ttl: int)
    requires Lookup(cache, AnalyticsKey(scope), now).Some?
    ensures CacheAfterRead(cache, rows, scope, now, ttl) == cache
    ensures Some(Served(cache, rows, scope, now)) == Lookup(cache, AnalyticsKey(scope), now)
  {
  }

  /** Whose memories a scope covers. */
  lemma ListForWhom(rows: seq<Row>, scope: Scope, r: Row)
    ensures r in ListFor(rows, scope) <==> r in rows && r.status != Deleted && (scope == None || scope == Some(r.user))
  {
    if rows != [] {
      ListForWhom(rows[..|rows| - 1], scope, r);
      assert rows == rows[..|rows| - 1] + [rows[|rows| - 1]];
    }
  }
}
