/** The order of ids by their text, and the first few ids of a set. */
module TextOrder {
  import opened Wrappers
  import opened GraphModel
  import opened Text

  /** Python's order of strings: by code point, a prefix first. */
  predicate AtMost(a: string, b: string) {
    a == "" || (b != "" && (a[0] < b[0] || (a[0] == b[0] && AtMost(a[1..], b[1..]))))
  }

  lemma {:induction false} Total(a: string, b: string)
    ensures AtMost(a, b) || AtMost(b, a)
  {
    if a != "" && b != "" && a[0] == b[0] {
      Total(a[1..], b[1..]);
    }
  }

  lemma {:induction false} Antisymmetric(a: string, b: string)
    requires AtMost(a, b) && AtMost(b, a)
    ensures a == b
  {
    if a != "" && b != "" {
      Antisymmetric(a[1..], b[1..]);
      assert a == [a[0]] + a[1..] && b == [b[0]] + b[1..];
    }
  }

  lemma {:induction false} Transitive(a: string, b: string, c: string)
    requires AtMost(a, b) && AtMost(b, c)
    ensures AtMost(a, c)
  {
    if a != "" && a[0] == b[0] == c[0] {
      Transitive(a[1..], b[1..], c[1..]);
    }
  }

  /** Where two texts part, if neither continues the other, the smaller character decides. */
  lemma {:induction false} AtMostIs(a: string, b: string, n: nat)
    requires n <= |a| && n <= |b| && a[..n] == b[..n]
    requires n == |a| || n == |b| || a[n] != b[n]
    ensures AtMost(a, b) <==> n == |a| || (n < |b| && a[n] < b[n])
    decreases n
  {
    if n > 0 {
      assert a[0] == a[..n][0] == b[..n][0] == b[0];
      assert a[1..][..n - 1] == a[..n][1..] && b[1..][..n - 1] == b[..n][1..];
      AtMostIs(a[1..], b[1..], n - 1);
    }
  }

  method Smallest(ids: set<Id>) returns (least: Id)
    requires ids != {}
    ensures least in ids && forall x <- ids :: AtMost(least.text, x.text)
  {
    least :| least in ids;
    var rest := ids - {least};
    Total(least.text, least.text);
    while rest != {}
      invariant rest <= ids && least in ids
      invariant forall x <- ids - rest :: AtMost(least.text, x.text)
    {
      var id :| id in rest;
      Total(id.text, least.text);
      Total(id.text, id.text);
      if AtMost(id.text, least.text) {
        forall x | x in ids - rest
          ensures AtMost(id.text, x.text)
        {
          Transitive(id.text, least.text, x.text);
        }
        least := id;
      }
      rest := rest - {id};
    }
  }

  /** How many of `n` ids a slice up to `limit` keeps; a negative limit counts from the end. */
  function CutSize(n: nat, limit: Option<int>): (k: nat)
    ensures k <= n
  {
    if limit.None? || limit.value >= n then n
    else if limit.value >= 0 then limit.value
    else if n + limit.value >= 0 then n + limit.value
    else 0
  }

  /** A place before the limit, which counts from the end if it is negative. */
  predicate InSlice(i: int, n: nat, limit: int) {
    i < if limit >= 0 then limit else n + limit
  }

  lemma {:induction false} PlacesUpTo(n: nat, limit: int, m: nat)
    requires m <= n
    ensures var k := CutSize(n, Some(limit));
            |set i | 0 <= i < m && InSlice(i, n, limit)| == if m < k then m else k
  {
    if m > 0 {
      PlacesUpTo(n, limit, m - 1);
      var fewer := set i | 0 <= i < m - 1 && InSlice(i, n, limit);
      assert (set i | 0 <= i < m && InSlice(i, n, limit)) == fewer + if InSlice(m - 1, n, limit) then {m - 1} else {};
    }
  }

  /** The slice keeps as many ids as there are places in it. */
  lemma CutSizeIs(n: nat, limit: int)
    ensures CutSize(n, Some(limit)) == |set i | 0 <= i < n && InSlice(i, n, limit)|
  {
    PlacesUpTo(n, limit, n);
  }

  /** The first ids in the order, as many as the limit allows. */
  ghost predicate IsCut(ids: set<Id>, limit: Option<int>, chosen: set<Id>) {
    chosen <= ids && |chosen| == CutSize(|ids|, limit) &&
    forall a, b :: a in chosen && b in ids - chosen ==> AtMost(a.text, b.text)
  }

  /** Takes the smallest ids one by one. */
  method Cut(ids: set<Id>, limit: Option<int>) returns (chosen: set<Id>)
    ensures IsCut(ids, limit, chosen)
  {
    chosen := {};
    var rest := ids;
    while |chosen| < CutSize(|ids|, limit)
      invariant chosen <= ids && rest == ids - chosen && |chosen| + |rest| == |ids|
      invariant |chosen| <= CutSize(|ids|, limit)
      invariant forall a, b :: a in chosen && b in rest ==> AtMost(a.text, b.text)
    {
      var id := Smallest(rest);
      chosen := chosen + {id};
      rest := rest - {id};
    }
  }

  /** The limit determines the ids. */
  lemma CutUnique(ids: set<Id>, limit: Option<int>, a: set<Id>, b: set<Id>)
    requires IsCut(ids, limit, a) && IsCut(ids, limit, b)
    ensures a == b
  {
    if x :| x in a && x !in b {
      if y :| y in b && y !in a {
        Antisymmetric(x.text, y.text);
      } else {
        SubsetSize(b, a);
      }
    } else {
      SubsetSize(a, b);
    }
  }

  lemma CutAll(ids: set<Id>, chosen: set<Id>)
    requires IsCut(ids, None, chosen)
    ensures chosen == ids
  {
    SubsetSize(chosen, ids);
  }
}
