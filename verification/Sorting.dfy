/** Python's sorted(..., reverse=True): descending and stable. */
module Sorting {
  /** Sort keys: a flag that comes first, then a number. */
  datatype Key = Key(flag: bool, number: real) {
    predicate AtLeast(other: Key) {
      if flag == other.flag then number >= other.number else flag
    }
  }

  ghost predicate Descending<T>(s: seq<T>, key: T -> Key) {
    forall i, j :: 0 <= i < j < |s| ==> key(s[i]).AtLeast(key(s[j]))
  }

  /** Puts `x` in front of the first element that is not above it. */
  function Insert<T>(x: T, s: seq<T>, key: T -> Key): seq<T> {
    if s == [] || key(x).AtLeast(key(s[0])) then [x] + s else [s[0]] + Insert(x, s[1..], key)
  }

  function SortDescending<T>(s: seq<T>, key: T -> Key): seq<T> {
    if s == [] then [] else Insert(s[0], SortDescending(s[1..], key), key)
  }

  /** The elements with one key, in order. */
  function Having<T>(s: seq<T>, key: T -> Key, k: Key): seq<T> {
    if s == [] then [] else (if key(s[0]) == k then [s[0]] else []) + Having(s[1..], key, k)
  }

  lemma DescendingFirst<T>(x: T, s: seq<T>, key: T -> Key)
    requires Descending(s, key) && forall y <- s :: key(x).AtLeast(key(y))
    ensures Descending([x] + s, key)
  {
    var all := [x] + s;
    forall i, j | 0 <= i < j < |all|
      ensures key(all[i]).AtLeast(key(all[j]))
    {
      assert all[j] == s[j - 1] && s[j - 1] in s;
    }
  }

  lemma DescendingLast<T>(s: seq<T>, x: T, key: T -> Key)
    requires Descending(s, key) && forall y <- s :: key(y).AtLeast(key(x))
    ensures Descending(s + [x], key)
  {
    var all := s + [x];
    forall i, j | 0 <= i < j < |all|
      ensures key(all[i]).AtLeast(key(all[j]))
    {
      assert all[i] == s[i] && s[i] in s;
    }
  }

  lemma {:induction false} InsertMembers<T>(x: T, s: seq<T>, key: T -> Key)
    ensures multiset(Insert(x, s, key)) == multiset{x} + multiset(s)
  {
    if s != [] && !key(x).AtLeast(key(s[0])) {
      InsertMembers(x, s[1..], key);
      assert s == [s[0]] + s[1..];
    }
  }

  lemma BelowFirst<T>(s: seq<T>, x: T, key: T -> Key, y: T)
    requires Descending(s, key) && s != [] && key(s[0]).AtLeast(key(x)) && (y == x || y in s)
    ensures key(s[0]).AtLeast(key(y))
  {
    if y != x {
      var i :| 0 <= i < |s| && s[i] == y;
      assert i > 0 ==> key(s[0]).AtLeast(key(s[i]));
    }
  }

  lemma {:induction false} InsertInOrder<T>(x: T, s: seq<T>, key: T -> Key)
    requires Descending(s, key)
    ensures Descending(Insert(x, s, key), key)
  {
    if s == [] {
      assert [x] + s == [x];
    } else if key(x).AtLeast(key(s[0])) {
      forall y | y in s
        ensures key(x).AtLeast(key(y))
      {
        BelowFirst(s, s[0], key, y);
      }
      DescendingFirst(x, s, key);
    } else {
      var rest := Insert(x, s[1..], key);
      InsertInOrder(x, s[1..], key);
      InsertMembers(x, s[1..], key);
      forall y | y in rest
        ensures key(s[0]).AtLeast(key(y))
      {
        assert y in multiset(rest);
        BelowFirst(s, x, key, y);
      }
      DescendingFirst(s[0], rest, key);
    }
  }

  /** The result is in order and a rearrangement of the input. */
  lemma {:induction false} SortSorts<T>(s: seq<T>, key: T -> Key)
    ensures Descending(SortDescending(s, key), key)
    ensures multiset(SortDescending(s, key)) == multiset(s)
  {
    if s != [] {
      SortSorts(s[1..], key);
      InsertInOrder(s[0], SortDescending(s[1..], key), key);
      InsertMembers(s[0], SortDescending(s[1..], key), key);
      assert s == [s[0]] + s[1..];
    }
  }

  lemma HavingFirst<T>(x: T, s: seq<T>, key: T -> Key, k: Key)
    ensures Having([x] + s, key, k) == (if key(x) == k then [x] else []) + Having(s, key, k)
  {
    assert ([x] + s)[1..] == s;
  }

  lemma {:induction false} InsertStable<T>(x: T, s: seq<T>, key: T -> Key, k: Key)
    ensures Having(Insert(x, s, key), key, k) == (if key(x) == k then [x] else []) + Having(s, key, k)
  {
    if s == [] || key(x).AtLeast(key(s[0])) {
      HavingFirst(x, s, key, k);
    } else {
      var y, rest := s[0], s[1..];
      assert s == [y] + rest;
      InsertStable(x, rest, key, k);
      HavingFirst(y, Insert(x, rest, key), key, k);
      HavingFirst(y, rest, key, k);
      if key(x) == k {
        assert key(y) != k;
        assert Having(s, key, k) == Having(rest, key, k);
      }
    }
  }

  /** Elements with equal keys keep their order. */
  lemma {:induction false} SortStable<T>(s: seq<T>, key: T -> Key, k: Key)
    ensures Having(SortDescending(s, key), key, k) == Having(s, key, k)
  {
    if s != [] {
      SortStable(s[1..], key, k);
      InsertStable(s[0], SortDescending(s[1..], key), key, k);
    }
  }

  /** What is in order already is left alone. */
  lemma {:induction false} SortOfSorted<T>(s: seq<T>, key: T -> Key)
    requires Descending(s, key)
    ensures SortDescending(s, key) == s
  {
    if s != [] {
      SortOfSorted(s[1..], key);
    }
  }
}
