/** Greedy admission under a budget, as used by selection and by compression. */
module Greedy {
  function Total<T>(items: seq<T>, cost: T -> nat): nat {
    if items == [] then 0 else Total(items[..|items| - 1], cost) + cost(items[|items| - 1])
  }

  /** Each item is admitted if it fits into what the admitted ones before it have left. */
  function Admitted<T>(items: seq<T>, cost: T -> nat, budget: int): seq<T> {
    if items == [] then []
    else
      var before, last := Admitted(items[..|items| - 1], cost, budget), items[|items| - 1];
      if Total(before, cost) + cost(last) <= budget then before + [last] else before
  }

  function Refused<T>(items: seq<T>, cost: T -> nat, budget: int): seq<T> {
    if items == [] then []
    else
      var front, last := items[..|items| - 1], items[|items| - 1];
      Refused(front, cost, budget) +
      if Total(Admitted(front, cost, budget), cost) + cost(last) <= budget then [] else [last]
  }

  lemma TotalAppend<T>(items: seq<T>, x: T, cost: T -> nat)
    ensures Total(items + [x], cost) == Total(items, cost) + cost(x)
  {
    assert (items + [x])[..|items|] == items;
  }

  /** One more turn of the admission loop. */
  lemma AdmitNext<T>(items: seq<T>, i: nat, cost: T -> nat, budget: int)
    requires i < |items|
    ensures var before, x := Admitted(items[..i], cost, budget), items[i];
            var fits := Total(before, cost) + cost(x) <= budget;
            (if fits then
               Admitted(items[..i + 1], cost, budget) == before + [x] &&
               Refused(items[..i + 1], cost, budget) == Refused(items[..i], cost, budget)
             else
               Admitted(items[..i + 1], cost, budget) == before &&
               Refused(items[..i + 1], cost, budget) == Refused(items[..i], cost, budget) + [x]) &&
            Total(before + [x], cost) == Total(before, cost) + cost(x)
  {
    assert items[..i + 1][..i] == items[..i];
    TotalAppend(Admitted(items[..i], cost, budget), items[i], cost);
  }

  /** Nothing is lost, the budget is kept, and nothing that was refused would fit into what is left at the end. */
  lemma {:induction false} AdmissionIsSound<T>(items: seq<T>, cost: T -> nat, budget: int)
    ensures multiset(Admitted(items, cost, budget)) + multiset(Refused(items, cost, budget)) == multiset(items)
    ensures budget >= 0 ==> Total(Admitted(items, cost, budget), cost) <= budget
    ensures budget < 0 ==> Admitted(items, cost, budget) == []
    ensures forall x <- Refused(items, cost, budget) ::
              cost(x) > budget - Total(Admitted(items, cost, budget), cost)
  {
    if items != [] {
      var front, last := items[..|items| - 1], items[|items| - 1];
      assert items == front + [last];
      AdmissionIsSound(front, cost, budget);
      TotalAppend(Admitted(front, cost, budget), last, cost);
    }
  }

  /** Items that fit all together are all admitted, in order. */
  lemma {:induction false} AdmitsAll<T>(items: seq<T>, cost: T -> nat, budget: int)
    requires Total(items, cost) <= budget
    ensures Admitted(items, cost, budget) == items && Refused(items, cost, budget) == []
  {
    if items != [] {
      var front := items[..|items| - 1];
      AdmitsAll(front, cost, budget);
      assert items == front + [items[|items| - 1]];
    }
  }
}
