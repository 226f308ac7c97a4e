/** What the context pipeline guarantees. */
module ContextProperties {
  import opened Wrappers
  import opened Ids
  import opened Sorting
  import opened Greedy
  import opened Text
  import opened Context
  import Tokens

  // ----- consolidation -----

  lemma {:induction false} FirstDuplicateIs(kept: seq<ContextMemory>, m: ContextMemory, d: Dedup)
    ensures var r := FirstDuplicate(kept, m, d);
            match r
            case None => forall k <- kept :: !d.Similar(m, k)
            case Some(k) => k in kept && d.Similar(m, k)
  {
    if kept != [] {
      FirstDuplicateIs(kept[..|kept| - 1], m, d);
      assert kept == kept[..|kept| - 1] + [kept[|kept| - 1]];
    }
  }

  /** No two kept memories are near-duplicates of each other. */
  lemma {:induction false} KeptApart(ordered: seq<ContextMemory>, d: Dedup, i: nat, j: nat)
    requires i < j < |Kept(ordered, d)|
    ensures !d.Similar(Kept(ordered, d)[i], Kept(ordered, d)[j]) && !d.Similar(Kept(ordered, d)[j], Kept(ordered, d)[i])
  {
    var front, last := ordered[..|ordered| - 1], ordered[|ordered| - 1];
    var before := Kept(front, d);
    if j < |before| {
      KeptApart(front, d, i, j);
      assert Kept(ordered, d)[i] == before[i] && Kept(ordered, d)[j] == before[j];
    } else {
      assert Kept(ordered, d) == before + [last];
      LastApart(before, last, d, before[i]);
    }
  }

  lemma LastApart(before: seq<ContextMemory>, last: ContextMemory, d: Dedup, k: ContextMemory)
    requires FirstDuplicate(before, last, d).None? && k in before
    ensures !d.Similar(last, k) && !d.Similar(k, last)
  {
    FirstDuplicateIs(before, last, d);
    JaccardSymmetric(d.tokenize(k.content), d.tokenize(last.content));
  }

  lemma {:induction false} KeptFromInput(ordered: seq<ContextMemory>, d: Dedup, k: ContextMemory)
    requires k in Kept(ordered, d)
    ensures k in ordered
  {
    var front, last := ordered[..|ordered| - 1], ordered[|ordered| - 1];
    if k in Kept(front, d) {
      KeptFromInput(front, d, k);
    }
  }

  lemma KeptAboveLast(ordered: seq<ContextMemory>, d: Dedup, k: ContextMemory)
    requires Descending(ordered, ByScore) && ordered != [] && k in Kept(ordered[..|ordered| - 1], d)
    ensures k.score >= ordered[|ordered| - 1].score
  {
    var front, last := ordered[..|ordered| - 1], ordered[|ordered| - 1];
    KeptFromInput(front, d, k);
    var i :| 0 <= i < |front| && front[i] == k;
    assert ByScore(ordered[i]).AtLeast(ByScore(last));
  }

  /** The kept memories stay in order. */
  lemma {:induction false} KeptInOrder(ordered: seq<ContextMemory>, d: Dedup)
    requires Descending(ordered, ByScore)
    ensures Descending(Kept(ordered, d), ByScore)
  {
    if ordered != [] {
      var front, last := ordered[..|ordered| - 1], ordered[|ordered| - 1];
      var before := Kept(front, d);
      KeptInOrder(front, d);
      if FirstDuplicate(before, last, d).None? {
        forall k | k in before
          ensures ByScore(k).AtLeast(ByScore(last))
        {
          KeptAboveLast(ordered, d, k);
        }
        DescendingLast(before, last, ByScore);
        assert Kept(ordered, d) == before + [last];
      } else {
        assert Kept(ordered, d) == before;
      }
    }
  }

  /** Every removed memory was merged into a kept one that it duplicates and that scores at least as high. */
  lemma {:induction false} MergesJustified(ordered: seq<ContextMemory>, d: Dedup)
    requires Descending(ordered, ByScore)
    ensures forall m <- Merges(ordered, d) ::
              m.into in Kept(ordered, d) && d.Similar(m.gone, m.into) && m.into.score >= m.gone.score
  {
    if ordered != [] {
      var front, last := ordered[..|ordered| - 1], ordered[|ordered| - 1];
      MergesJustified(front, d);
      FirstDuplicateIs(Kept(front, d), last, d);
      forall k | k in Kept(front, d)
        ensures k.score >= last.score
      {
        KeptAboveLast(ordered, d, k);
      }
    }
  }

  function Gone(m: Merge): ContextMemory {
    m.gone
  }

  /** Consolidation neither loses nor invents a memory. */
  lemma {:induction false} ConsolidationConserves(ordered: seq<ContextMemory>, d: Dedup)
    ensures multiset(Kept(ordered, d)) + multiset(Map(Merges(ordered, d), Gone)) == multiset(ordered)
  {
    if ordered != [] {
      var front, last := ordered[..|ordered| - 1], ordered[|ordered| - 1];
      assert ordered == front + [last];
      ConsolidationConserves(front, d);
      var duplicate := FirstDuplicate(Kept(front, d), last, d);
      if duplicate.Some? {
        MapAppend(Merges(front, d), Merge(last, duplicate.value), Gone);
      }
    }
  }

  lemma {:induction false} KeptCostsLess(ordered: seq<ContextMemory>, d: Dedup)
    ensures Total(Kept(ordered, d), MemoryTokens) <= Total(ordered, MemoryTokens)
  {
    if ordered != [] {
      var front, last := ordered[..|ordered| - 1], ordered[|ordered| - 1];
      KeptCostsLess(front, d);
      TotalAppend(Kept(front, d), last, MemoryTokens);
    }
  }

  /** Consolidating once more changes nothing. */
  lemma {:induction false} ConsolidateTwice(ordered: seq<ContextMemory>, d: Dedup)
    ensures Kept(Kept(ordered, d), d) == Kept(ordered, d) && Merges(Kept(ordered, d), d) == []
  {
    if ordered != [] {
      var front, last := ordered[..|ordered| - 1], ordered[|ordered| - 1];
      ConsolidateTwice(front, d);
      var kept := Kept(ordered, d);
      if kept != Kept(front, d) {
        assert kept[..|kept| - 1] == Kept(front, d);
      }
    }
  }

  /** The same for the whole stage, with its sorting. */
  lemma ConsolidateTwiceSorted(memories: seq<ContextMemory>, d: Dedup)
    ensures var kept := Kept(SortDescending(memories, ByScore), d);
            var again := SortDescending(kept, ByScore);
            Kept(again, d) == kept && Merges(again, d) == [] && Grouped(Merges(again, d)) == []
  {
    var ordered := SortDescending(memories, ByScore);
    SortSorts(memories, ByScore);
    KeptInOrder(ordered, d);
    SortOfSorted(Kept(ordered, d), ByScore);
    ConsolidateTwice(ordered, d);
  }

  // ----- the merge records -----

  /** The ids merged into memories with id `kept`, in order. */
  function MergedInto(merges: seq<Merge>, kept: MemoryId): seq<MemoryId> {
    if merges == [] then []
    else
      var last := merges[|merges| - 1];
      MergedInto(merges[..|merges| - 1], kept) + if last.into.id == kept then [last.gone.id] else []
  }

  function RemovedUnder(records: seq<MergeRecord>, kept: MemoryId): seq<MemoryId> {
    if records == [] then []
    else if records[0].kept == kept then records[0].removed
    else RemovedUnder(records[1..], kept)
  }

  function AllRemoved(records: seq<MergeRecord>): seq<MemoryId> {
    if records == [] then [] else records[0].removed + AllRemoved(records[1..])
  }

  ghost predicate DistinctKept(records: seq<MergeRecord>) {
    forall i, j :: 0 <= i < j < |records| ==> records[i].kept != records[j].kept
  }

  lemma {:induction false} AddMergeDistinct(records: seq<MergeRecord>, kept: MemoryId, gone: MemoryId)
    requires DistinctKept(records)
    ensures DistinctKept(AddMerge(records, kept, gone))
    ensures forall r <- AddMerge(records, kept, gone) :: r.kept == kept || r in records
  {
    if records != [] {
      assert records == [records[0]] + records[1..];
      AddMergeDistinct(records[1..], kept, gone);
    }
  }

  lemma {:induction false} AddMergeUnder(records: seq<MergeRecord>, kept: MemoryId, gone: MemoryId, k: MemoryId)
    ensures RemovedUnder(AddMerge(records, kept, gone), k) ==
            RemovedUnder(records, k) + if k == kept then [gone] else []
  {
    if records != [] {
      AddMergeUnder(records[1..], kept, gone, k);
      if records[0].kept == kept {
        assert AddMerge(records, kept, gone)[1..] == records[1..];
      } else {
        assert AddMerge(records, kept, gone)[1..] == AddMerge(records[1..], kept, gone);
      }
    }
  }

  lemma {:induction false} AddMergeAll(records: seq<MergeRecord>, kept: MemoryId, gone: MemoryId)
    ensures multiset(AllRemoved(AddMerge(records, kept, gone))) == multiset(AllRemoved(records)) + multiset{gone}
  {
    if records != [] {
      AddMergeAll(records[1..], kept, gone);
      if records[0].kept == kept {
        assert AddMerge(records, kept, gone)[1..] == records[1..];
      } else {
        assert AddMerge(records, kept, gone)[1..] == AddMerge(records[1..], kept, gone);
      }
    }
  }

  function GoneId(m: Merge): MemoryId {
    m.gone.id
  }

  /** There is one record for each kept id, and it lists what was merged into that id, in order. */
  lemma {:induction false} RecordsByKept(merges: seq<Merge>, k: MemoryId)
    ensures DistinctKept(Grouped(merges)) && RemovedUnder(Grouped(merges), k) == MergedInto(merges, k)
  {
    if merges != [] {
      var front, last := merges[..|merges| - 1], merges[|merges| - 1];
      RecordsByKept(front, k);
      AddMergeDistinct(Grouped(front), last.into.id, last.gone.id);
      AddMergeUnder(Grouped(front), last.into.id, last.gone.id, k);
    }
  }

  /** All records together list every removed id exactly as often as it was removed. */
  lemma {:induction false} RecordsPartition(merges: seq<Merge>)
    ensures multiset(AllRemoved(Grouped(merges))) == multiset(Map(merges, GoneId))
  {
    if merges != [] {
      var front, last := merges[..|merges| - 1], merges[|merges| - 1];
      RecordsPartition(front);
      AddMergeAll(Grouped(front), last.into.id, last.gone.id);
    }
  }

  function KeptIds(records: seq<MergeRecord>): seq<MemoryId> {
    if records == [] then [] else [records[0].kept] + KeptIds(records[1..])
  }

  /** The ids merged into, in the order of the first merge into each. */
  function FirstMerged(merges: seq<Merge>): seq<MemoryId> {
    if merges == [] then []
    else
      var before, id := FirstMerged(merges[..|merges| - 1]), merges[|merges| - 1].into.id;
      if id in before then before else before + [id]
  }

  lemma {:induction false} AddMergeKeeps(records: seq<MergeRecord>, kept: MemoryId, gone: MemoryId)
    ensures KeptIds(AddMerge(records, kept, gone)) ==
            KeptIds(records) + if kept in KeptIds(records) then [] else [kept]
  {
    if records != [] {
      AddMergeKeeps(records[1..], kept, gone);
      if records[0].kept == kept {
        assert AddMerge(records, kept, gone)[1..] == records[1..];
      } else {
        assert AddMerge(records, kept, gone)[1..] == AddMerge(records[1..], kept, gone);
      }
    }
  }

  /** The records come in the order of the first merge into each kept id. */
  lemma {:induction false} RecordsInOrder(merges: seq<Merge>)
    ensures KeptIds(Grouped(merges)) == FirstMerged(merges)
  {
    if merges != [] {
      var front, last := merges[..|merges| - 1], merges[|merges| - 1];
      RecordsInOrder(front);
      AddMergeKeeps(Grouped(front), last.into.id, last.gone.id);
    }
  }

  // ----- the whole pipeline -----

  lemma {:induction false} TotalInsert<T>(x: T, s: seq<T>, key: T -> Key, cost: T -> nat)
    ensures Total(Insert(x, s, key), cost) == cost(x) + Total(s, cost)
  {
    if s == [] || key(x).AtLeast(key(s[0])) {
      TotalFirst(x, s, cost);
    } else {
      TotalInsert(x, s[1..], key, cost);
      TotalFirst(s[0], Insert(x, s[1..], key), cost);
      TotalFirst(s[0], s[1..], cost);
      assert s == [s[0]] + s[1..];
    }
  }

  lemma {:induction false} TotalFirst<T>(x: T, s: seq<T>, cost: T -> nat)
    ensures Total([x] + s, cost) == cost(x) + Total(s, cost)
    decreases |s|
  {
    if s == [] {
      assert [x] + s == [] + [x];
      TotalAppend([], x, cost);
    } else {
      TotalFirst(x, s[..|s| - 1], cost);
      assert ([x] + s)[..|s|] == [x] + s[..|s| - 1];
    }
  }

  /** Sorting does not change the total. */
  lemma {:induction false} TotalSorted<T>(s: seq<T>, key: T -> Key, cost: T -> nat)
    ensures Total(SortDescending(s, key), cost) == Total(s, cost)
  {
    if s != [] {
      TotalSorted(s[1..], key, cost);
      TotalInsert(s[0], SortDescending(s[1..], key), key, cost);
      TotalFirst(s[0], s[1..], cost);
      assert s == [s[0]] + s[1..];
    }
  }

  lemma {:induction false} SelectedTokens(cs: seq<Candidate>)
    ensures Total(Map(cs, ToMemory), MemoryTokens) == Total(cs, CandidateTokens)
    ensures forall m <- Map(cs, ToMemory) :: m.tokens == Tokens.Count(m.content)
  {
    if cs != [] {
      SelectedTokens(cs[..|cs| - 1]);
      TotalAppend(Map(cs[..|cs| - 1], ToMemory), ToMemory(cs[|cs| - 1]), MemoryTokens);
    }
  }

  /** Normalising every memory does not raise the total. */
  lemma {:induction false} RenormalizedTotal(ms: seq<ContextMemory>)
    requires forall m <- ms :: m.tokens == Tokens.Count(m.content)
    ensures Total(Map(ms, Renormalize), MemoryTokens) <= Total(ms, MemoryTokens)
  {
    if ms != [] {
      var last := ms[|ms| - 1];
      RenormalizedTotal(ms[..|ms| - 1]);
      Tokens.NormalizationIsCheap(last.content);
      TotalAppend(Map(ms[..|ms| - 1], Renormalize), Renormalize(last), MemoryTokens);
    }
  }

  lemma {:induction false} RenormalizedOrder(ms: seq<ContextMemory>)
    requires Descending(ms, ByScore)
    ensures Descending(Map(ms, Renormalize), ByScore)
  {
    MapAt(ms, Renormalize);
  }

  /** The memories in the package are exactly the consolidated ones with normalised content: whatever the budget,
      compression removes nothing after selection. */
  lemma CompressionRemovesNothing(candidates: seq<Candidate>, maxTokens: int, d: Dedup)
    ensures var kept := Kept(Ordered(candidates, maxTokens), d);
            var a := Assembled(candidates, maxTokens, d);
            a.memories == Map(kept, Renormalize) &&
            a.dropped == Map(Unselected(candidates, maxTokens), OverBudget) +
                         Map(Merges(Ordered(candidates, maxTokens), d), AsDuplicate)
    ensures var a := Assembled(candidates, maxTokens, d);
            a.totalTokens == Total(a.memories, MemoryTokens) && (a.totalTokens <= maxTokens <==> 0 <= maxTokens)
  {
    var admitted := Admitted(SortDescending(candidates, Rank), CandidateTokens, maxTokens);
    var selected, ordered := Selected(candidates, maxTokens), Ordered(candidates, maxTokens);
    AdmissionIsSound(SortDescending(candidates, Rank), CandidateTokens, maxTokens);
    SelectedTokens(admitted);
    SortSorts(selected, ByScore);
    TotalSorted(selected, ByScore, MemoryTokens);
    KeptInOrder(ordered, d);
    KeptCostsLess(ordered, d);
    var kept := Kept(ordered, d);
    forall m | m in kept
      ensures m.tokens == Tokens.Count(m.content)
    {
      KeptFromInput(ordered, d, m);
      assert m in multiset(ordered);
    }
    RenormalizedTotal(kept);
    RenormalizedOrder(kept);
    SortOfSorted(Map(kept, Renormalize), ByScore);
    if maxTokens >= 0 {
      AdmitsAll(Map(kept, Renormalize), MemoryTokens, maxTokens);
    }
  }

  /** A candidate dropped for the budget does not fit into what the whole selection leaves of it. */
  lemma BudgetDropsDoNotFit(candidates: seq<Candidate>, maxTokens: int)
    ensures forall c <- Unselected(candidates, maxTokens) ::
              Total(Selected(candidates, maxTokens), MemoryTokens) + Tokens.Count(c.content) > maxTokens
  {
    AdmissionIsSound(SortDescending(candidates, Rank), CandidateTokens, maxTokens);
    SelectedTokens(Admitted(SortDescending(candidates, Rank), CandidateTokens, maxTokens));
  }

  // ----- priority -----

  /** Promoted before unpromoted, then the higher score. */
  predicate RanksAtLeast(m: ContextMemory, c: Candidate) {
    (m.isPromoted && !c.isPromoted) || (m.isPromoted == c.isPromoted && m.score >= c.finalScore)
  }

  /** The tokens of the memories that rank at least as high as `c`. */
  function TokensAbove(ms: seq<ContextMemory>, c: Candidate): nat {
    if ms == [] then 0
    else
      var last := ms[|ms| - 1];
      TokensAbove(ms[..|ms| - 1], c) + if RanksAtLeast(last, c) then last.tokens else 0
  }

  lemma {:induction false} AllAbove(ms: seq<ContextMemory>, c: Candidate)
    requires forall m <- ms :: RanksAtLeast(m, c)
    ensures TokensAbove(ms, c) == Total(ms, MemoryTokens)
  {
    if ms != [] {
      assert ms[|ms| - 1] in ms;
      AllAbove(ms[..|ms| - 1], c);
    }
  }

  lemma TokensAboveGrows(ms: seq<ContextMemory>, m: ContextMemory, c: Candidate)
    ensures TokensAbove(ms + [m], c) >= TokensAbove(ms, c)
  {
    assert (ms + [m])[..|ms|] == ms;
  }

  lemma {:induction false} AdmittedRank(ordered: seq<Candidate>, budget: int, c: Candidate)
    requires forall x <- ordered :: Rank(x).AtLeast(Rank(c))
    ensures forall m <- Map(Admitted(ordered, CandidateTokens, budget), ToMemory) :: RanksAtLeast(m, c)
  {
    if ordered != [] {
      assert ordered[|ordered| - 1] in ordered;
      var before := Admitted(ordered[..|ordered| - 1], CandidateTokens, budget);
      AdmittedRank(ordered[..|ordered| - 1], budget, c);
      MapAppend(before, ordered[|ordered| - 1], ToMemory);
    }
  }

  lemma {:induction false} NotDisplaced(ordered: seq<Candidate>, budget: int, c: Candidate)
    requires Descending(ordered, Rank) && c in Refused(ordered, CandidateTokens, budget)
    ensures TokensAbove(Map(Admitted(ordered, CandidateTokens, budget), ToMemory), c) + Tokens.Count(c.content) > budget
  {
    var front, last := ordered[..|ordered| - 1], ordered[|ordered| - 1];
    var before := Admitted(front, CandidateTokens, budget);
    if c in Refused(front, CandidateTokens, budget) {
      NotDisplaced(front, budget, c);
      MapAppend(before, last, ToMemory);
      TokensAboveGrows(Map(before, ToMemory), ToMemory(last), c);
    } else {
      AdmittedRank(front, budget, c);
      AllAbove(Map(before, ToMemory), c);
      SelectedTokens(before);
    }
  }

  /** A candidate is dropped only because of better ones: together with the selected memories that rank at least as
      high it exceeds the budget. So no unpromoted memory ever takes the place of a promoted one. */
  lemma PriorityRespected(candidates: seq<Candidate>, maxTokens: int)
    ensures forall c <- Unselected(candidates, maxTokens) ::
              TokensAbove(Selected(candidates, maxTokens), c) + Tokens.Count(c.content) > maxTokens
  {
    var ordered := SortDescending(candidates, Rank);
    SortSorts(candidates, Rank);
    forall c | c in Unselected(candidates, maxTokens)
      ensures TokensAbove(Selected(candidates, maxTokens), c) + Tokens.Count(c.content) > maxTokens
    {
      NotDisplaced(ordered, maxTokens, c);
    }
  }

  // ----- conservation of candidates -----

  function CandidateId(c: Candidate): MemoryId { c.id }

  function ContextId(m: ContextMemory): MemoryId { m.id }

  function DroppedId(d: Dropped): MemoryId { d.id }

  lemma {:induction false} MapConcat<A, B>(s: seq<A>, t: seq<A>, f: A -> B)
    ensures Map(s + t, f) == Map(s, f) + Map(t, f)
    decreases |t|
  {
    if t == [] {
      assert s + t == s;
    } else {
      MapConcat(s, t[..|t| - 1], f);
      assert (s + t)[..|s + t| - 1] == s + t[..|t| - 1];
    }
  }

  lemma {:induction false} MapCompose<A, B, C>(s: seq<A>, f: A -> B, g: B -> C, h: A -> C)
    requires forall i :: 0 <= i < |s| ==> g(f(s[i])) == h(s[i])
    ensures Map(Map(s, f), g) == Map(s, h)
  {
    if s != [] {
      var front, last := s[..|s| - 1], s[|s| - 1];
      MapCompose(front, f, g, h);
      MapAppend(Map(front, f), f(last), g);
    }
  }

  /** Mapping a rearrangement gives a rearrangement. */
  lemma {:induction false} MapRearranged<A, B>(s: seq<A>, t: seq<A>, f: A -> B)
    requires multiset(s) == multiset(t)
    ensures multiset(Map(s, f)) == multiset(Map(t, f))
    decreases |s|
  {
    assert |multiset(s)| == |multiset(t)|;
    if s != [] {
      var x := s[0];
      assert x in multiset(s);
      var s' := MapTakeOut(s, x, f);
      var t' := MapTakeOut(t, x, f);
      MapRearranged(s', t', f);
    }
  }

  lemma Surrounded<A, B>(before: seq<A>, x: A, after: seq<A>, f: A -> B)
    ensures Map(before + [x] + after, f) == Map(before, f) + [f(x)] + Map(after, f)
    ensures Map(before + after, f) == Map(before, f) + Map(after, f)
  {
    MapAppend(before, x, f);
    MapConcat(before + [x], after, f);
    MapConcat(before, after, f);
  }

  lemma SameElements<B>(p: seq<B>, y: B, q: seq<B>)
    ensures multiset(p + [y] + q) == multiset(p + q) + multiset{y}
  {
  }

  lemma MapTakeOut<A, B>(s: seq<A>, x: A, f: A -> B) returns (rest: seq<A>)
    requires x in multiset(s)
    ensures |rest| == |s| - 1 && multiset(rest) == multiset(s) - multiset{x}
    ensures multiset(Map(s, f)) == multiset(Map(rest, f)) + multiset{f(x)}
  {
    var i :| 0 <= i < |s| && s[i] == x;
    var before, after := s[..i], s[i + 1..];
    rest := before + after;
    assert s == before + [x] + after;
    SameElements(before, x, after);
    Surrounded(before, x, after, f);
    SameElements(Map(before, f), f(x), Map(after, f));
  }

  lemma SelectionConserves(candidates: seq<Candidate>, maxTokens: int)
    ensures multiset(Map(candidates, CandidateId)) ==
            multiset(Map(Selected(candidates, maxTokens), ContextId)) +
            multiset(Map(Map(Unselected(candidates, maxTokens), OverBudget), DroppedId))
  {
    var ranked := SortDescending(candidates, Rank);
    var admitted, refused := Admitted(ranked, CandidateTokens, maxTokens), Unselected(candidates, maxTokens);
    SortSorts(candidates, Rank);
    AdmissionIsSound(ranked, CandidateTokens, maxTokens);
    MapRearranged(candidates, admitted + refused, CandidateId);
    MapConcat(admitted, refused, CandidateId);
    MapCompose(admitted, ToMemory, ContextId, CandidateId);
    MapCompose(refused, OverBudget, DroppedId, CandidateId);
  }

  lemma ConsolidationConservesIds(memories: seq<ContextMemory>, d: Dedup)
    ensures var ordered := SortDescending(memories, ByScore);
            multiset(Map(memories, ContextId)) ==
            multiset(Map(Map(Kept(ordered, d), Renormalize), ContextId)) +
            multiset(Map(Map(Merges(ordered, d), AsDuplicate), DroppedId))
  {
    var ordered := SortDescending(memories, ByScore);
    var kept, merges := Kept(ordered, d), Merges(ordered, d);
    SortSorts(memories, ByScore);
    ConsolidationConserves(ordered, d);
    MapRearranged(memories, kept + Map(merges, Gone), ContextId);
    MapConcat(kept, Map(merges, Gone), ContextId);
    MapCompose(kept, Renormalize, ContextId, ContextId);
    MapCompose(merges, Gone, ContextId, GoneId);
    MapCompose(merges, AsDuplicate, DroppedId, GoneId);
  }

  /** Every candidate ends up in the package or among the dropped, as often as it came in. */
  lemma CandidatesConserved(candidates: seq<Candidate>, maxTokens: int, d: Dedup)
    ensures var a := Assembled(candidates, maxTokens, d);
            multiset(Map(candidates, CandidateId)) ==
            multiset(Map(a.memories, ContextId)) + multiset(Map(a.dropped, DroppedId))
  {
    var dropped := Map(Unselected(candidates, maxTokens), OverBudget);
    SelectionConserves(candidates, maxTokens);
    ConsolidationConservesIds(Selected(candidates, maxTokens), d);
    CompressionRemovesNothing(candidates, maxTokens, d);
    MapConcat(dropped, Map(Merges(Ordered(candidates, maxTokens), d), AsDuplicate), DroppedId);
  }
}
