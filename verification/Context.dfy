/** The context assembly pipeline: selection, duplicate consolidation, compression. */
module Context {
  import opened Wrappers
  import opened Ids
  import opened Sorting
  import opened Greedy
  import opened Text
  import Tokens

  datatype Candidate = Candidate(id: MemoryId, content: string, kind: string, status: string, finalScore: real,
                                 isPromoted: bool)

  datatype ContextMemory = ContextMemory(id: MemoryId, content: string, kind: string, status: string, score: real,
                                         tokens: nat, isPromoted: bool)

  datatype Reason = TokenBudget | Duplicate | Compression

  datatype Dropped = Dropped(id: MemoryId, content: string, reason: Reason)

  datatype Selection = Selection(selected: seq<ContextMemory>, dropped: seq<Dropped>)

  datatype MergeRecord = MergeRecord(kept: MemoryId, removed: seq<MemoryId>)

  datatype Consolidation = Consolidation(kept: seq<ContextMemory>, removed: seq<Dropped>, records: seq<MergeRecord>)

  datatype Compressed = Compressed(memories: seq<ContextMemory>, removed: seq<Dropped>, original: nat, used: nat)

  datatype Assembly = Assembly(memories: seq<ContextMemory>, totalTokens: nat, dropped: seq<Dropped>,
                               records: seq<MergeRecord>)

  function Map<A, B>(s: seq<A>, f: A -> B): seq<B> {
    if s == [] then [] else Map(s[..|s| - 1], f) + [f(s[|s| - 1])]
  }

  lemma MapAppend<A, B>(s: seq<A>, a: A, f: A -> B)
    ensures Map(s + [a], f) == Map(s, f) + [f(a)]
  {
    assert (s + [a])[..|s|] == s;
  }

  lemma {:induction false} MapAt<A, B>(s: seq<A>, f: A -> B)
    ensures |Map(s, f)| == |s| && forall i :: 0 <= i < |s| ==> Map(s, f)[i] == f(s[i])
  {
    if s != [] {
      MapAt(s[..|s| - 1], f);
    }
  }

  // ----- selection -----

  /** Promoted first, then by score. */
  function Rank(c: Candidate): Key {
    Key(c.isPromoted, c.finalScore)
  }

  function CandidateTokens(c: Candidate): nat {
    Tokens.Count(c.content)
  }

  function ToMemory(c: Candidate): ContextMemory {
    ContextMemory(c.id, c.content, c.kind, c.status, c.finalScore, CandidateTokens(c), c.isPromoted)
  }

  function OverBudget(c: Candidate): Dropped {
    Dropped(c.id, c.content, TokenBudget)
  }

  method Select(candidates: seq<Candidate>, maxTokens: int) returns (r: Selection)
    ensures var ordered := SortDescending(candidates, Rank);
            r == Selection(Map(Admitted(ordered, CandidateTokens, maxTokens), ToMemory),
                           Map(Refused(ordered, CandidateTokens, maxTokens), OverBudget))
  {
    var ordered := SortDescending(candidates, Rank);
    var selected: seq<ContextMemory> := [];
    var dropped: seq<Dropped> := [];
    var used := 0;
    for i := 0 to |ordered|
      invariant selected == Map(Admitted(ordered[..i], CandidateTokens, maxTokens), ToMemory)
      invariant dropped == Map(Refused(ordered[..i], CandidateTokens, maxTokens), OverBudget)
      invariant used == Total(Admitted(ordered[..i], CandidateTokens, maxTokens), CandidateTokens)
    {
      AdmitNext(ordered, i, CandidateTokens, maxTokens);
      var candidate := ordered[i];
      var tokens := CandidateTokens(candidate);
      if used + tokens <= maxTokens {
        MapAppend(Admitted(ordered[..i], CandidateTokens, maxTokens), candidate, ToMemory);
        selected := selected + [ToMemory(candidate)];
        used := used + tokens;
      } else {
        MapAppend(Refused(ordered[..i], CandidateTokens, maxTokens), candidate, OverBudget);
        dropped := dropped + [OverBudget(candidate)];
      }
    }
    assert ordered[..|ordered|] == ordered;
    r := Selection(selected, dropped);
  }

  // ----- consolidation -----

  /** The similarity threshold and the tokenizer that duplicates are judged by. */
  datatype Dedup = Dedup(threshold: real, tokenize: string -> set<string>) {
    predicate Similar(a: ContextMemory, b: ContextMemory) {
      Jaccard(tokenize(a.content), tokenize(b.content)) >= threshold
    }
  }

  datatype Merge = Merge(gone: ContextMemory, into: ContextMemory)

  function ByScore(m: ContextMemory): Key {
    Key(false, m.score)
  }

  /** The earliest kept memory that `m` duplicates. */
  function FirstDuplicate(kept: seq<ContextMemory>, m: ContextMemory, d: Dedup): Option<ContextMemory> {
    if kept == [] then None
    else
      var earlier, last := FirstDuplicate(kept[..|kept| - 1], m, d), kept[|kept| - 1];
      if earlier.Some? then earlier else if d.Similar(m, last) then Some(last) else None
  }

  function Kept(ordered: seq<ContextMemory>, d: Dedup): seq<ContextMemory> {
    if ordered == [] then []
    else
      var before, last := Kept(ordered[..|ordered| - 1], d), ordered[|ordered| - 1];
      if FirstDuplicate(before, last, d).Some? then before else before + [last]
  }

  function Merges(ordered: seq<ContextMemory>, d: Dedup): seq<Merge> {
    if ordered == [] then []
    else
      var front, last := ordered[..|ordered| - 1], ordered[|ordered| - 1];
      var duplicate := FirstDuplicate(Kept(front, d), last, d);
      if duplicate.Some? then Merges(front, d) + [Merge(last, duplicate.value)] else Merges(front, d)
  }

  /** Notes one merge in the record of the kept memory, which is created when there is none. */
  function AddMerge(records: seq<MergeRecord>, kept: MemoryId, gone: MemoryId): seq<MergeRecord> {
    if records == [] then [MergeRecord(kept, [gone])]
    else if records[0].kept == kept then [MergeRecord(kept, records[0].removed + [gone])] + records[1..]
    else [records[0]] + AddMerge(records[1..], kept, gone)
  }

  function Grouped(merges: seq<Merge>): seq<MergeRecord> {
    if merges == [] then []
    else
      var last := merges[|merges| - 1];
      AddMerge(Grouped(merges[..|merges| - 1]), last.into.id, last.gone.id)
  }

  function AsDuplicate(m: Merge): Dropped {
    Dropped(m.gone.id, m.gone.content, Duplicate)
  }

  method Consolidate(memories: seq<ContextMemory>, d: Dedup) returns (r: Consolidation)
    ensures var ordered := SortDescending(memories, ByScore);
            r == Consolidation(Kept(ordered, d), Map(Merges(ordered, d), AsDuplicate), Grouped(Merges(ordered, d)))
  {
    var ordered := SortDescending(memories, ByScore);
    var kept: seq<ContextMemory> := [];
    var keptTokens: seq<set<string>> := [];
    var removed: seq<Dropped> := [];
    var merged: seq<MergeRecord> := [];
    for i := 0 to |ordered|
      invariant kept == Kept(ordered[..i], d)
      invariant |keptTokens| == |kept| && forall j :: 0 <= j < |kept| ==> keptTokens[j] == d.tokenize(kept[j].content)
      invariant removed == Map(Merges(ordered[..i], d), AsDuplicate)
      invariant merged == Grouped(Merges(ordered[..i], d))
    {
      var memory := ordered[i];
      ConsolidateNext(ordered, i, d);
      var tokens := d.tokenize(memory.content);
      var duplicateOf := FindDuplicate(memory, tokens, kept, keptTokens, d);
      if duplicateOf == None {
        kept := kept + [memory];
        keptTokens := keptTokens + [tokens];
      } else {
        MapAppend(Merges(ordered[..i], d), Merge(memory, duplicateOf.value), AsDuplicate);
        removed := removed + [Dropped(memory.id, memory.content, Duplicate)];
        merged := AddMerge(merged, duplicateOf.value.id, memory.id);
      }
    }
    assert ordered[..|ordered|] == ordered;
    r := Consolidation(kept, removed, merged);
  }

  /** The inner loop: looks through the kept memories and stops at the first duplicate. */
  method FindDuplicate(memory: ContextMemory, tokens: set<string>, kept: seq<ContextMemory>,
                       keptTokens: seq<set<string>>, d: Dedup)
    returns (duplicateOf: Option<ContextMemory>)
    requires tokens == d.tokenize(memory.content) && |keptTokens| == |kept|
    requires forall j :: 0 <= j < |kept| ==> keptTokens[j] == d.tokenize(kept[j].content)
    ensures duplicateOf == FirstDuplicate(kept, memory, d)
  {
    for j := 0 to |kept|
      invariant FirstDuplicate(kept[..j], memory, d) == None
    {
      assert kept[..j + 1][..j] == kept[..j];
      if Jaccard(tokens, keptTokens[j]) >= d.threshold {
        DuplicateStays(kept, j + 1, memory, d);
        return Some(kept[j]);
      }
    }
    assert kept[..|kept|] == kept;
    return None;
  }

  lemma {:induction false} DuplicateStays(kept: seq<ContextMemory>, j: nat, m: ContextMemory, d: Dedup)
    requires j <= |kept| && FirstDuplicate(kept[..j], m, d).Some?
    ensures FirstDuplicate(kept, m, d) == FirstDuplicate(kept[..j], m, d)
    decreases |kept|
  {
    if j == |kept| {
      assert kept[..j] == kept;
    } else {
      var front := kept[..|kept| - 1];
      assert front[..j] == kept[..j];
      DuplicateStays(front, j, m, d);
    }
  }

  /** One more turn of the consolidation loop. */
  lemma ConsolidateNext(ordered: seq<ContextMemory>, i: nat, d: Dedup)
    requires i < |ordered|
    ensures var before, m := Kept(ordered[..i], d), ordered[i];
            var duplicate := FirstDuplicate(before, m, d);
            if duplicate.Some? then
              Kept(ordered[..i + 1], d) == before &&
              Merges(ordered[..i + 1], d) == Merges(ordered[..i], d) + [Merge(m, duplicate.value)] &&
              Grouped(Merges(ordered[..i + 1], d)) ==
              AddMerge(Grouped(Merges(ordered[..i], d)), duplicate.value.id, m.id)
            else
              Kept(ordered[..i + 1], d) == before + [m] && Merges(ordered[..i + 1], d) == Merges(ordered[..i], d)
  {
    assert ordered[..i + 1][..i] == ordered[..i];
    var merges := Merges(ordered[..i + 1], d);
    if |merges| > 0 && FirstDuplicate(Kept(ordered[..i], d), ordered[i], d).Some? {
      assert merges[..|merges| - 1] == Merges(ordered[..i], d);
    }
  }

  // ----- compression -----

  function Renormalize(m: ContextMemory): ContextMemory {
    var content := Tokens.NormalizeWhitespace(m.content);
    m.(content := content, tokens := Tokens.Count(content))
  }

  function MemoryTokens(m: ContextMemory): nat {
    m.tokens
  }

  function Pruned(m: ContextMemory): Dropped {
    Dropped(m.id, m.content, Compression)
  }

  /** One more turn of the compression loop. */
  lemma CompressNext(items: seq<ContextMemory>, i: nat, budget: int)
    requires i < |items|
    ensures var kept, removed := Admitted(items[..i], MemoryTokens, budget), Refused(items[..i], MemoryTokens, budget);
            var kept', removed' :=
              Admitted(items[..i + 1], MemoryTokens, budget), Refused(items[..i + 1], MemoryTokens, budget);
            if Total(kept, MemoryTokens) + items[i].tokens <= budget then
              kept' == kept + [items[i]] && Map(removed', Pruned) == Map(removed, Pruned) &&
              Total(kept', MemoryTokens) == Total(kept, MemoryTokens) + items[i].tokens
            else kept' == kept && Map(removed', Pruned) == Map(removed, Pruned) + [Pruned(items[i])]
  {
    AdmitNext(items, i, MemoryTokens, budget);
    MapAppend(Refused(items[..i], MemoryTokens, budget), items[i], Pruned);
  }

  method Compress(memories: seq<ContextMemory>, maxTokens: int) returns (r: Compressed)
    ensures var ordered := SortDescending(Map(memories, Renormalize), ByScore);
            r == Compressed(Admitted(ordered, MemoryTokens, maxTokens),
                            Map(Refused(ordered, MemoryTokens, maxTokens), Pruned),
                            Total(memories, MemoryTokens),
                            Total(Admitted(ordered, MemoryTokens, maxTokens), MemoryTokens))
  {
    var normalized := SortDescending(Map(memories, Renormalize), ByScore);
    var kept: seq<ContextMemory> := [];
    var removed: seq<Dropped> := [];
    var used := 0;
    for i := 0 to |normalized|
      invariant kept == Admitted(normalized[..i], MemoryTokens, maxTokens)
      invariant removed == Map(Refused(normalized[..i], MemoryTokens, maxTokens), Pruned)
      invariant used == Total(kept, MemoryTokens)
    {
      CompressNext(normalized, i, maxTokens);
      var memory := normalized[i];
      if used + memory.tokens <= maxTokens {
        kept := kept + [memory];
        used := used + memory.tokens;
      } else {
        removed := removed + [Dropped(memory.id, memory.content, Compression)];
      }
    }
    assert normalized[..|normalized|] == normalized;
    r := Compressed(kept, removed, Total(memories, MemoryTokens), used);
  }

  // ----- the pipeline -----

  /** The stages in a row; all stages share one budget. */
  method Assemble(candidates: seq<Candidate>, maxTokens: int, d: Dedup) returns (a: Assembly)
    ensures a == Assembled(candidates, maxTokens, d)
  {
    var selection := Select(candidates, maxTokens);
    var consolidation := Consolidate(selection.selected, d);
    var compression := Compress(consolidation.kept, maxTokens);
    a := Assembly(compression.memories, compression.used,
                  selection.dropped + consolidation.removed + compression.removed, consolidation.records);
  }

  function Selected(candidates: seq<Candidate>, maxTokens: int): seq<ContextMemory> {
    Map(Admitted(SortDescending(candidates, Rank), CandidateTokens, maxTokens), ToMemory)
  }

  function Unselected(candidates: seq<Candidate>, maxTokens: int): seq<Candidate> {
    Refused(SortDescending(candidates, Rank), CandidateTokens, maxTokens)
  }

  /** The selected memories, best first. */
  function Ordered(candidates: seq<Candidate>, maxTokens: int): seq<ContextMemory> {
    SortDescending(Selected(candidates, maxTokens), ByScore)
  }

  function Assembled(candidates: seq<Candidate>, maxTokens: int, d: Dedup): Assembly {
    var ordered := Ordered(candidates, maxTokens);
    var normalized := SortDescending(Map(Kept(ordered, d), Renormalize), ByScore);
    Assembly(Admitted(normalized, MemoryTokens, maxTokens),
             Total(Admitted(normalized, MemoryTokens, maxTokens), MemoryTokens),
             Map(Unselected(candidates, maxTokens), OverBudget) + Map(Merges(ordered, d), AsDuplicate) +
             Map(Refused(normalized, MemoryTokens, maxTokens), Pruned),
             Grouped(Merges(ordered, d)))
  }
}
