/** What an assembled package holds, in terms of the candidates it was made from. */
module ContextPackage {
  import opened Wrappers
  import opened Ids
  import opened Sorting
  import opened Greedy
  import opened Text
  import opened Context
  import opened ContextProperties
  import Tokens

  // ----- from candidates to the package -----

  /** A package entry for a text: its words with single blanks in between, and the tokens of exactly that. */
  predicate Normalizes(m: ContextMemory, content: string) {
    Tokens.Words(m.content) == Tokens.Words(content) && Tokens.SingleBlanks(m.content) &&
    m.tokens == Tokens.Count(m.content)
  }

  predicate SameButContent(m: ContextMemory, k: ContextMemory) {
    m.id == k.id && m.kind == k.kind && m.status == k.status && m.score == k.score && m.isPromoted == k.isPromoted
  }

  lemma RenormalizeNormalizes(k: ContextMemory)
    ensures Normalizes(Renormalize(k), k.content) && SameButContent(Renormalize(k), k)
  {
    Tokens.NormalizedIs(k.content);
  }

  /** The package lists the kept memories in their order, each with its words, single blanks and its own recount. */
  lemma PackageIsNormalized(candidates: seq<Candidate>, maxTokens: int, d: Dedup)
    ensures var a, kept := Assembled(candidates, maxTokens, d), Kept(Ordered(candidates, maxTokens), d);
            |a.memories| == |kept| &&
            forall i :: 0 <= i < |kept| ==>
              SameButContent(a.memories[i], kept[i]) && Normalizes(a.memories[i], kept[i].content)
  {
    var a, kept := Assembled(candidates, maxTokens, d), Kept(Ordered(candidates, maxTokens), d);
    CompressionRemovesNothing(candidates, maxTokens, d);
    MapAt(kept, Renormalize);
    forall i | 0 <= i < |kept|
      ensures SameButContent(a.memories[i], kept[i]) && Normalizes(a.memories[i], kept[i].content)
    {
      RenormalizeNormalizes(kept[i]);
    }
  }

  /** A selected memory is a candidate with its tokens counted. */
  predicate IsSelected(m: ContextMemory, c: Candidate) {
    m.id == c.id && m.content == c.content && m.kind == c.kind && m.status == c.status && m.score == c.finalScore &&
    m.isPromoted == c.isPromoted && m.tokens == Tokens.Count(c.content)
  }

  lemma SelectedFromCandidates(candidates: seq<Candidate>, maxTokens: int, m: ContextMemory) returns (c: Candidate)
    requires m in Selected(candidates, maxTokens)
    ensures c in candidates && IsSelected(m, c)
  {
    var ranked := SortDescending(candidates, Rank);
    var admitted := Admitted(ranked, CandidateTokens, maxTokens);
    MapAt(admitted, ToMemory);
    var i :| 0 <= i < |admitted| && Map(admitted, ToMemory)[i] == m;
    c := admitted[i];
    SortSorts(candidates, Rank);
    AdmissionIsSound(ranked, CandidateTokens, maxTokens);
    assert c in multiset(admitted) && c in multiset(candidates);
  }

  lemma OrderedFromCandidates(candidates: seq<Candidate>, maxTokens: int, m: ContextMemory) returns (c: Candidate)
    requires m in Ordered(candidates, maxTokens)
    ensures c in candidates && IsSelected(m, c)
  {
    SortSorts(Selected(candidates, maxTokens), ByScore);
    assert m in multiset(Selected(candidates, maxTokens));
    c := SelectedFromCandidates(candidates, maxTokens, m);
  }

  /** Every entry of the package is a candidate whose content has been normalised and counted. */
  lemma PackageFromCandidates(candidates: seq<Candidate>, maxTokens: int, d: Dedup, i: nat) returns (c: Candidate)
    requires i < |Assembled(candidates, maxTokens, d).memories|
    ensures var m := Assembled(candidates, maxTokens, d).memories[i];
            c in candidates && m.id == c.id && m.kind == c.kind && m.status == c.status && m.score == c.finalScore &&
            m.isPromoted == c.isPromoted && Normalizes(m, c.content)
  {
    var kept := Kept(Ordered(candidates, maxTokens), d);
    PackageIsNormalized(candidates, maxTokens, d);
    KeptFromInput(Ordered(candidates, maxTokens), d, kept[i]);
    c := OrderedFromCandidates(candidates, maxTokens, kept[i]);
  }

  /** The package comes best score first, and its total is the sum of the tokens of its contents. */
  lemma PackageInOrder(candidates: seq<Candidate>, maxTokens: int, d: Dedup, i: nat, j: nat)
    requires i < j < |Assembled(candidates, maxTokens, d).memories|
    ensures var ms := Assembled(candidates, maxTokens, d).memories; ms[i].score >= ms[j].score
  {
    var ordered := Ordered(candidates, maxTokens);
    var kept := Kept(ordered, d);
    PackageIsNormalized(candidates, maxTokens, d);
    SortSorts(Selected(candidates, maxTokens), ByScore);
    KeptInOrder(ordered, d);
    assert ByScore(kept[i]).AtLeast(ByScore(kept[j]));
  }

  // ----- what is dropped -----

  /** What is dropped is a candidate with its own content, as over the budget or as a duplicate of a package entry. */
  lemma DroppedFromCandidates(candidates: seq<Candidate>, maxTokens: int, d: Dedup, x: Dropped) returns (c: Candidate)
    requires x in Assembled(candidates, maxTokens, d).dropped
    ensures c in candidates && x.id == c.id && x.content == c.content && x.reason != Compression
    ensures x.reason == TokenBudget ==> c in Unselected(candidates, maxTokens)
    ensures x.reason == Duplicate ==>
              exists m <- Merges(Ordered(candidates, maxTokens), d) :: IsSelected(m.gone, c)
  {
    var over, merges := Unselected(candidates, maxTokens), Merges(Ordered(candidates, maxTokens), d);
    CompressionRemovesNothing(candidates, maxTokens, d);
    MapAt(over, OverBudget);
    MapAt(merges, AsDuplicate);
    if x in Map(over, OverBudget) {
      var i :| 0 <= i < |over| && Map(over, OverBudget)[i] == x;
      c := over[i];
      UnselectedFromCandidates(candidates, maxTokens, c);
    } else {
      var i :| 0 <= i < |merges| && Map(merges, AsDuplicate)[i] == x;
      MergedFromInput(Ordered(candidates, maxTokens), d, merges[i]);
      c := OrderedFromCandidates(candidates, maxTokens, merges[i].gone);
      assert merges[i] in merges;
    }
  }

  lemma UnselectedFromCandidates(candidates: seq<Candidate>, maxTokens: int, c: Candidate)
    requires c in Unselected(candidates, maxTokens)
    ensures c in candidates
  {
    SortSorts(candidates, Rank);
    AdmissionIsSound(SortDescending(candidates, Rank), CandidateTokens, maxTokens);
    assert c in multiset(Unselected(candidates, maxTokens)) && c in multiset(candidates);
  }

  lemma {:induction false} MergedFromInput(ordered: seq<ContextMemory>, d: Dedup, m: Merge)
    requires m in Merges(ordered, d)
    ensures m.gone in ordered
  {
    var front := ordered[..|ordered| - 1];
    if m in Merges(front, d) {
      MergedFromInput(front, d, m);
    }
  }

  // ----- duplicates, by the tokens two contents share -----

  predicate Overlap(a: set<string>, b: set<string>, threshold: real) {
    if a + b == {} then 0.0 >= threshold else |a * b| as real >= threshold * |a + b| as real
  }

  lemma SimilarIsOverlap(a: ContextMemory, b: ContextMemory, d: Dedup)
    ensures d.Similar(a, b) <==> Overlap(d.tokenize(a.content), d.tokenize(b.content), d.threshold)
  {
    var s, t := d.tokenize(a.content), d.tokenize(b.content);
    if s + t != {} {
      JaccardAtLeast(s, t, d.threshold);
    }
  }

  /** A memory is merged into the first kept one that it overlaps with enough. */
  lemma {:induction false} FirstDuplicateAt(kept: seq<ContextMemory>, m: ContextMemory, d: Dedup) returns (k: nat)
    requires FirstDuplicate(kept, m, d).Some?
    ensures k < |kept| && kept[k] == FirstDuplicate(kept, m, d).value
    ensures Overlap(d.tokenize(m.content), d.tokenize(kept[k].content), d.threshold)
    ensures forall j :: 0 <= j < k ==> !Overlap(d.tokenize(m.content), d.tokenize(kept[j].content), d.threshold)
  {
    var front, last := kept[..|kept| - 1], kept[|kept| - 1];
    SimilarIsOverlap(m, last, d);
    if FirstDuplicate(front, m, d).Some? {
      k := FirstDuplicateAt(front, m, d);
    } else {
      k := |front|;
      FirstDuplicateIs(front, m, d);
      forall j | 0 <= j < k
        ensures !Overlap(d.tokenize(m.content), d.tokenize(kept[j].content), d.threshold)
      {
        assert kept[j] == front[j] && front[j] in front;
        SimilarIsOverlap(m, kept[j], d);
      }
    }
  }

  /** Of two kept memories the tokens in common are too few, so equal token sets are never both kept under a threshold
      of at most one. */
  lemma KeptOverlapLittle(ordered: seq<ContextMemory>, d: Dedup, i: nat, j: nat)
    requires i < j < |Kept(ordered, d)|
    ensures var a, b := d.tokenize(Kept(ordered, d)[i].content), d.tokenize(Kept(ordered, d)[j].content);
            !Overlap(a, b, d.threshold) && (a == b != {} ==> d.threshold > 1.0)
  {
    var x, y := Kept(ordered, d)[i], Kept(ordered, d)[j];
    KeptApart(ordered, d, i, j);
    SimilarIsOverlap(x, y, d);
    JaccardIsOne(d.tokenize(x.content), d.tokenize(y.content));
  }
}
