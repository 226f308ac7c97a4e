/** Brute-force clustering: union-find with path halving over all pairs of memories. */
module Clustering {
  import opened Text

  /** Ids are only ever compared. */
  datatype Id = Id(text: string)

  datatype Memory = Memory(id: Id, content: string)

  type Signatures = map<Id, set<string>>

  // ----- what a cluster is -----

  /** Two memories belong together when neither signature is empty and they overlap enough. */
  predicate Similar(sigs: Signatures, minOverlap: real, a: Id, b: Id)
    requires a in sigs && b in sigs
  {
    sigs[a] != {} && sigs[b] != {} && Jaccard(sigs[a], sigs[b]) >= minOverlap
  }

  ghost predicate Near(ids: set<Id>, sigs: Signatures, minOverlap: real, a: Id, b: Id) {
    a in ids && b in ids && a in sigs && b in sigs && Similar(sigs, minOverlap, a, b)
  }

  ghost predicate IsChain(ids: set<Id>, sigs: Signatures, minOverlap: real, chain: seq<Id>) {
    |chain| > 0 && chain[0] in ids &&
    forall i, j :: 0 <= i < j < |chain| && j == i + 1 ==> Near(ids, sigs, minOverlap, chain[i], chain[j])
  }

  /** The reflexive and transitive closure of similarity. */
  ghost predicate Connected(ids: set<Id>, sigs: Signatures, minOverlap: real, x: Id, y: Id) {
    exists chain :: IsChain(ids, sigs, minOverlap, chain) && chain[0] == x && chain[|chain| - 1] == y
  }

  ghost function ComponentOf(ids: set<Id>, sigs: Signatures, minOverlap: real, x: Id): set<Id> {
    set y | y in ids && Connected(ids, sigs, minOverlap, x, y)
  }

  ghost function Components(ids: set<Id>, sigs: Signatures, minOverlap: real): set<set<Id>> {
    set x | x in ids :: ComponentOf(ids, sigs, minOverlap, x)
  }

  lemma NearSymmetric(ids: set<Id>, sigs: Signatures, minOverlap: real, a: Id, b: Id)
    requires Near(ids, sigs, minOverlap, a, b)
    ensures Near(ids, sigs, minOverlap, b, a)
  {
    JaccardSymmetric(sigs[a], sigs[b]);
  }

  lemma ConnectedReflexive(ids: set<Id>, sigs: Signatures, minOverlap: real, x: Id)
    requires x in ids
    ensures Connected(ids, sigs, minOverlap, x, x)
  {
    assert IsChain(ids, sigs, minOverlap, [x]);
  }

  lemma ConnectedStep(ids: set<Id>, sigs: Signatures, minOverlap: real, x: Id, y: Id, z: Id)
    requires Connected(ids, sigs, minOverlap, x, y) && Near(ids, sigs, minOverlap, y, z)
    ensures Connected(ids, sigs, minOverlap, x, z)
  {
    var chain :| IsChain(ids, sigs, minOverlap, chain) && chain[0] == x && chain[|chain| - 1] == y;
    var longer := chain + [z];
    forall i, j | 0 <= i < j < |longer| && j == i + 1
      ensures Near(ids, sigs, minOverlap, longer[i], longer[j])
    {
      if j < |chain| {
        assert Near(ids, sigs, minOverlap, chain[i], chain[j]);
      }
    }
    assert IsChain(ids, sigs, minOverlap, longer);
  }

  lemma {:induction false} ChainConnects(ids: set<Id>, sigs: Signatures, minOverlap: real, x: Id, chain: seq<Id>)
    requires IsChain(ids, sigs, minOverlap, chain) && Connected(ids, sigs, minOverlap, x, chain[0])
    ensures Connected(ids, sigs, minOverlap, x, chain[|chain| - 1])
    decreases |chain|
  {
    if |chain| > 1 {
      var shorter := chain[..|chain| - 1];
      assert forall i :: 0 <= i < |shorter| ==> shorter[i] == chain[i];
      ChainConnects(ids, sigs, minOverlap, x, shorter);
      ConnectedStep(ids, sigs, minOverlap, x, chain[|chain| - 2], chain[|chain| - 1]);
    }
  }

  lemma ConnectedTransitive(ids: set<Id>, sigs: Signatures, minOverlap: real, x: Id, y: Id, z: Id)
    requires Connected(ids, sigs, minOverlap, x, y) && Connected(ids, sigs, minOverlap, y, z)
    ensures Connected(ids, sigs, minOverlap, x, z)
  {
    var chain :| IsChain(ids, sigs, minOverlap, chain) && chain[0] == y && chain[|chain| - 1] == z;
    ChainConnects(ids, sigs, minOverlap, x, chain);
  }

  lemma {:induction false} ChainReversed(ids: set<Id>, sigs: Signatures, minOverlap: real, chain: seq<Id>)
    requires IsChain(ids, sigs, minOverlap, chain)
    ensures Connected(ids, sigs, minOverlap, chain[|chain| - 1], chain[0])
    decreases |chain|
  {
    ConnectedReflexive(ids, sigs, minOverlap, chain[0]);
    if |chain| > 1 {
      var shorter := chain[..|chain| - 1];
      assert forall i :: 0 <= i < |shorter| ==> shorter[i] == chain[i];
      ChainReversed(ids, sigs, minOverlap, shorter);
      var y, z := chain[|chain| - 2], chain[|chain| - 1];
      NearSymmetric(ids, sigs, minOverlap, y, z);
      ConnectedReflexive(ids, sigs, minOverlap, z);
      ConnectedStep(ids, sigs, minOverlap, z, z, y);
      ConnectedTransitive(ids, sigs, minOverlap, z, y, chain[0]);
    }
  }

  lemma ConnectedSymmetric(ids: set<Id>, sigs: Signatures, minOverlap: real, x: Id, y: Id)
    requires Connected(ids, sigs, minOverlap, x, y)
    ensures Connected(ids, sigs, minOverlap, y, x)
  {
    var chain :| IsChain(ids, sigs, minOverlap, chain) && chain[0] == x && chain[|chain| - 1] == y;
    ChainReversed(ids, sigs, minOverlap, chain);
  }

  // ----- small clusters -----

  lemma {:induction false} ChainStays(ids: set<Id>, sigs: Signatures, minOverlap: real, chain: seq<Id>)
    requires IsChain(ids, sigs, minOverlap, chain)
    requires forall y :: Near(ids, sigs, minOverlap, chain[0], y) ==> y == chain[0]
    ensures chain[|chain| - 1] == chain[0]
    decreases |chain|
  {
    if |chain| > 1 {
      assert Near(ids, sigs, minOverlap, chain[0], chain[1]);
      var shorter := chain[1..];
      assert forall i :: 0 <= i < |shorter| ==> shorter[i] == chain[i + 1];
      ChainStays(ids, sigs, minOverlap, shorter);
    }
  }

  /** What is near nothing else is a cluster of its own. */
  lemma StandsAlone(ids: set<Id>, sigs: Signatures, minOverlap: real, x: Id)
    requires x in ids && forall y :: Near(ids, sigs, minOverlap, x, y) ==> y == x
    ensures ComponentOf(ids, sigs, minOverlap, x) == {x}
  {
    ConnectedReflexive(ids, sigs, minOverlap, x);
    forall y | Connected(ids, sigs, minOverlap, x, y)
      ensures y == x
    {
      var chain :| IsChain(ids, sigs, minOverlap, chain) && chain[0] == x && chain[|chain| - 1] == y;
      ChainStays(ids, sigs, minOverlap, chain);
    }
  }

  /** So is a memory without any tokens. */
  lemma EmptyStandsAlone(ids: set<Id>, sigs: Signatures, minOverlap: real, x: Id)
    requires x in ids && x in sigs && sigs[x] == {}
    ensures ComponentOf(ids, sigs, minOverlap, x) == {x}
  {
    StandsAlone(ids, sigs, minOverlap, x);
  }

  lemma BothTogether(a: Id, b: Id, sigs: Signatures, minOverlap: real, x: Id)
    requires x in {a, b} && Near({a, b}, sigs, minOverlap, a, b)
    ensures ComponentOf({a, b}, sigs, minOverlap, x) == {a, b}
  {
    var ids := {a, b};
    NearSymmetric(ids, sigs, minOverlap, a, b);
    forall y | y in ids
      ensures Connected(ids, sigs, minOverlap, x, y)
    {
      ConnectedReflexive(ids, sigs, minOverlap, x);
      if y != x {
        ConnectedStep(ids, sigs, minOverlap, x, x, y);
      }
    }
  }

  /** Two memories with tokens form one cluster iff the tokens they share are at least the given part of the tokens
      they have together, and else two. */
  lemma TwoMemories(a: Id, b: Id, sigs: Signatures, minOverlap: real)
    requires a != b && a in sigs && b in sigs && sigs[a] != {} && sigs[b] != {}
    ensures |Components({a, b}, sigs, minOverlap)| ==
            if |sigs[a] * sigs[b]| as real >= minOverlap * |sigs[a] + sigs[b]| as real then 1 else 2
  {
    var ids := {a, b};
    JaccardAtLeast(sigs[a], sigs[b], minOverlap);
    var one, other := ComponentOf(ids, sigs, minOverlap, a), ComponentOf(ids, sigs, minOverlap, b);
    assert Components(ids, sigs, minOverlap) == {one, other};
    if Near(ids, sigs, minOverlap, a, b) {
      BothTogether(a, b, sigs, minOverlap, a);
      BothTogether(a, b, sigs, minOverlap, b);
    } else {
      JaccardSymmetric(sigs[a], sigs[b]);
      StandsAlone(ids, sigs, minOverlap, a);
      StandsAlone(ids, sigs, minOverlap, b);
      assert a !in other && one != other;
    }
  }

  // ----- the forest -----

  /** The parent of `x` is an id with the same root and, unless `x` is that root, a higher rank. */
  ghost predicate Fits(parent: map<Id, Id>, root: map<Id, Id>, rank: map<Id, nat>, height: nat, x: Id)
    requires x in parent && root.Keys == parent.Keys && rank.Keys == parent.Keys
  {
    parent[x] in parent && root[x] in parent &&
    root[parent[x]] == root[x] && parent[root[x]] == root[x] &&
    (if parent[x] == x then root[x] == x else rank[x] < rank[parent[x]]) &&
    rank[x] <= height
  }

  /** Ranks grow along parents, so there are no cycles and following parents ends at the root. */
  ghost predicate IsForest(parent: map<Id, Id>, root: map<Id, Id>, rank: map<Id, nat>, height: nat) {
    root.Keys == parent.Keys && rank.Keys == parent.Keys &&
    forall x {:trigger Fits(parent, root, rank, height, x)} :: x in parent ==> Fits(parent, root, rank, height, x)
  }

  /** Pointing an id at its grandparent keeps the forest and every root. */
  lemma HalvePath(parent: map<Id, Id>, root: map<Id, Id>, rank: map<Id, nat>, height: nat, x: Id)
    requires IsForest(parent, root, rank, height) && x in parent && parent[x] != x
    ensures parent[x] in parent && parent[parent[x]] in parent
    ensures IsForest(parent[x := parent[parent[x]]], root, rank, height)
    ensures root[parent[parent[x]]] == root[x] && rank[x] < rank[parent[parent[x]]] <= height
  {
    assert Fits(parent, root, rank, height, x);
    assert Fits(parent, root, rank, height, parent[x]);
    var grand := parent[parent[x]];
    assert Fits(parent, root, rank, height, grand);
    var parent' := parent[x := grand];
    forall y | y in parent'
      ensures Fits(parent', root, rank, height, y)
    {
      assert Fits(parent, root, rank, height, y);
    }
  }

  /** Following parents often enough leads to the root, and the root is its own parent. */
  lemma {:induction false} RootIsReached(parent: map<Id, Id>, root: map<Id, Id>, rank: map<Id, nat>, height: nat, x: Id)
    returns (steps: nat)
    requires IsForest(parent, root, rank, height) && x in parent
    ensures root[x] in parent && Ancestor(parent, x, steps) == root[x] && parent[root[x]] == root[x]
    decreases height - rank[x]
  {
    assert Fits(parent, root, rank, height, x);
    if parent[x] == x {
      steps := 0;
    } else {
      assert Fits(parent, root, rank, height, parent[x]);
      var more := RootIsReached(parent, root, rank, height, parent[x]);
      steps := more + 1;
    }
  }

  ghost function Ancestor(parent: map<Id, Id>, x: Id, steps: nat): Id
    decreases steps
  {
    if steps == 0 || x !in parent then x else Ancestor(parent, parent[x], steps - 1)
  }

  ghost function Merged(root: map<Id, Id>, ra: Id, rb: Id): map<Id, Id> {
    map x | x in root :: if root[x] == ra then rb else root[x]
  }

  /** Ranks after a union: those of the upper tree rise above the lower one's. */
  ghost function Raised(rank: map<Id, nat>, root: map<Id, Id>, rb: Id, lift: nat): map<Id, nat> {
    map x | x in rank :: if x in root && root[x] == rb then rank[x] + lift else rank[x]
  }

  /** Hanging one root below another keeps the forest; only the ids of the lower tree get a new root. */
  lemma HangBelow(parent: map<Id, Id>, root: map<Id, Id>, rank: map<Id, nat>, height: nat, ra: Id, rb: Id)
    requires IsForest(parent, root, rank, height)
    requires ra in parent && rb in parent && root[ra] == ra && root[rb] == rb && ra != rb
    ensures IsForest(parent[ra := rb], Merged(root, ra, rb), Raised(rank, root, rb, rank[ra] + 1),
                     height + rank[ra] + 1)
  {
    var parent', root' := parent[ra := rb], Merged(root, ra, rb);
    var rank', height' := Raised(rank, root, rb, rank[ra] + 1), height + rank[ra] + 1;
    assert Fits(parent, root, rank, height, ra);
    assert Fits(parent, root, rank, height, rb);
    forall y | y in parent'
      ensures Fits(parent', root', rank', height', y)
    {
      assert Fits(parent, root, rank, height, y);
    }
  }

  /** Hanging the root of one id below that of another, which may be the same. */
  lemma JoinTrees(parent: map<Id, Id>, root: map<Id, Id>, rank: map<Id, nat>, height: nat, a: Id, b: Id, ra: Id, rb: Id)
    returns (root': map<Id, Id>, rank': map<Id, nat>, height': nat)
    requires IsForest(parent, root, rank, height) && a in parent && b in parent && ra == root[a] && rb == root[b]
    ensures ra in parent && IsForest(parent[ra := rb], root', rank', height')
    ensures parent[ra := rb].Keys == parent.Keys
    ensures forall x <- parent :: root'[x] == if root[x] == root[a] then root[b] else root[x]
  {
    assert Fits(parent, root, rank, height, a) && Fits(parent, root, rank, height, b);
    assert Fits(parent, root, rank, height, ra) && Fits(parent, root, rank, height, rb);
    root', rank', height' := root, rank, height;
    if ra != rb {
      HangBelow(parent, root, rank, height, ra, rb);
      height' := height + rank[ra] + 1;
      rank' := Raised(rank, root, rb, rank[ra] + 1);
      root' := Merged(root, ra, rb);
    } else {
      assert parent[ra := rb] == parent;
    }
  }

  /** The parent map, with the root each id leads to and a rank that grows towards the roots. */
  class Forest {
    var parent: map<Id, Id>
    ghost var root: map<Id, Id>
    ghost var rank: map<Id, nat>
    ghost var height: nat

    ghost predicate Valid()
      reads this
    {
      IsForest(parent, root, rank, height)
    }

    /** Every id its own root. */
    constructor (memories: seq<Memory>)
      ensures Valid()
      ensures parent.Keys == IdsOf(memories) && forall x <- parent :: root[x] == x
    {
      var ids := IdsOf(memories);
      parent := map id | id in ids :: id;
      root := map id | id in ids :: id;
      rank := map id | id in ids :: 0;
      height := 0;
    }

    /** Follows parents to the root, making every other id on the way point to its grandparent. */
    method Find(start: Id) returns (r: Id)
      requires Valid() && start in parent
      modifies this`parent
      ensures Valid() && parent.Keys == old(parent.Keys)
      ensures r == root[start] && r in parent && parent[r] == r
    {
      var x := start;
      assert Fits(parent, root, rank, height, x);
      while parent[x] != x
        invariant Valid() && parent.Keys == old(parent.Keys)
        invariant x in parent && root[x] == root[start]
        decreases height - rank[x]
      {
        HalvePath(parent, root, rank, height, x);
        parent := parent[x := parent[parent[x]]];
        x := parent[x];
      }
      assert Fits(parent, root, rank, height, x);
      r := x;
    }

    /** Hangs one root below the other; the ids of both trees then share the second root. */
    method Union(a: Id, b: Id)
      requires Valid() && a in parent && b in parent
      modifies this
      ensures Valid() && parent.Keys == old(parent.Keys)
      ensures forall x <- parent :: root[x] == if old(root)[x] == old(root)[a] then old(root)[b] else old(root)[x]
    {
      var rb := Find(b);
      var ra := Find(a);
      root, rank, height := JoinTrees(parent, root, rank, height, a, b, ra, rb);
      parent := parent[ra := rb];
    }
  }

  // ----- linking all pairs -----

  ghost predicate SharedRootsConnected(ids: set<Id>, sigs: Signatures, minOverlap: real, root: map<Id, Id>) {
    root.Keys == ids &&
    forall x, y {:trigger Connected(ids, sigs, minOverlap, x, y)} ::
      x in ids && y in ids && root[x] == root[y] ==> Connected(ids, sigs, minOverlap, x, y)
  }

  /** The pairs tried before the pair of positions `i` and `j`. */
  ghost predicate PairsLinked(memories: seq<Memory>, sigs: Signatures, minOverlap: real, root: map<Id, Id>,
                              i: nat, j: nat) {
    root.Keys == IdsOf(memories) &&
    forall p, q {:trigger Near(root.Keys, sigs, minOverlap, memories[p].id, memories[q].id)} ::
      0 <= p < q < |memories| && (p < i || (p == i && q < j)) &&
      Near(root.Keys, sigs, minOverlap, memories[p].id, memories[q].id) ==>
        root[memories[p].id] == root[memories[q].id]
  }

  lemma MergeKeepsConnected(ids: set<Id>, sigs: Signatures, minOverlap: real, root: map<Id, Id>, root': map<Id, Id>,
                            a: Id, b: Id)
    requires SharedRootsConnected(ids, sigs, minOverlap, root) && Near(ids, sigs, minOverlap, a, b)
    requires root'.Keys == ids && forall x <- ids :: root'[x] == if root[x] == root[a] then root[b] else root[x]
    ensures SharedRootsConnected(ids, sigs, minOverlap, root')
  {
    forall x, y | x in ids && y in ids && root'[x] == root'[y]
      ensures Connected(ids, sigs, minOverlap, x, y)
    {
      if root[x] != root[y] {
        if root[x] == root[a] {
          ConnectedStep(ids, sigs, minOverlap, x, a, b);
          ConnectedTransitive(ids, sigs, minOverlap, x, b, y);
        } else {
          ConnectedStep(ids, sigs, minOverlap, y, a, b);
          ConnectedTransitive(ids, sigs, minOverlap, y, b, x);
          ConnectedSymmetric(ids, sigs, minOverlap, y, x);
        }
      }
    }
  }

  lemma MergeKeepsLinks(memories: seq<Memory>, sigs: Signatures, minOverlap: real, root: map<Id, Id>,
                        root': map<Id, Id>, i: nat, j: nat)
    requires i < j < |memories| && PairsLinked(memories, sigs, minOverlap, root, i, j)
    requires root'.Keys == root.Keys
    requires forall x <- root ::
               root'[x] == if root[x] == root[memories[i].id] then root[memories[j].id] else root[x]
    ensures PairsLinked(memories, sigs, minOverlap, root', i, j + 1)
  {
    assert memories[i].id in root && memories[j].id in root;
  }

  lemma NothingToLink(memories: seq<Memory>, sigs: Signatures, minOverlap: real, root: map<Id, Id>, i: nat, j: nat)
    requires i < j < |memories| && PairsLinked(memories, sigs, minOverlap, root, i, j)
    requires !Near(root.Keys, sigs, minOverlap, memories[i].id, memories[j].id)
    ensures PairsLinked(memories, sigs, minOverlap, root, i, j + 1)
  {
  }

  lemma RowLinked(memories: seq<Memory>, sigs: Signatures, minOverlap: real, root: map<Id, Id>, i: nat)
    requires i < |memories| && PairsLinked(memories, sigs, minOverlap, root, i, |memories|)
    ensures PairsLinked(memories, sigs, minOverlap, root, i + 1, 0)
  {
  }

  /** Once all pairs have been tried, similar ids share a root. */
  lemma NearShareRoot(memories: seq<Memory>, sigs: Signatures, minOverlap: real, root: map<Id, Id>, a: Id, b: Id)
    requires PairsLinked(memories, sigs, minOverlap, root, |memories|, 0)
    requires Near(IdsOf(memories), sigs, minOverlap, a, b)
    ensures root[a] == root[b]
  {
    var p :| 0 <= p < |memories| && memories[p].id == a;
    var q :| 0 <= q < |memories| && memories[q].id == b;
    if q < p {
      NearSymmetric(IdsOf(memories), sigs, minOverlap, a, b);
    }
  }

  lemma {:induction false} ChainSharesRoot(memories: seq<Memory>, sigs: Signatures, minOverlap: real,
                                           root: map<Id, Id>, chain: seq<Id>)
    requires PairsLinked(memories, sigs, minOverlap, root, |memories|, 0)
    requires IsChain(IdsOf(memories), sigs, minOverlap, chain)
    ensures chain[|chain| - 1] in root && root[chain[|chain| - 1]] == root[chain[0]]
    decreases |chain|
  {
    if |chain| > 1 {
      var shorter := chain[..|chain| - 1];
      assert forall i :: 0 <= i < |shorter| ==> shorter[i] == chain[i];
      ChainSharesRoot(memories, sigs, minOverlap, root, shorter);
      NearShareRoot(memories, sigs, minOverlap, root, chain[|chain| - 2], chain[|chain| - 1]);
    }
  }

  /** Sharing a root is the same as being connected. */
  ghost predicate RootsAreComponents(ids: set<Id>, sigs: Signatures, minOverlap: real, root: map<Id, Id>) {
    root.Keys == ids &&
    forall x, y {:trigger Connected(ids, sigs, minOverlap, x, y)} ::
      x in ids && y in ids ==> (root[x] == root[y] <==> Connected(ids, sigs, minOverlap, x, y))
  }

  lemma RootsFollowChains(memories: seq<Memory>, sigs: Signatures, minOverlap: real, root: map<Id, Id>)
    requires SharedRootsConnected(IdsOf(memories), sigs, minOverlap, root)
    requires PairsLinked(memories, sigs, minOverlap, root, |memories|, 0)
    ensures RootsAreComponents(IdsOf(memories), sigs, minOverlap, root)
  {
    var ids := IdsOf(memories);
    forall x, y | x in ids && y in ids && Connected(ids, sigs, minOverlap, x, y)
      ensures root[x] == root[y]
    {
      var chain :| IsChain(ids, sigs, minOverlap, chain) && chain[0] == x && chain[|chain| - 1] == y;
      ChainSharesRoot(memories, sigs, minOverlap, root, chain);
    }
  }

  ghost function Image<X, A>(xs: set<X>, f: map<X, A>): set<A>
    requires xs <= f.Keys
  {
    set x | x in xs :: f[x]
  }

  lemma ImageWithout<X, A>(xs: set<X>, z: X, f: map<X, A>)
    requires xs <= f.Keys && z in xs
    ensures Image(xs, f) == Image(xs - {z}, f) + {f[z]}
  {
  }

  lemma AddOne<T>(s: set<T>, x: T)
    ensures |s + {x}| == |s| + if x in s then 0 else 1
  {
    assert x in s ==> s + {x} == s;
  }

  lemma LabelShared<X, A, B>(xs: set<X>, z: X, f: map<X, A>, g: map<X, B>)
    requires xs <= f.Keys && xs <= g.Keys && z in f && z in g
    requires forall x :: x in xs && f[x] == f[z] ==> g[x] == g[z]
    requires f[z] in Image(xs, f)
    ensures g[z] in Image(xs, g)
  {
    var y :| y in xs && f[y] == f[z];
    assert g[y] in Image(xs, g);
  }

  /** Two labellings that agree on which elements belong together use equally many labels. */
  lemma {:induction false} SameNumberOfLabels<X, A, B>(xs: set<X>, f: map<X, A>, g: map<X, B>)
    requires xs <= f.Keys && xs <= g.Keys
    requires forall x, y :: x in xs && y in xs ==> (f[x] == f[y] <==> g[x] == g[y])
    ensures |Image(xs, f)| == |Image(xs, g)|
  {
    if xs == {} {
      assert Image(xs, f) == {} && Image(xs, g) == {};
    } else {
      var z :| z in xs;
      var rest := xs - {z};
      SameNumberOfLabels(rest, f, g);
      ImageWithout(xs, z, f);
      ImageWithout(xs, z, g);
      if f[z] in Image(rest, f) {
        LabelShared(rest, z, f, g);
      }
      if g[z] in Image(rest, g) {
        LabelShared(rest, z, g, f);
      }
      AddOne(Image(rest, f), f[z]);
      AddOne(Image(rest, g), g[z]);
    }
  }

  lemma ComponentByRoot(ids: set<Id>, sigs: Signatures, minOverlap: real, root: map<Id, Id>, x: Id)
    requires RootsAreComponents(ids, sigs, minOverlap, root) && x in ids
    ensures ComponentOf(ids, sigs, minOverlap, x) == set z | z in ids && root[z] == root[x]
  {
    forall z | z in ids
      ensures z in ComponentOf(ids, sigs, minOverlap, x) <==> root[z] == root[x]
    {
      assert Connected(ids, sigs, minOverlap, x, z) <==> root[x] == root[z];
    }
  }

  lemma SameComponent(ids: set<Id>, sigs: Signatures, minOverlap: real, root: map<Id, Id>, x: Id, y: Id)
    requires RootsAreComponents(ids, sigs, minOverlap, root) && x in ids && y in ids
    ensures root[x] == root[y] <==> ComponentOf(ids, sigs, minOverlap, x) == ComponentOf(ids, sigs, minOverlap, y)
  {
    ComponentByRoot(ids, sigs, minOverlap, root, x);
    ComponentByRoot(ids, sigs, minOverlap, root, y);
    assert y in ComponentOf(ids, sigs, minOverlap, y);
  }

  /** As many roots as components. */
  lemma CountComponents(ids: set<Id>, sigs: Signatures, minOverlap: real, root: map<Id, Id>)
    requires RootsAreComponents(ids, sigs, minOverlap, root)
    ensures |Image(ids, root)| == |Components(ids, sigs, minOverlap)|
  {
    var component := LabelByComponent(ids, sigs, minOverlap, root);
    SameNumberOfLabels(ids, root, component);
  }

  lemma LabelByComponent(ids: set<Id>, sigs: Signatures, minOverlap: real, root: map<Id, Id>)
    returns (component: map<Id, set<Id>>)
    requires RootsAreComponents(ids, sigs, minOverlap, root)
    ensures component.Keys == ids && Components(ids, sigs, minOverlap) == Image(ids, component)
    ensures forall x, y :: x in ids && y in ids ==> (root[x] == root[y] <==> component[x] == component[y])
  {
    component := map x | x in ids :: ComponentOf(ids, sigs, minOverlap, x);
    forall x, y | x in ids && y in ids
      ensures root[x] == root[y] <==> component[x] == component[y]
    {
      SameComponent(ids, sigs, minOverlap, root, x, y);
    }
  }

  /** Tries every pair of positions once and unites the ids of similar memories. */
  method LinkSimilar(memories: seq<Memory>, sigs: Signatures, minOverlap: real) returns (forest: Forest)
    requires forall m <- memories :: m.id in sigs
    ensures fresh(forest) && forest.Valid()
    ensures RootsAreComponents(IdsOf(memories), sigs, minOverlap, forest.root)
  {
    ghost var ids := IdsOf(memories);
    forest := new Forest(memories);
    StartSeparate(ids, sigs, minOverlap, forest.root);
    for i := 0 to |memories|
      invariant forest.Valid() && SharedRootsConnected(ids, sigs, minOverlap, forest.root)
      invariant PairsLinked(memories, sigs, minOverlap, forest.root, i, 0)
    {
      for j := i + 1 to |memories|
        invariant forest.Valid() && SharedRootsConnected(ids, sigs, minOverlap, forest.root)
        invariant PairsLinked(memories, sigs, minOverlap, forest.root, i, j)
      {
        var a, b := memories[i].id, memories[j].id;
        if Similar(sigs, minOverlap, a, b) {
          ghost var before := forest.root;
          forest.Union(a, b);
          MergeKeepsConnected(ids, sigs, minOverlap, before, forest.root, a, b);
          MergeKeepsLinks(memories, sigs, minOverlap, before, forest.root, i, j);
        } else {
          NothingToLink(memories, sigs, minOverlap, forest.root, i, j);
        }
      }
      RowLinked(memories, sigs, minOverlap, forest.root, i);
    }
    RootsFollowChains(memories, sigs, minOverlap, forest.root);
  }

  lemma StartSeparate(ids: set<Id>, sigs: Signatures, minOverlap: real, root: map<Id, Id>)
    requires root.Keys == ids && forall x <- ids :: root[x] == x
    ensures SharedRootsConnected(ids, sigs, minOverlap, root)
  {
    forall x | x in ids
      ensures Connected(ids, sigs, minOverlap, x, x)
    {
      ConnectedReflexive(ids, sigs, minOverlap, x);
    }
  }

  /** The number of connected components of the similarity graph. */
  method BruteforceComponents(memories: seq<Memory>, sigs: Signatures, minOverlap: real) returns (count: nat)
    requires forall m <- memories :: m.id in sigs
    ensures count == |Components(IdsOf(memories), sigs, minOverlap)|
  {
    ghost var ids := IdsOf(memories);
    var forest := LinkSimilar(memories, sigs, minOverlap);
    ghost var root := forest.root;
    var roots: set<Id> := {};
    for k := 0 to |memories|
      invariant forest.Valid() && forest.root == root
      invariant roots == set i | 0 <= i < k :: root[memories[i].id]
    {
      var r := forest.Find(memories[k].id);
      roots := roots + {r};
    }
    assert roots == Image(ids, root);
    CountComponents(ids, sigs, minOverlap, root);
    return |roots|;
  }

  function IdsOf(memories: seq<Memory>): set<Id> {
    set m | m in memories :: m.id
  }
}
