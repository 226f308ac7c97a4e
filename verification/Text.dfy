/** Sets and the similarity of token sets. */
module Text {
  /** Jaccard similarity; 0 when both sets are empty. */
  function Jaccard(a: set<string>, b: set<string>): (j: real)
    ensures 0.0 <= j <= 1.0
  {
    if a + b == {} then 0.0
    else
      IntersectionSmaller(a, b);
      Share(|a * b|, |a + b|)
  }

  function Share(part: nat, whole: nat): (q: real)
    requires part <= whole && whole > 0
    ensures 0.0 <= q <= 1.0
  {
    part as real / whole as real
  }

  lemma IntersectionSmaller(a: set<string>, b: set<string>)
    requires a + b != {}
    ensures 0 < |a + b| && |a * b| <= |a + b|
  {
    SubsetSize(a * b, a + b);
  }

  lemma {:induction false} SubsetSize<T>(a: set<T>, b: set<T>)
    requires a <= b
    ensures |a| <= |b| && (|a| == |b| ==> a == b)
  {
    if x :| x in a {
      SubsetSize(a - {x}, b - {x});
    }
  }

  lemma JaccardSymmetric(a: set<string>, b: set<string>)
    ensures Jaccard(a, b) == Jaccard(b, a)
  {
    assert a + b == b + a && a * b == b * a;
  }

  lemma UnionSize<T>(a: set<T>, b: set<T>)
    requires a !! b
    ensures |a + b| == |a| + |b|
  {
    assert (a + b) - a == b;
  }

  lemma ShareTimes(part: nat, whole: nat)
    requires part <= whole && whole > 0
    ensures Share(part, whole) * whole as real == part as real
  {
  }

  /** The similarity is the share of the common tokens in all tokens of the two sets. */
  lemma JaccardIsShare(a: set<string>, b: set<string>)
    ensures Jaccard(a, b) * |a + b| as real == |a * b| as real
    ensures a + b == {} ==> Jaccard(a, b) == 0.0
  {
    if a + b == {} {
      assert a * b == {};
    } else {
      IntersectionSmaller(a, b);
      ShareTimes(|a * b|, |a + b|);
    }
  }

  /** For sets with the common part `c` and the separate parts `x` and `y`. */
  lemma JaccardOfParts(c: set<string>, x: set<string>, y: set<string>)
    requires c !! x && c !! y && x !! y
    ensures Jaccard(c + x, c + y) * (|c| + |x| + |y|) as real == |c| as real
  {
    var a, b := c + x, c + y;
    assert a * b == c && a + b == c + x + y;
    UnionSize(c, x);
    UnionSize(c + x, y);
    JaccardIsShare(a, b);
  }

  /** Full similarity means the same tokens, of which there are some. */
  lemma JaccardIsOne(a: set<string>, b: set<string>)
    ensures Jaccard(a, b) == 1.0 <==> a == b != {}
  {
    JaccardIsShare(a, b);
    SubsetSize(a * b, a + b);
    if a == b {
      assert a * b == a == a + b;
    }
    if Jaccard(a, b) == 1.0 {
      assert a * b == a + b;
      assert a == a * b == b;
    }
  }

  /** A threshold is met iff the common tokens are enough of all. */
  lemma JaccardAtLeast(a: set<string>, b: set<string>, least: real)
    requires a + b != {}
    ensures Jaccard(a, b) >= least <==> |a * b| as real >= least * |a + b| as real
  {
    IntersectionSmaller(a, b);
    JaccardIsShare(a, b);
    Compare(Jaccard(a, b), least, |a + b| as real);
  }

  lemma Compare(p: real, q: real, w: real)
    requires w > 0.0
    ensures p >= q <==> p * w >= q * w
  {
    if p < q {
      assert (q - p) * w > 0.0;
    } else {
      assert (p - q) * w >= 0.0;
    }
  }
}
