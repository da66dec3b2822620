/**
 * The shape `collapse` leaves behind (src/tree.cpp): no node below the
 * root keeps exactly one child, each kept node hangs from its nearest
 * kept ancestor, and its new length is the length of the path it
 * replaces, so distances between kept nodes are unchanged.
 *
 * A kept position `x` of the original tree appears in the collapsed
 * tree at `Rank1(m, x)`, the number of kept positions before it.
 */
module CollapseShape {
  import opened Parens
  import opened BPTrees
  import opened Transforms

  /** The position of the `j`-th set bit among the first `n`. */
  ghost function Preimage(m: seq<bool>, n: nat, j: nat): (x: nat)
    requires n <= |m| && j < Rank1(m, n)
    ensures x < n && m[x] && Rank1(m, x) == j
  {
    if Rank1(m, n - 1) > j then Preimage(m, n - 1, j) else n - 1
  }

  /** The rank moves by at most one per position, so it takes every value in between. */
  lemma {:induction false} RankHit(m: seq<bool>, lo: nat, hi: nat, j: nat) returns (i: nat)
    requires lo <= hi <= |m| && Rank1(m, lo) <= j <= Rank1(m, hi)
    ensures lo <= i <= hi && Rank1(m, i) == j
    ensures Rank1(m, lo) < j ==> lo < i
    decreases hi
  {
    if Rank1(m, hi) == j {
      i := hi;
    } else {
      i := RankHit(m, lo, hi - 1, j);
    }
  }

  /** The kept entries of a prefix are a prefix of the kept entries. */
  lemma {:induction false} KeptPrefix<T>(xs: seq<T>, m: seq<bool>, i: nat, n: nat)
    requires i <= n <= |m| && n <= |xs|
    ensures Rank1(m, i) <= Rank1(m, n) && Kept(xs, m, n)[..Rank1(m, i)] == Kept(xs, m, i)
    decreases n
  {
    Rank1Monotone(m, i, n);
    if i < n {
      KeptPrefix(xs, m, i, n - 1);
      Rank1Monotone(m, i, n - 1);
      assert Kept(xs, m, n)[..Rank1(m, n - 1)] == Kept(xs, m, n - 1);
    }
  }

  /** The excess of the masked tokens where position `i` lands counts the kept nodes still open there. */
  lemma KeptDepthAt(t: BPTree, m: seq<bool>, i: nat)
    requires Valid(t) && PairClosed(t, m) && i <= |m|
    ensures Rank1(m, i) <= Rank1(m, |m|)
    ensures Depth(Kept(t.structure, m, |m|), Rank1(m, i)) == |Pending(t, m, i)|
  {
    var s, n := t.structure, |m|;
    KeptDepth(t, m, i);
    KeptPrefix(s, m, i, n);
    var a, R := Kept(s, m, i), Kept(s, m, n);
    assert R == a + R[|a|..];
    Rank1Prefix(a, R[|a|..], |a|);
  }

  /** A node opened inside another closes before it. */
  lemma NestedClose(t: BPTree, p: nat, x: nat)
    requires Valid(t) && p < x < |t.structure| && t.structure[p] && t.structure[x] && x < Close(t, p)
    ensures Close(t, x) < Close(t, p)
  {
    assert Within(t, p, x) && Within(t, x, Close(t, x));
    WithinTrans(t, p, x, Close(t, x));
    OpenOfClose(t, x);
    OpenOfClose(t, p);
  }

  /** A set inside another is no larger. */
  lemma SubsetCard<T>(a: set<T>, b: set<T>)
    requires a <= b
    ensures |a| <= |b|
  {
    assert b == a + (b - a);
  }

  /** Adding a new element grows a set by one. */
  lemma AddFresh<T>(a: set<T>, x: T)
    requires x !in a
    ensures |a + {x}| == |a| + 1
  {
    assert a * {x} == {};
  }

  /** Inside a kept node more kept nodes are open than at its open token. */
  lemma PendingGrow(t: BPTree, m: seq<bool>, x: nat, i: nat)
    requires Valid(t) && PairClosed(t, m) && x < |m| && t.structure[x] && m[x] && x < i <= Close(t, x)
    ensures |Pending(t, m, i)| > |Pending(t, m, x)|
  {
    var s := t.structure;
    forall p | p in Pending(t, m, x) ensures p in Pending(t, m, i) {
      Paired(t, p);
      NestedClose(t, p, x);
    }
    Paired(t, x);
    SubsetCard(Pending(t, m, x) + {x}, Pending(t, m, i));
  }

  /** Right after a kept node closes, the same kept nodes are open as at its open token. */
  lemma PendingBack(t: BPTree, m: seq<bool>, x: nat)
    requires Valid(t) && PairClosed(t, m) && x < |t.structure| && t.structure[x]
    ensures Close(t, x) < |m| && Pending(t, m, Close(t, x) + 1) == Pending(t, m, x)
  {
    var y := Close(t, x);
    forall p | p in Pending(t, m, x) ensures p in Pending(t, m, y + 1) {
      Paired(t, p);
      NestedClose(t, p, x);
    }
    forall p | p in Pending(t, m, y + 1) ensures p in Pending(t, m, x) {
      Paired(t, p);
      Paired(t, x);
      if x <= p {
        NestedClose(t, x, p);
      }
    }
  }

  /** Strictly inside a kept node, more kept nodes are open in the masked tokens than at its open token. */
  lemma DeeperAt(t: BPTree, m: seq<bool>, x: nat, i: nat, j: nat)
    requires Valid(t) && PairClosed(t, m) && x < |m| && t.structure[x] && m[x]
    requires x < i <= Close(t, x) && Rank1(m, i) == j
    ensures j <= Rank1(m, |m|) && Depth(Kept(t.structure, m, |m|), j) > |Pending(t, m, x)|
  {
    KeptDepthAt(t, m, i);
    PendingGrow(t, m, x, i);
  }

  /** The same, for every masked position strictly inside the node. */
  lemma DeeperAll(t: BPTree, m: seq<bool>, x: nat)
    requires Valid(t) && PairClosed(t, m) && x < |m| && t.structure[x] && m[x]
    ensures Rank1(m, Close(t, x)) <= Rank1(m, |m|)
    ensures forall j :: Rank1(m, x) < j <= Rank1(m, Close(t, x)) ==>
              Depth(Kept(t.structure, m, |m|), j) > |Pending(t, m, x)|
  {
    Rank1Monotone(m, Close(t, x), |m|);
    forall j | Rank1(m, x) < j <= Rank1(m, Close(t, x))
      ensures Depth(Kept(t.structure, m, |m|), j) > |Pending(t, m, x)|
    {
      var i := RankHit(m, x, Close(t, x), j);
      DeeperAt(t, m, x, i, j);
    }
  }

  /** Right after a kept node's close, the masked depth counts the kept nodes open at its open token. */
  lemma CloseDepth(t: BPTree, m: seq<bool>, x: nat)
    requires Valid(t) && PairClosed(t, m) && x < |m| && t.structure[x] && m[x]
    ensures var R := Kept(t.structure, m, |m|);
            Rank1(m, Close(t, x)) < |R| && Depth(R, Rank1(m, Close(t, x)) + 1) == |Pending(t, m, x)|
  {
    var y := Close(t, x);
    var R := Kept(t.structure, m, |m|);
    Paired(t, x);
    assert m[y];
    KeptAt(t.structure, m, |m|, y);
    DepthStep(R, Rank1(m, y));
    KeptDepthAt(t, m, y);
    PendingCount(t, m, y);
    PendingBack(t, m, x);
  }

  /** The tokens of a kept node still match each other after masking. */
  lemma MatchImage(t: BPTree, m: seq<bool>, x: nat)
    requires Valid(t) && PairClosed(t, m) && x < |m| && t.structure[x] && m[x]
    ensures var R := Kept(t.structure, m, |m|);
            Matches(R, Rank1(m, x), Rank1(m, Close(t, x)))
  {
    var s, n := t.structure, |m|;
    var R := Kept(s, m, n);
    var y := Close(t, x);
    var a, b := Rank1(m, x), Rank1(m, y);
    Paired(t, x);
    assert m[y];
    KeptAt(s, m, n, x);
    KeptAt(s, m, n, y);
    RankStrict(m, x, y);
    assert R[a] && !R[b] && a < b < |R|;
    KeptDepthAt(t, m, x);
    CloseDepth(t, m, x);
    DeeperAll(t, m, x);
  }

  /** An open token has one matching close. */
  lemma MatchUnique(s: seq<bool>, p: int, c: int, c': int)
    requires Matches(s, p, c) && Matches(s, p, c')
    ensures c == c'
  {
  }

  /** In the masked tree, a kept node's close is where its own close lands. */
  lemma CloseImage(t: BPTree, r: BPTree, x: nat)
    requires Valid(t) && Valid(r) && PairClosed(t, CollapseMaskOf(t))
    requires r.structure == Kept(t.structure, CollapseMaskOf(t), |t.structure|)
    requires x < |t.structure| && t.structure[x] && CollapseMaskOf(t)[x]
    ensures var m := CollapseMaskOf(t);
            Rank1(m, x) < |r.structure| && r.structure[Rank1(m, x)]
            && Close(r, Rank1(m, x)) == Rank1(m, Close(t, x))
  {
    var m := CollapseMaskOf(t);
    KeptAt(t.structure, m, |m|, x);
    MatchImage(t, m, x);
    MatchUnique(r.structure, Rank1(m, x), Close(r, Rank1(m, x)), Rank1(m, Close(t, x)));
  }

  /** Every node holds a node `collapse` keeps: itself, or the end of its chain of single children. */
  lemma {:induction false} KeptBelow(t: BPTree, c: nat) returns (k: nat)
    requires Valid(t) && c < |t.structure| && t.structure[c]
    ensures c <= k < Close(t, c) && t.structure[k] && CollapseMaskOf(t)[k]
    decreases Close(t, c) - c
  {
    if SingleChild(t, c) {
      k := KeptBelow(t, c + 1);
    } else {
      k := c;
    }
  }

  /** The position of the kept token at rank `j`, with its token and the ranks around it. */
  lemma Image(t: BPTree, m: seq<bool>, j: nat) returns (x: nat)
    requires Valid(t) && |m| == |t.structure| && j < Rank1(m, |m|)
    ensures x < |m| && m[x] && Rank1(m, x) == j
    ensures Kept(t.structure, m, |m|)[j] == t.structure[x]
    ensures forall k :: 0 <= k < |m| && m[k] && k != x ==> (k < x <==> Rank1(m, k) < j)
  {
    x := Preimage(m, |m|, j);
    KeptAt(t.structure, m, |m|, x);
    forall k | 0 <= k < |m| && m[k] && k != x ensures k < x <==> Rank1(m, k) < j {
      if k < x {
        RankStrict(m, k, x);
      } else {
        RankStrict(m, x, k);
      }
    }
  }

  /** A node that does not close at once opens its first child next, and that child closes first. */
  lemma FirstChild(t: BPTree, x: nat)
    requires Valid(t) && x < |t.structure| && t.structure[x] && x + 1 < Close(t, x)
    ensures t.structure[x + 1] && Close(t, x + 1) < Close(t, x)
  {
    var s := t.structure;
    DepthStep(s, x);
    DepthStep(s, x + 1);
    assert Depth(s, x + 2) > Depth(s, x);
    NestedClose(t, x, x + 1);
  }

  /** A node whose first child does not end just before it has a second child. */
  lemma SecondChild(t: BPTree, x: nat)
    requires Valid(t) && x + 1 < |t.structure| && t.structure[x] && t.structure[x + 1]
    requires Close(t, x + 1) + 1 != Close(t, x)
    ensures var c2 := Close(t, x + 1) + 1;
            c2 < Close(t, x) && t.structure[c2] && Close(t, c2) < Close(t, x)
  {
    var s := t.structure;
    NestedClose(t, x, x + 1);
    var c2 := Close(t, x + 1) + 1;
    DepthStep(s, x);
    assert Depth(s, c2) == Depth(s, x) + 1;
    DepthStep(s, c2);
    assert Depth(s, c2 + 1) > Depth(s, x);
    NestedClose(t, x, c2);
  }

  /**
   * A node below the root with two or more children holds, beside any
   * one of its descendants `d`, another node that `collapse` keeps.
   */
  lemma KeptBeside(t: BPTree, x: nat, d: nat) returns (k: nat)
    requires Valid(t) && 0 < x < d < |t.structure| && t.structure[x] && t.structure[d]
    requires d < Close(t, x) && !SingleChild(t, x)
    ensures x < k < Close(t, x) && t.structure[k] && CollapseMaskOf(t)[k]
    ensures k < d || Close(t, d) < k
  {
    FirstChild(t, x);
    var c1 := x + 1;
    var y1 := Close(t, c1);
    SecondChild(t, x);
    var c2 := y1 + 1;
    if d <= y1 {
      k := KeptBelow(t, c2);
      if c1 < d {
        NestedClose(t, c1, d);
      }
    } else {
      k := KeptBelow(t, c1);
    }
  }

  /**
   * After `collapse` no node below the root has exactly one child. The
   * root is kept whatever its number of children, so a root with a
   * single child keeps it (`SingleChild` excludes position 0).
   */
  lemma CollapseNoSingleChild(t: BPTree, r: BPTree)
    requires Valid(t) && Valid(r)
    requires r.structure == Kept(t.structure, CollapseMaskOf(t), |t.structure|)
    ensures forall q :: 0 <= q < |r.structure| ==> !SingleChild(r, q)
  {
    forall q | 0 <= q < |r.structure| ensures !SingleChild(r, q) {
      NotSingleChildAt(t, r, q);
    }
  }

  lemma NotSingleChildAt(t: BPTree, r: BPTree, q: nat)
    requires Valid(t) && Valid(r)
    requires r.structure == Kept(t.structure, CollapseMaskOf(t), |t.structure|)
    requires q < |r.structure|
    ensures !SingleChild(r, q)
  {
    if SingleChild(r, q) {
      var s, m, n := t.structure, CollapseMaskOf(t), |t.structure|;
      CollapseMaskPairClosed(t);
      var x := Image(t, m, q);
      var x' := Image(t, m, q + 1);
      var y, y' := Close(t, x), Close(t, x');
      CloseImage(t, r, x);
      CloseImage(t, r, x');
      Paired(t, x);
      Paired(t, x');
      // The kept positions inside x are exactly those from x' to y'.
      forall k | x < k < y && m[k] ensures x' <= k <= y' {
        if k < x' {
          RankStrict(m, x, k);
        } else if y' < k {
          RankStrict(m, y', k);
          RankStrict(m, k, y);
        }
      }
      if y < x' {
        RankStrict(m, y, x');
      }
      assert x < x' < y;
      assert 0 < x;
      assert !SingleChild(t, x);
      var k := KeptBeside(t, x, x');
    }
  }

  /** A dropped node's one child is the node right after its open token. */
  lemma OnlyChild(t: BPTree, p: nat, c: nat)
    requires Valid(t) && IsChild(t, p, c) && SingleChild(t, p)
    ensures c == p + 1
  {
    var s := t.structure;
    if c != p + 1 {
      Paired(t, p);
      DepthStep(s, p);
    }
  }

  /** The node after a dropped node's open token is its child, and only such a node has a dropped parent. */
  lemma DroppedParent(t: BPTree, x: nat)
    requires Valid(t) && x < |t.structure| && t.structure[x]
    ensures x > 0 && SingleChild(t, x - 1) <==> Depth(t.structure, x) > 0 && SingleChild(t, ParentOf(t, x))
    ensures x > 0 && SingleChild(t, x - 1) ==> ParentOf(t, x) == x - 1
  {
    var s := t.structure;
    if x > 0 && SingleChild(t, x - 1) {
      ParentOfFirstChild(t, x - 1);
      DepthStep(s, x - 1);
    }
    if Depth(s, x) > 0 && SingleChild(t, ParentOf(t, x)) {
      OnlyChild(t, ParentOf(t, x), x);
    }
  }

  /** The nearest ancestor of `x` that `collapse` keeps, or -1 when every ancestor is dropped. */
  ghost function NearestKept(t: BPTree, x: nat): (a: int)
    requires Valid(t) && x < |t.structure| && t.structure[x]
    ensures -1 <= a < x && (a >= 0 ==> t.structure[a] && !SingleChild(t, a))
    decreases x
  {
    if Depth(t.structure, x) == 0 then -1
    else
      var p := ParentOf(t, x);
      if SingleChild(t, p) then NearestKept(t, p) else p
  }

  /** The summed lengths of the dropped ancestors of `x` below `NearestKept(t, x)`. */
  ghost function DroppedLength(t: BPTree, x: nat): real
    requires Valid(t) && x < |t.structure| && t.structure[x]
    decreases x
  {
    if Depth(t.structure, x) == 0 then 0.0
    else
      var p := ParentOf(t, x);
      if SingleChild(t, p) then t.lengths[p] + DroppedLength(t, p) else 0.0
  }

  /**
   * The length `collapse` gives a node is the length of the path it
   * replaces: its own length plus those of the dropped nodes between
   * it and its nearest kept ancestor.
   */
  lemma {:induction false} CollapsedLengthIsPath(t: BPTree, x: nat)
    requires Valid(t) && x < |t.structure| && t.structure[x]
    ensures CollapsedLengths(t)[x] == t.lengths[x] + DroppedLength(t, x)
    decreases x
  {
    DroppedParent(t, x);
    assert CollapsedLengths(t)[x] == Acc(t, x);
    if x > 0 && SingleChild(t, x - 1) {
      CollapsedLengthIsPath(t, x - 1);
      assert CollapsedLengths(t)[x - 1] == Acc(t, x - 1);
    }
  }

  /** In the collapsed tree, a kept node carries that path length. */
  lemma CollapsedLengthAt(t: BPTree, r: BPTree, x: nat)
    requires Valid(t) && x < |t.structure| && t.structure[x] && CollapseMaskOf(t)[x]
    requires r.lengths == Kept(CollapsedLengths(t), CollapseMaskOf(t), |t.structure|)
    ensures var j := Rank1(CollapseMaskOf(t), x);
            j < |r.lengths| && r.lengths[j] == t.lengths[x] + DroppedLength(t, x)
  {
    KeptAt(CollapsedLengths(t), CollapseMaskOf(t), |t.structure|, x);
    CollapsedLengthIsPath(t, x);
  }

  /** The kept nodes open at a node's open token: those open at its parent's, and the parent when kept. */
  lemma PendingParent(t: BPTree, x: nat)
    requires Valid(t) && x < |t.structure| && t.structure[x] && Depth(t.structure, x) > 0
    ensures var m, p := CollapseMaskOf(t), ParentOf(t, x);
            && p !in Pending(t, m, p)
            && Pending(t, m, x) == Pending(t, m, p) + (if m[p] then {p} else {})
  {
    var m, p := CollapseMaskOf(t), ParentOf(t, x);
    Paired(t, p);
    forall q | q in Pending(t, m, x) ensures q in Pending(t, m, p) + (if m[p] then {p} else {}) {
      Paired(t, q);
      AncestorOfParent(t, q, x);
    }
    forall q | q in Pending(t, m, p) ensures q in Pending(t, m, x) {
      Paired(t, q);
      NestedClose(t, q, p);
    }
  }

  /** The kept nodes open at `x`'s open token are its nearest kept ancestor and the ones open above it. */
  lemma {:induction false} PendingNearest(t: BPTree, x: nat)
    requires Valid(t) && x < |t.structure| && t.structure[x]
    ensures var m, a := CollapseMaskOf(t), NearestKept(t, x);
            && (a < 0 ==> Pending(t, m, x) == {})
            && (a >= 0 ==> a !in Pending(t, m, a) && Pending(t, m, x) == Pending(t, m, a) + {a})
    decreases x
  {
    var m := CollapseMaskOf(t);
    if Depth(t.structure, x) == 0 {
      forall q | q in Pending(t, m, x) ensures false {
        Paired(t, q);
        AncestorOfParent(t, q, x);
      }
    } else {
      var p := ParentOf(t, x);
      PendingParent(t, x);
      if SingleChild(t, p) {
        PendingNearest(t, p);
      }
    }
  }

  /** Where a kept node lands, the masked depth is that of its nearest kept ancestor plus one, or zero. */
  lemma NearestDepth(t: BPTree, x: nat)
    requires Valid(t) && x < |t.structure| && t.structure[x]
    ensures var m, a := CollapseMaskOf(t), NearestKept(t, x);
            var R := Kept(t.structure, m, |m|);
            && Rank1(m, x) <= |R|
            && (a < 0 ==> Depth(R, Rank1(m, x)) == 0)
            && (a >= 0 ==> Rank1(m, a) < Rank1(m, x) && Depth(R, Rank1(m, x)) == Depth(R, Rank1(m, a)) + 1)
  {
    var m, a := CollapseMaskOf(t), NearestKept(t, x);
    CollapseMaskPairClosed(t);
    PendingNearest(t, x);
    KeptDepthAt(t, m, x);
    if a >= 0 {
      assert m[a];
      RankStrict(m, a, x);
      KeptDepthAt(t, m, a);
      AddFresh(Pending(t, m, a), a);
    }
  }

  /**
   * In the collapsed tree each kept node hangs from its nearest kept
   * ancestor, and a node with none becomes a child of the root level.
   */
  lemma CollapseParent(t: BPTree, r: BPTree, x: nat)
    requires Valid(t) && Valid(r)
    requires r.structure == Kept(t.structure, CollapseMaskOf(t), |t.structure|)
    requires x < |t.structure| && t.structure[x] && CollapseMaskOf(t)[x]
    ensures var m, a := CollapseMaskOf(t), NearestKept(t, x);
            && Rank1(m, x) < |r.structure| && r.structure[Rank1(m, x)]
            && (a < 0 ==> Depth(r.structure, Rank1(m, x)) == 0)
            && (a >= 0 ==> Depth(r.structure, Rank1(m, x)) > 0 && ParentOf(r, Rank1(m, x)) == Rank1(m, a))
  {
    var m, a := CollapseMaskOf(t), NearestKept(t, x);
    var X := Rank1(m, x);
    CollapseMaskPairClosed(t);
    NearestDepth(t, x);
    CloseImage(t, r, x);
    if a >= 0 {
      KeptInNearest(t, r, x);
      ParentUnique(r, Rank1(m, a), ParentOf(r, X), X);
    }
  }

  /** A kept node lands inside the span its nearest kept ancestor lands on. */
  lemma KeptInNearest(t: BPTree, r: BPTree, x: nat)
    requires Valid(t) && Valid(r)
    requires r.structure == Kept(t.structure, CollapseMaskOf(t), |t.structure|)
    requires x < |t.structure| && t.structure[x] && CollapseMaskOf(t)[x] && NearestKept(t, x) >= 0
    ensures var m, a := CollapseMaskOf(t), NearestKept(t, x);
            && Rank1(m, a) < Rank1(m, x) < |r.structure|
            && r.structure[Rank1(m, a)] && r.structure[Rank1(m, x)]
            && Rank1(m, x) < r.openclose[Rank1(m, a)]
  {
    var m, a := CollapseMaskOf(t), NearestKept(t, x);
    CollapseMaskPairClosed(t);
    PendingNearest(t, x);
    assert a in Pending(t, m, x);
    CloseImage(t, r, x);
    CloseImage(t, r, a);
    Paired(t, a);
    RankStrict(m, a, x);
    RankStrict(m, x, Close(t, a));
  }
}
