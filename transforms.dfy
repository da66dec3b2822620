/**
 * Pruning a BPTree through a token mask: `mask`, `shear`, `collapse`
 * and `get_tip_names` of src/tree.cpp.
 */
module Transforms {
  import opened Parens
  import opened BPTrees

  /** The entries among the first `n` of `xs` whose mask bit is set, in order. */
  function Kept<T>(xs: seq<T>, m: seq<bool>, n: nat): (r: seq<T>)
    requires n <= |m| && n <= |xs|
    ensures |r| == Rank1(m, n)
  {
    if n == 0 then []
    else Kept(xs, m, n - 1) + (if m[n - 1] then [xs[n - 1]] else [])
  }

  /** The first `k` entries of `buf` are the kept entries among the first `i` of `xs`. */
  ghost predicate Filled<T>(buf: seq<T>, k: nat, xs: seq<T>, m: seq<bool>, i: nat) {
    i <= |m| && i <= |xs| && k <= |buf| && buf[..k] == Kept(xs, m, i)
  }

  /** Writing the next kept entry at the end of the filled part extends it. */
  lemma KeptExtend<T>(buf: seq<T>, k: nat, xs: seq<T>, m: seq<bool>, i: nat)
    requires i < |m| && i < |xs| && Filled(buf, k, xs, m, i)
    requires m[i] ==> k < |buf|
    ensures !m[i] ==> Filled(buf, k, xs, m, i + 1)
    ensures m[i] ==> Filled(buf[k := xs[i]], k + 1, xs, m, i + 1)
  {
    if m[i] {
      assert buf[k := xs[i]][..k + 1] == buf[..k] + [xs[i]];
    }
  }

  /** A kept entry lands at the number of kept entries before it. */
  lemma {:induction false} KeptAt<T>(xs: seq<T>, m: seq<bool>, n: nat, i: nat)
    requires i < n <= |m| && n <= |xs| && m[i]
    ensures Rank1(m, i) < |Kept(xs, m, n)| && Kept(xs, m, n)[Rank1(m, i)] == xs[i]
  {
    if i < n - 1 {
      KeptAt(xs, m, n - 1, i);
      RankStrict(m, i, n - 1);
    }
  }

  /** With every bit set, nothing is dropped. */
  lemma {:induction false} KeptAll<T>(xs: seq<T>, m: seq<bool>, n: nat)
    requires n <= |m| && n <= |xs|
    requires forall i :: 0 <= i < n ==> m[i]
    ensures Kept(xs, m, n) == xs[..n]
  {
    if n > 0 {
      KeptAll(xs, m, n - 1);
      assert xs[..n] == xs[..n - 1] + [xs[n - 1]];
    }
  }

  /**
   * A new tree from the tokens whose mask bit is set, taking lengths
   * from `inLengths` and names from `t`: one loop counts the set bits,
   * a second copies the kept entries into buffers of that size. The
   * new tree's constructor needs a balanced token sequence.
   */
  method Mask(t: BPTree, topologyMask: seq<bool>, inLengths: seq<real>) returns (r: BPTree)
    requires Valid(t)
    requires |topologyMask| <= |t.structure| && |topologyMask| <= |inLengths|
    requires Balanced(Kept(t.structure, topologyMask, |topologyMask|))
    ensures Valid(r)
    ensures r.structure == Kept(t.structure, topologyMask, |topologyMask|)
    ensures r.lengths == Kept(inLengths, topologyMask, |topologyMask|)
    ensures r.names == Kept(t.names, topologyMask, |topologyMask|)
  {
    var count := 0;
    var i := 0;
    while i < |topologyMask|
      invariant i <= |topologyMask| && count == Rank1(topologyMask, i)
    {
      if topologyMask[i] {
        count := count + 1;
      }
      i := i + 1;
    }
    var newStructure := seq(count, _ => false);
    var newLengths := seq(count, _ => 0.0);
    var newNames := seq(count, _ => "");
    var newIdx := 0;
    var oldIdx := 0;
    while oldIdx < |topologyMask|
      invariant oldIdx <= |topologyMask|
      invariant newIdx == Rank1(topologyMask, oldIdx) <= count
      invariant |newStructure| == |newLengths| == |newNames| == count
      invariant Filled(newStructure, newIdx, t.structure, topologyMask, oldIdx)
      invariant Filled(newLengths, newIdx, inLengths, topologyMask, oldIdx)
      invariant Filled(newNames, newIdx, t.names, topologyMask, oldIdx)
    {
      Rank1Monotone(topologyMask, oldIdx + 1, |topologyMask|);
      KeptExtend(newStructure, newIdx, t.structure, topologyMask, oldIdx);
      KeptExtend(newLengths, newIdx, inLengths, topologyMask, oldIdx);
      KeptExtend(newNames, newIdx, t.names, topologyMask, oldIdx);
      if topologyMask[oldIdx] {
        newStructure := newStructure[newIdx := t.structure[oldIdx]];
        newLengths := newLengths[newIdx := inLengths[oldIdx]];
        newNames := newNames[newIdx := t.names[oldIdx]];
        newIdx := newIdx + 1;
      }
      oldIdx := oldIdx + 1;
    }
    assert newStructure == newStructure[..newIdx];
    assert newLengths == newLengths[..newIdx];
    assert newNames == newNames[..newIdx];
    r := Build(newStructure, newLengths, newNames);
  }

  /** Every token is kept exactly when its partner is. */
  ghost predicate PairClosed(t: BPTree, m: seq<bool>)
    requires Valid(t)
  {
    && |m| == |t.structure|
    && forall i :: 0 <= i < |m| && t.openclose[i] < |m| ==> m[i] == m[t.openclose[i]]
  }

  /** Kept open tokens among the first `n` whose partner is not among them. */
  ghost function Pending(t: BPTree, m: seq<bool>, n: nat): set<nat>
    requires Valid(t) && |m| == |t.structure| && n <= |m|
  {
    set p: nat | p < n && t.structure[p] && m[p] && t.openclose[p] >= n
  }

  lemma PendingStep(t: BPTree, m: seq<bool>, i: nat)
    requires Valid(t) && PairClosed(t, m) && i < |m|
    ensures m[i] && t.structure[i] ==>
              i !in Pending(t, m, i) && Pending(t, m, i + 1) == Pending(t, m, i) + {i}
    ensures m[i] && !t.structure[i] ==>
              t.openclose[i] in Pending(t, m, i) && Pending(t, m, i + 1) == Pending(t, m, i) - {t.openclose[i]}
    ensures !m[i] ==> Pending(t, m, i + 1) == Pending(t, m, i)
  {
    var s, oc := t.structure, t.openclose;
    Paired(t, i);
    forall p: nat | p < i && s[p] && m[p] && oc[p] >= i
      ensures oc[p] == i <==> !s[i] && p == oc[i]
    {
      Paired(t, p);
    }
  }

  /** How the number of pending open tokens changes at position `i`. */
  lemma PendingCount(t: BPTree, m: seq<bool>, i: nat)
    requires Valid(t) && PairClosed(t, m) && i < |m|
    ensures |Pending(t, m, i + 1)| ==
              |Pending(t, m, i)| + (if !m[i] then 0 else if t.structure[i] then 1 else -1)
    ensures m[i] && !t.structure[i] ==> |Pending(t, m, i)| >= 1
  {
    PendingStep(t, m, i);
  }

  /**
   * Appending at most one token to a prefix-non-negative sequence keeps
   * it so, unless that token closes at depth zero.
   */
  lemma DepthAppend(a: seq<bool>, b: seq<bool>)
    requires |b| <= 1 && PrefixNonNeg(a)
    requires |b| == 1 && !b[0] ==> Depth(a, |a|) >= 1
    ensures Depth(a + b, |a + b|) == Depth(a, |a|) + (if |b| == 0 then 0 else if b[0] then 1 else -1)
    ensures PrefixNonNeg(a + b)
  {
    forall j | 0 <= j <= |a| ensures Depth(a + b, j) == Depth(a, j) {
      Rank1Prefix(a, b, j);
    }
    if |b| == 1 {
      DepthStep(a + b, |a|);
    }
  }

  /**
   * The kept prefix never closes more than it opens, and its excess
   * counts the kept open tokens still waiting for their partner.
   */
  lemma {:induction false} KeptDepth(t: BPTree, m: seq<bool>, n: nat)
    requires Valid(t) && PairClosed(t, m) && n <= |m|
    ensures Depth(Kept(t.structure, m, n), |Kept(t.structure, m, n)|) == |Pending(t, m, n)|
    ensures PrefixNonNeg(Kept(t.structure, m, n))
  {
    var s := t.structure;
    if n == 0 {
      assert Pending(t, m, 0) == {};
    } else {
      var i := n - 1;
      KeptDepth(t, m, i);
      PendingCount(t, m, i);
      var k' := Kept(s, m, i);
      var ext := if m[i] then [s[i]] else [];
      assert Kept(s, m, n) == k' + ext;
      DepthAppend(k', ext);
    }
  }

  /** Masking with a pair-closed mask keeps the tokens balanced. */
  lemma MaskBalanced(t: BPTree, m: seq<bool>)
    requires Valid(t) && PairClosed(t, m)
    ensures Balanced(Kept(t.structure, m, |m|))
  {
    KeptDepth(t, m, |m|);
    forall p: nat | p < |m| ensures p !in Pending(t, m, |m|) {
      Paired(t, p);
    }
    assert Pending(t, m, |m|) == {};
  }

  /** The names carried by leaves. */
  method GetTipNames(t: BPTree) returns (observed: set<string>)
    requires Valid(t)
    ensures forall name :: name in observed <==>
              exists i :: 0 <= i < |t.structure| && IsLeaf(t, i) && t.names[i] == name
  {
    observed := {};
    for i := 0 to |t.structure|
      invariant forall name :: name in observed <==>
                  exists j :: 0 <= j < i && IsLeaf(t, j) && t.names[j] == name
    {
      if IsLeaf(t, i) {
        observed := observed + {t.names[i]};
      }
    }
  }

  /** A leaf whose name is to be kept. */
  ghost predicate KeptLeaf(t: BPTree, keep: set<string>, l: int)
    requires Valid(t)
  {
    0 <= l < |t.structure| && IsLeaf(t, l) && t.names[l] in keep
  }

  /**
   * The open token `y` is marked once the first `n` positions have been
   * scanned: it holds a kept leaf among them, or it is position 0, which
   * the parent walk reaches from every top-level node.
   */
  ghost predicate Marked(t: BPTree, keep: set<string>, n: nat, y: int)
    requires Valid(t)
  {
    exists l :: 0 <= l < n && KeptLeaf(t, keep, l) && (y == 0 || Within(t, y, l))
  }

  /** The mask `shear` builds, token by token. */
  ghost function ShearMaskOf(t: BPTree, keep: set<string>): (m: seq<bool>)
    requires Valid(t)
    ensures |m| == |t.structure|
  {
    seq(|t.structure|, i requires 0 <= i < |t.structure| =>
      Marked(t, keep, |t.structure|, Open(t, i)))
  }

  /** Both tokens of a node carry the same bit. */
  ghost predicate NodeConsistent(t: BPTree, m: seq<bool>)
    requires Valid(t)
  {
    |m| == |t.structure| && forall x {:trigger Open(t, x)} :: 0 <= x < |m| ==> m[x] == m[Open(t, x)]
  }

  /** The parent of every marked node is marked. */
  ghost predicate UpClosed(t: BPTree, m: seq<bool>)
    requires Valid(t) && |m| == |t.structure|
  {
    forall y {:trigger ParentOf(t, y)} :: 0 <= y < |m| && t.structure[y] && m[y] ==> m[ParentOf(t, y)]
  }

  lemma NodeConsistentPairClosed(t: BPTree, m: seq<bool>)
    requires Valid(t) && NodeConsistent(t, m)
    ensures PairClosed(t, m)
  {
    forall i | 0 <= i < |m| && t.openclose[i] < |m| ensures m[i] == m[t.openclose[i]] {
      Paired(t, i);
      Paired(t, t.openclose[i]);
      assert m[i] == m[Open(t, i)];
      assert m[t.openclose[i]] == m[Open(t, t.openclose[i])];
    }
  }

  lemma MarkedParent(t: BPTree, keep: set<string>, n: nat, c: int)
    requires Valid(t) && 0 <= c < |t.structure| && t.structure[c] && Marked(t, keep, n, c)
    ensures Marked(t, keep, n, ParentOf(t, c))
  {
    var l :| 0 <= l < n && KeptLeaf(t, keep, l) && (c == 0 || Within(t, c, l));
    if Depth(t.structure, c) > 0 && c != 0 {
      ParentWithin(t, c, l);
    }
  }

  /** In an up-closed mask every ancestor of a marked node is marked. */
  lemma {:induction false} ClimbMarks(t: BPTree, m: seq<bool>, y: int, l: int)
    requires Valid(t) && |m| == |t.structure| && UpClosed(t, m)
    requires Within(t, y, l) && t.structure[l] && m[l]
    ensures m[y]
    decreases l
  {
    if y < l {
      AncestorOfParent(t, y, l);
      ClimbMarks(t, m, y, ParentOf(t, l));
    }
  }

  /** An up-closed mask with a marked node marks position 0. */
  lemma {:induction false} ClimbToRoot(t: BPTree, m: seq<bool>, l: int)
    requires Valid(t) && |m| == |t.structure| && UpClosed(t, m)
    requires 0 <= l < |t.structure| && t.structure[l] && m[l]
    ensures m[0]
    decreases l
  {
    if l != 0 {
      DepthStep(t.structure, 0);
      assert Depth(t.structure, 1) >= 0;
      ClimbToRoot(t, m, ParentOf(t, l));
    }
  }

  /** The state of the scan over leaves after the first `i` positions. */
  ghost predicate ScanInv(t: BPTree, keep: set<string>, i: nat, m: seq<bool>)
    requires Valid(t)
  {
    && NodeConsistent(t, m) && UpClosed(t, m)
    && (forall y :: 0 <= y < |m| && t.structure[y] && m[y] ==> Marked(t, keep, i, y))
    && (forall l :: 0 <= l < i && KeptLeaf(t, keep, l) ==> m[l])
  }

  /**
   * The state of the parent walk from the kept leaf `i`: `c` was marked
   * last and `p` is its parent; only `c` may still lack a marked parent.
   */
  ghost predicate WalkInv(t: BPTree, keep: set<string>, i: nat, m: seq<bool>, c: int, p: int)
    requires Valid(t)
  {
    && NodeConsistent(t, m)
    && 0 <= c < |m| && t.structure[c] && m[c] && p == ParentOf(t, c)
    && (forall y {:trigger ParentOf(t, y)} :: 0 <= y < |m| && t.structure[y] && m[y] && y != c ==> m[ParentOf(t, y)])
    && (forall y :: 0 <= y < |m| && t.structure[y] && m[y] ==> Marked(t, keep, i + 1, y))
    && (forall l :: 0 <= l <= i && KeptLeaf(t, keep, l) ==> m[l])
  }

  lemma ScanStart(t: BPTree, keep: set<string>)
    requires Valid(t)
    ensures ScanInv(t, keep, 0, seq(|t.structure|, _ => false))
  {
  }

  lemma WalkStart(t: BPTree, keep: set<string>, i: nat, m: seq<bool>)
    requires Valid(t) && ScanInv(t, keep, i, m) && KeptLeaf(t, keep, i)
    ensures i + 1 < |m|
    ensures WalkInv(t, keep, i, m[i := true][i + 1 := true], i, ParentOf(t, i))
  {
    assert Open(t, i + 1) == i;
    MarkNode(t, m, i);
    WalkStartMarked(t, keep, i, m);
    WalkStartClosed(t, m, i);
    var m' := m[i := true][i + 1 := true];
    forall l | 0 <= l <= i && KeptLeaf(t, keep, l) ensures m'[l] {
      if l < i {
        assert m[l];
      }
    }
  }

  lemma WalkStartClosed(t: BPTree, m: seq<bool>, i: nat)
    requires Valid(t) && |m| == |t.structure| && UpClosed(t, m)
    requires i + 1 < |m| && Close(t, i) == i + 1
    ensures var m' := m[i := true][i + 1 := true];
            forall y {:trigger ParentOf(t, y)} :: 0 <= y < |m'| && t.structure[y] && m'[y] && y != i ==> m'[ParentOf(t, y)]
  {
    var m' := m[i := true][i + 1 := true];
    forall y | 0 <= y < |m'| && t.structure[y] && m'[y] && y != i
      ensures m'[ParentOf(t, y)]
    {
      assert m[y];
    }
  }

  lemma WalkStartMarked(t: BPTree, keep: set<string>, i: nat, m: seq<bool>)
    requires Valid(t) && |m| == |t.structure| && KeptLeaf(t, keep, i)
    requires forall y :: 0 <= y < |m| && t.structure[y] && m[y] ==> Marked(t, keep, i, y)
    ensures i + 1 < |m|
    ensures var m' := m[i := true][i + 1 := true];
            forall y :: 0 <= y < |m'| && t.structure[y] && m'[y] ==> Marked(t, keep, i + 1, y)
  {
    var m' := m[i := true][i + 1 := true];
    assert Within(t, i, i);
    forall y | 0 <= y < |m'| && t.structure[y] && m'[y] ensures Marked(t, keep, i + 1, y) {
      if y != i {
        assert Marked(t, keep, i, y);
      }
    }
  }

  /** Marking both tokens of a node keeps the mask node-consistent. */
  lemma MarkNode(t: BPTree, m: seq<bool>, p: int)
    requires Valid(t) && NodeConsistent(t, m) && 0 <= p < |m| && t.structure[p]
    ensures NodeConsistent(t, m[p := true][Close(t, p) := true])
  {
    OpenOfClose(t, p);
    var m' := m[p := true][Close(t, p) := true];
    forall x | 0 <= x < |m'| ensures m'[x] == m'[Open(t, x)] {
      assert m[x] == m[Open(t, x)];
    }
  }

  lemma WalkStep(t: BPTree, keep: set<string>, i: nat, m: seq<bool>, c: int, p: int)
    requires Valid(t) && WalkInv(t, keep, i, m, c, p) && !m[p]
    ensures var m' := m[p := true][Close(t, p) := true];
            WalkInv(t, keep, i, m', p, ParentOf(t, p))
  {
    MarkNode(t, m, p);
    WalkStepClosed(t, m, c, p);
    WalkStepMarked(t, keep, i, m, c, p);
  }

  lemma WalkStepClosed(t: BPTree, m: seq<bool>, c: int, p: int)
    requires Valid(t) && |m| == |t.structure|
    requires 0 <= c < |m| && t.structure[c] && p == ParentOf(t, c)
    requires forall y {:trigger ParentOf(t, y)} :: 0 <= y < |m| && t.structure[y] && m[y] && y != c ==> m[ParentOf(t, y)]
    ensures var m' := m[p := true][Close(t, p) := true];
            forall y {:trigger ParentOf(t, y)} :: 0 <= y < |m'| && t.structure[y] && m'[y] && y != p ==> m'[ParentOf(t, y)]
  {
    var m' := m[p := true][Close(t, p) := true];
    forall y | 0 <= y < |m'| && t.structure[y] && m'[y] && y != p
      ensures m'[ParentOf(t, y)]
    {
      assert m[y];
    }
  }

  lemma WalkStepMarked(t: BPTree, keep: set<string>, i: nat, m: seq<bool>, c: int, p: int)
    requires Valid(t) && |m| == |t.structure|
    requires 0 <= c < |m| && t.structure[c] && p == ParentOf(t, c)
    requires forall y :: 0 <= y < |m| && t.structure[y] && m[y] ==> Marked(t, keep, i + 1, y)
    requires Marked(t, keep, i + 1, c)
    ensures var m' := m[p := true][Close(t, p) := true];
            forall y :: 0 <= y < |m'| && t.structure[y] && m'[y] ==> Marked(t, keep, i + 1, y)
  {
    MarkedParent(t, keep, i + 1, c);
    var m' := m[p := true][Close(t, p) := true];
    forall y | 0 <= y < |m'| && t.structure[y] && m'[y] ensures Marked(t, keep, i + 1, y) {
      if y != p {
        assert m[y];
      }
    }
  }

  lemma WalkEnd(t: BPTree, keep: set<string>, i: nat, m: seq<bool>, c: int, p: int)
    requires Valid(t) && WalkInv(t, keep, i, m, c, p) && m[p]
    ensures ScanInv(t, keep, i + 1, m)
  {
  }

  lemma SkipLeaf(t: BPTree, keep: set<string>, i: nat, m: seq<bool>)
    requires Valid(t) && ScanInv(t, keep, i, m) && i < |m| && !KeptLeaf(t, keep, i)
    ensures ScanInv(t, keep, i + 1, m)
  {
    forall y | 0 <= y < |m| && t.structure[y] && m[y] ensures Marked(t, keep, i + 1, y) {
      assert Marked(t, keep, i, y);
    }
  }

  /** After the scan the mask is exactly the shear mask. */
  lemma ScanDone(t: BPTree, keep: set<string>, m: seq<bool>)
    requires Valid(t) && ScanInv(t, keep, |t.structure|, m)
    ensures m == ShearMaskOf(t, keep)
  {
    forall x | 0 <= x < |t.structure| ensures m[x] == ShearMaskOf(t, keep)[x] {
      ScanDoneAt(t, keep, m, x);
    }
  }

  lemma ScanDoneAt(t: BPTree, keep: set<string>, m: seq<bool>, x: nat)
    requires Valid(t) && ScanInv(t, keep, |t.structure|, m) && x < |t.structure|
    ensures m[x] == Marked(t, keep, |t.structure|, Open(t, x))
  {
    var s := t.structure;
    var y := Open(t, x);
    assert m[x] == m[y];
    if Marked(t, keep, |s|, y) {
      var l :| 0 <= l < |s| && KeptLeaf(t, keep, l) && (y == 0 || Within(t, y, l));
      if y == 0 {
        ClimbToRoot(t, m, l);
      } else {
        ClimbMarks(t, m, y, l);
      }
    }
  }

  /**
   * Marks both tokens of the kept leaf `i`, then of each ancestor in
   * turn, stopping at the first one already marked.
   */
  method MarkAncestors(t: BPTree, toKeep: set<string>, i: nat, m0: seq<bool>) returns (shearmask: seq<bool>)
    requires Valid(t) && ScanInv(t, toKeep, i, m0) && KeptLeaf(t, toKeep, i)
    ensures ScanInv(t, toKeep, i + 1, shearmask)
  {
    WalkStart(t, toKeep, i, m0);
    shearmask := m0[i := true][i + 1 := true];
    ghost var c := i;
    var p := Parent(t, i);
    while p != -1 && !shearmask[p]
      invariant WalkInv(t, toKeep, i, shearmask, c, p)
      decreases p + (if shearmask[p] then 0 else 1)
    {
      WalkStep(t, toKeep, i, shearmask, c, p);
      shearmask := shearmask[p := true][Close(t, p) := true];
      c := p;
      p := Parent(t, p);
    }
    WalkEnd(t, toKeep, i, shearmask, c, p);
  }

  /**
   * Marks both tokens of every kept leaf and of its ancestors, walking
   * up parent links until a marked node, then masks the tree.
   */
  method Shear(t: BPTree, toKeep: set<string>) returns (r: BPTree)
    requires Valid(t)
    ensures Valid(r)
    ensures r.structure == Kept(t.structure, ShearMaskOf(t, toKeep), |t.structure|)
    ensures r.lengths == Kept(t.lengths, ShearMaskOf(t, toKeep), |t.structure|)
    ensures r.names == Kept(t.names, ShearMaskOf(t, toKeep), |t.structure|)
  {
    var s := t.structure;
    var shearmask := seq(|s|, _ => false);
    ScanStart(t, toKeep);
    for i := 0 to |s|
      invariant ScanInv(t, toKeep, i, shearmask)
    {
      if IsLeaf(t, i) && t.names[i] in toKeep {
        shearmask := MarkAncestors(t, toKeep, i, shearmask);
      } else {
        SkipLeaf(t, toKeep, i, shearmask);
      }
    }
    ScanDone(t, toKeep, shearmask);
    NodeConsistentPairClosed(t, shearmask);
    MaskBalanced(t, shearmask);
    r := Mask(t, shearmask, t.lengths);
  }

  /** Every position lies in the span of some leaf's ancestor-or-self: a leaf below each node. */
  lemma {:induction false} LeafBelow(t: BPTree, y: nat)
    requires Valid(t) && y < |t.structure| && t.structure[y]
    ensures exists l :: Within(t, y, l) && IsLeaf(t, l)
    decreases Close(t, y) - y
  {
    if !IsLeaf(t, y) {
      var c := LeftChild(t, y);
      Paired(t, y);
      assert Within(t, y, c);
      assert Within(t, c, Close(t, c));
      WithinTrans(t, y, c, Close(t, c));
      LeafBelow(t, c);
      var l :| Within(t, c, l) && IsLeaf(t, l);
      WithinTrans(t, y, c, l);
    } else {
      assert Within(t, y, y);
    }
  }

  /**
   * Shearing to a set that holds every tip name keeps the whole tree;
   * in particular `shear(get_tip_names())` changes nothing.
   */
  lemma ShearAllTips(t: BPTree, keep: set<string>)
    requires Valid(t)
    requires forall l :: 0 <= l < |t.structure| && IsLeaf(t, l) ==> t.names[l] in keep
    ensures Kept(t.structure, ShearMaskOf(t, keep), |t.structure|) == t.structure
    ensures Kept(t.lengths, ShearMaskOf(t, keep), |t.structure|) == t.lengths
    ensures Kept(t.names, ShearMaskOf(t, keep), |t.structure|) == t.names
  {
    var m := ShearMaskOf(t, keep);
    forall x | 0 <= x < |t.structure| ensures m[x] {
      var y := Open(t, x);
      LeafBelow(t, y);
      var l :| Within(t, y, l) && IsLeaf(t, l);
      assert KeptLeaf(t, keep, l);
    }
    KeptAll(t.structure, m, |t.structure|);
    KeptAll(t.lengths, m, |t.structure|);
    KeptAll(t.names, m, |t.structure|);
  }

  /**
   * A node other than the root with exactly one child: the child opens
   * right after it and closes right before it. `collapse` drops it.
   */
  ghost predicate SingleChild(t: BPTree, p: int)
    requires Valid(t)
  {
    0 < p && p + 1 < |t.structure| && t.structure[p] && t.structure[p + 1]
    && Close(t, p + 1) + 1 == Close(t, p)
  }

  /** The test `collapse` makes: an internal non-root node whose first and last child coincide. */
  lemma SingleChildIff(t: BPTree, p: nat)
    requires Valid(t) && 0 < p < |t.structure| && t.structure[p]
    ensures SingleChild(t, p) <==> !IsLeaf(t, p) && LeftChild(t, p) == RightChild(t, p)
  {
    if !IsLeaf(t, p) {
      LastChildClose(t, p);
      CloseOfOpen(t, Close(t, p) - 1);
      OpenOfClose(t, p + 1);
    }
  }

  /** The mask `collapse` builds: both tokens of every node that is not dropped. */
  ghost function CollapseMaskOf(t: BPTree): (m: seq<bool>)
    requires Valid(t)
    ensures |m| == |t.structure|
  {
    seq(|t.structure|, x requires 0 <= x < |t.structure| => !SingleChild(t, Open(t, x)))
  }

  /**
   * The length at `x` after the preorder pass: its own length plus,
   * when its parent is dropped, the parent's accumulated length.
   */
  ghost function Acc(t: BPTree, x: nat): real
    requires Valid(t) && x < |t.structure|
  {
    t.lengths[x] + (if x > 0 && SingleChild(t, x - 1) then Acc(t, x - 1) else 0.0)
  }

  ghost function CollapsedLengths(t: BPTree): (l: seq<real>)
    requires Valid(t)
    ensures |l| == |t.structure|
  {
    seq(|t.structure|, x requires 0 <= x < |t.structure| => Acc(t, x))
  }

  /** After the first `i` open tokens, both tokens of each visited node that is kept are set. */
  ghost predicate CollapseMaskAt(t: BPTree, i: nat, cm: seq<bool>)
    requires Valid(t)
  {
    |cm| == |t.structure| &&
    forall x :: 0 <= x < |cm| ==>
      cm[x] == (Rank1(t.structure, Open(t, x)) < i && !SingleChild(t, Open(t, x)))
  }

  /** After the first `i` open tokens, the lengths they pass down have arrived. */
  ghost predicate CollapseLengthsAt(t: BPTree, i: nat, nl: seq<real>)
    requires Valid(t)
  {
    |nl| == |t.structure| &&
    forall x :: 0 <= x < |nl| ==>
      nl[x] == if Rank1(t.structure, x) <= i then Acc(t, x) else t.lengths[x]
  }

  /** The state of the preorder pass after the first `i` open tokens. */
  ghost predicate CollapseInv(t: BPTree, i: nat, cm: seq<bool>, nl: seq<real>)
    requires Valid(t)
  {
    CollapseMaskAt(t, i, cm) && CollapseLengthsAt(t, i, nl)
  }

  lemma CollapseStart(t: BPTree)
    requires Valid(t)
    ensures CollapseInv(t, 0, seq(|t.structure|, _ => false), t.lengths)
  {
    forall x | 0 <= x < |t.structure| && Rank1(t.structure, x) <= 0 ensures t.lengths[x] == Acc(t, x) {
      if x > 0 {
        assert !t.structure[x - 1];
      }
    }
  }

  lemma CollapseMaskStep(t: BPTree, i: nat, c: nat, cm: seq<bool>)
    requires Valid(t) && c < |t.structure| && t.structure[c] && Rank1(t.structure, c) == i
    requires CollapseMaskAt(t, i, cm)
    ensures CollapseMaskAt(t, i + 1, if SingleChild(t, c) then cm else cm[c := true][Close(t, c) := true])
  {
    var cm' := if SingleChild(t, c) then cm else cm[c := true][Close(t, c) := true];
    forall x | 0 <= x < |cm'|
      ensures cm'[x] == (Rank1(t.structure, Open(t, x)) < i + 1 && !SingleChild(t, Open(t, x)))
    {
      CollapseMaskPoint(t, i, c, cm, cm', x);
    }
  }

  lemma CollapseMaskPoint(t: BPTree, i: nat, c: nat, cm: seq<bool>, cm': seq<bool>, x: nat)
    requires Valid(t) && c < |t.structure| && t.structure[c] && Rank1(t.structure, c) == i
    requires |cm| == |t.structure| && x < |cm|
    requires cm[x] == (Rank1(t.structure, Open(t, x)) < i && !SingleChild(t, Open(t, x)))
    requires cm' == if SingleChild(t, c) then cm else cm[c := true][Close(t, c) := true]
    ensures cm'[x] == (Rank1(t.structure, Open(t, x)) < i + 1 && !SingleChild(t, Open(t, x)))
  {
    var s := t.structure;
    var y := Open(t, x);
    OpenOfClose(t, c);
    if Rank1(s, y) == i {
      SelectUnique(s, y, c);
      if !s[x] {
        CloseOfOpen(t, x);
      }
    }
  }

  lemma CollapseLengthStep(t: BPTree, i: nat, c: nat, nl: seq<real>)
    requires Valid(t) && c < |t.structure| && t.structure[c] && Rank1(t.structure, c) == i
    requires CollapseLengthsAt(t, i, nl)
    ensures SingleChild(t, c) ==> c + 1 < |t.structure|
    ensures CollapseLengthsAt(t, i + 1, if SingleChild(t, c) then nl[c + 1 := nl[c + 1] + nl[c]] else nl)
  {
    var s := t.structure;
    var nl' := if SingleChild(t, c) then nl[c + 1 := nl[c + 1] + nl[c]] else nl;
    if SingleChild(t, c) {
      assert nl[c] == Acc(t, c);
      assert Rank1(s, c + 1) == i + 1;
      assert nl[c + 1] == t.lengths[c + 1];
    }
    forall x | 0 <= x < |nl'|
      ensures nl'[x] == if Rank1(s, x) <= i + 1 then Acc(t, x) else t.lengths[x]
    {
      CollapseLengthPoint(t, i, c, nl, nl', x);
    }
  }

  lemma CollapseLengthPoint(t: BPTree, i: nat, c: nat, nl: seq<real>, nl': seq<real>, x: nat)
    requires Valid(t) && c < |t.structure| && t.structure[c] && Rank1(t.structure, c) == i
    requires |nl| == |t.structure| && x < |nl|
    requires nl[x] == if Rank1(t.structure, x) <= i then Acc(t, x) else t.lengths[x]
    requires SingleChild(t, c) ==> nl[c] == Acc(t, c) && nl[c + 1] == t.lengths[c + 1]
    requires nl' == if SingleChild(t, c) then nl[c + 1 := nl[c + 1] + nl[c]] else nl
    ensures nl'[x] == if Rank1(t.structure, x) <= i + 1 then Acc(t, x) else t.lengths[x]
  {
    var s := t.structure;
    var r := Rank1(s, x);
    if SingleChild(t, c) && x == c + 1 {
      assert Rank1(s, c + 1) == i + 1;
    } else {
      assert nl'[x] == nl[x];
      if r == i + 1 && x > 0 && SingleChild(t, x - 1) {
        assert Rank1(s, x - 1) == i;
        SelectUnique(s, x - 1, c);
        assert false;
      }
    }
  }

  /** One visit of the preorder pass. */
  lemma CollapseStep(t: BPTree, i: nat, c: nat, cm: seq<bool>, nl: seq<real>, cm': seq<bool>, nl': seq<real>)
    requires Valid(t) && c < |t.structure| && t.structure[c] && Rank1(t.structure, c) == i
    requires CollapseInv(t, i, cm, nl)
    requires SingleChild(t, c) ==> cm' == cm && c + 1 < |nl| && nl' == nl[c + 1 := nl[c + 1] + nl[c]]
    requires !SingleChild(t, c) ==> cm' == cm[c := true][Close(t, c) := true] && nl' == nl
    ensures CollapseInv(t, i + 1, cm', nl')
  {
    CollapseMaskStep(t, i, c, cm);
    CollapseLengthStep(t, i, c, nl);
  }

  lemma CollapseDone(t: BPTree, cm: seq<bool>, nl: seq<real>)
    requires Valid(t) && CollapseInv(t, |t.structure| / 2, cm, nl)
    ensures cm == CollapseMaskOf(t) && nl == CollapsedLengths(t)
  {
    var s := t.structure;
    forall x | 0 <= x < |s| ensures cm[x] == CollapseMaskOf(t)[x] && nl[x] == CollapsedLengths(t)[x] {
      var y := Open(t, x);
      RankStrict(s, y, |s|);
      Rank1Monotone(s, x, |s|);
    }
  }

  lemma CollapseMaskPairClosed(t: BPTree)
    requires Valid(t)
    ensures PairClosed(t, CollapseMaskOf(t))
  {
    var m := CollapseMaskOf(t);
    assert NodeConsistent(t, m);
    NodeConsistentPairClosed(t, m);
  }

  /**
   * Drops every internal non-root node with a single child, visiting
   * nodes in preorder and adding the dropped node's (accumulated)
   * length into its child's entry, then masks the tree.
   */
  method Collapse(t: BPTree) returns (r: BPTree)
    requires Valid(t)
    ensures Valid(r)
    ensures r.structure == Kept(t.structure, CollapseMaskOf(t), |t.structure|)
    ensures r.lengths == Kept(CollapsedLengths(t), CollapseMaskOf(t), |t.structure|)
    ensures r.names == Kept(t.names, CollapseMaskOf(t), |t.structure|)
  {
    var s := t.structure;
    var collapsemask := seq(|s|, _ => false);
    var newLengths := t.lengths;
    CollapseStart(t);
    for i := 0 to |s| / 2
      invariant CollapseInv(t, i, collapsemask, newLengths)
    {
      var current := PreorderSelect(t, i);
      ghost var cm, nl := collapsemask, newLengths;
      if current > 0 {
        SingleChildIff(t, current);
      }
      if IsLeaf(t, current) || current == 0 {
        collapsemask := collapsemask[current := true][Close(t, current) := true];
      } else {
        var first := LeftChild(t, current);
        var last := RightChild(t, current);
        if first == last {
          newLengths := newLengths[first := newLengths[first] + newLengths[current]];
        } else {
          collapsemask := collapsemask[current := true][Close(t, current) := true];
        }
      }
      CollapseStep(t, i, current, cm, nl, collapsemask, newLengths);
    }
    CollapseDone(t, collapsemask, newLengths);
    CollapseMaskPairClosed(t);
    MaskBalanced(t, collapsemask);
    r := Mask(t, collapsemask, newLengths);
  }

  /** `collapse` keeps the root and both tokens of every leaf. */
  lemma CollapseKeepsRootAndLeaves(t: BPTree)
    requires Valid(t)
    ensures |t.structure| > 0 ==> CollapseMaskOf(t)[0]
    ensures forall l :: 0 <= l < |t.structure| && IsLeaf(t, l) ==>
              l + 1 < |t.structure| && CollapseMaskOf(t)[l] && CollapseMaskOf(t)[l + 1]
  {
    forall l | 0 <= l < |t.structure| && IsLeaf(t, l)
      ensures l + 1 < |t.structure| && CollapseMaskOf(t)[l] && CollapseMaskOf(t)[l + 1]
    {
      OpenOfClose(t, l);
    }
  }

  /** The sum of the lengths at open tokens among the first `n`. */
  function OpenSum(s: seq<bool>, lengths: seq<real>, n: nat): real
    requires n <= |s| && n <= |lengths|
  {
    if n == 0 then 0.0
    else OpenSum(s, lengths, n - 1) + (if s[n - 1] then lengths[n - 1] else 0.0)
  }

  /** The same sum restricted to positions whose mask bit is set. */
  function MaskedOpenSum(s: seq<bool>, lengths: seq<real>, m: seq<bool>, n: nat): real
    requires n <= |s| && n <= |lengths| && n <= |m|
  {
    if n == 0 then 0.0
    else MaskedOpenSum(s, lengths, m, n - 1) + (if m[n - 1] && s[n - 1] then lengths[n - 1] else 0.0)
  }

  lemma {:induction false} OpenSumPrefix(a: seq<bool>, b: seq<bool>, c: seq<real>, d: seq<real>, n: nat)
    requires n <= |a| && n <= |c|
    ensures OpenSum(a + b, c + d, n) == OpenSum(a, c, n)
  {
    if n > 0 {
      OpenSumPrefix(a, b, c, d, n - 1);
    }
  }

  /** Summing over the masked tree is summing over the kept positions. */
  lemma {:induction false} KeptOpenSum(s: seq<bool>, lengths: seq<real>, m: seq<bool>, n: nat)
    requires n <= |s| && n <= |lengths| && n <= |m|
    ensures OpenSum(Kept(s, m, n), Kept(lengths, m, n), Rank1(m, n)) == MaskedOpenSum(s, lengths, m, n)
  {
    if n > 0 {
      KeptOpenSum(s, lengths, m, n - 1);
      var a, c := Kept(s, m, n - 1), Kept(lengths, m, n - 1);
      if m[n - 1] {
        OpenSumPrefix(a, [s[n - 1]], c, [lengths[n - 1]], |a|);
      } else {
        assert Kept(s, m, n) == a && Kept(lengths, m, n) == c;
      }
    }
  }

  /** Length still carried down from a dropped node just before position `n`. */
  ghost function Carry(t: BPTree, n: nat): real
    requires Valid(t) && n <= |t.structure|
  {
    if n > 0 && SingleChild(t, n - 1) then Acc(t, n - 1) else 0.0
  }

  lemma {:induction false} CollapseSumPrefix(t: BPTree, n: nat)
    requires Valid(t) && n <= |t.structure|
    ensures MaskedOpenSum(t.structure, CollapsedLengths(t), CollapseMaskOf(t), n) + Carry(t, n)
            == OpenSum(t.structure, t.lengths, n)
  {
    if n > 0 {
      CollapseSumPrefix(t, n - 1);
      var x := n - 1;
      if t.structure[x] {
        assert CollapseMaskOf(t)[x] == !SingleChild(t, x);
        assert CollapsedLengths(t)[x] == t.lengths[x] + Carry(t, x);
      } else {
        assert Carry(t, x) == 0.0 && Carry(t, n) == 0.0;
      }
    }
  }

  /**
   * `collapse` loses no branch length: the lengths at the open tokens
   * of the collapsed tree add up to those of the original.
   */
  lemma CollapseConservesLength(t: BPTree)
    requires Valid(t)
    ensures var m := CollapseMaskOf(t);
            OpenSum(Kept(t.structure, m, |t.structure|), Kept(CollapsedLengths(t), m, |t.structure|), Rank1(m, |t.structure|))
            == OpenSum(t.structure, t.lengths, |t.structure|)
  {
    CollapseSumPrefix(t, |t.structure|);
    KeptOpenSum(t.structure, CollapsedLengths(t), CollapseMaskOf(t), |t.structure|);
  }

  /** Without single-child nodes `collapse` changes nothing. */
  lemma CollapseNoop(t: BPTree)
    requires Valid(t)
    requires forall p :: !SingleChild(t, p)
    ensures Kept(t.structure, CollapseMaskOf(t), |t.structure|) == t.structure
    ensures Kept(CollapsedLengths(t), CollapseMaskOf(t), |t.structure|) == t.lengths
    ensures Kept(t.names, CollapseMaskOf(t), |t.structure|) == t.names
  {
    var m := CollapseMaskOf(t);
    KeptAll(t.structure, m, |t.structure|);
    KeptAll(CollapsedLengths(t), m, |t.structure|);
    KeptAll(t.names, m, |t.structure|);
    assert CollapsedLengths(t) == t.lengths;
  }
}
