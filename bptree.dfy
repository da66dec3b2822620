/**
 * The BPTree value: a balanced-parenthesis token sequence with its
 * side tables (pairing, excess, select) and per-token branch lengths
 * and names, plus the navigation primitives of src/tree.cpp.
 *
 * Node `x` is identified by the position of its open token; the
 * matching close token carries no metadata of its own.
 */
module BPTrees {
  import opened Parens

  datatype BPTree = BPTree(
    structure: seq<bool>,
    openclose: seq<nat>,
    excess: seq<int>,
    select0: seq<nat>,
    select1: seq<nat>,
    lengths: seq<real>,
    names: seq<string>)

  /** The side tables agree with the token sequence. */
  ghost predicate Valid(t: BPTree) {
    && Balanced(t.structure)
    && IsOpenClose(t.structure, t.openclose)
    && IsExcess(t.structure, t.excess)
    && |t.select0| == |t.structure| / 2 && |t.select1| == |t.structure| / 2
    && IsSelect(t.structure, t.select1, true) && IsSelect(t.structure, t.select0, false)
    && |t.lengths| == |t.structure| && |t.names| == |t.structure|
  }

  /**
   * Builds a tree from a token sequence and its metadata: the side
   * tables are derived by the stack pass and the indexing pass. Both
   * passes read or write out of bounds unless the tokens are balanced.
   */
  method Build(structure: seq<bool>, lengths: seq<real>, names: seq<string>) returns (t: BPTree)
    requires Balanced(structure)
    requires |lengths| == |structure| && |names| == |structure|
    ensures Valid(t)
    ensures t.structure == structure && t.lengths == lengths && t.names == names
  {
    var oc := StructureToOpenclose(structure);
    OpencloseOfBalanced(structure, oc);
    var excess, select0, select1 := IndexAndCache(structure);
    t := BPTree(structure, oc, excess, select0, select1, lengths, names);
  }

  /** `c` opens a child of the node opened at `p`. */
  ghost predicate IsChild(t: BPTree, p: int, c: int)
    requires Valid(t)
  {
    && 0 <= p < c < |t.structure|
    && t.structure[p] && t.structure[c]
    && c < t.openclose[p]
    && Depth(t.structure, c) == Depth(t.structure, p) + 1
  }

  /** `c` opens the sibling that directly follows the node opened at `o`. */
  ghost predicate NextSibling(s: seq<bool>, o: int, c: int) {
    && 0 <= o < c < |s|
    && s[c]
    && Depth(s, c) == Depth(s, o)
    && forall m :: o < m < c ==> Depth(s, m) > Depth(s, o)
  }

  lemma Paired(t: BPTree, i: nat)
    requires Valid(t) && i < |t.structure|
    ensures PairedAt(t.structure, t.openclose, i)
  {
  }

  lemma ExcessIs(t: BPTree, i: nat)
    requires Valid(t) && i < |t.structure|
    ensures t.excess[i] == Depth(t.structure, i + 1)
  {
    assert ExcessAt(t.structure, t.excess, i);
  }

  /** The open token of the node that position `i` belongs to. */
  function Open(t: BPTree, i: nat): (r: nat)
    requires Valid(t) && i < |t.structure|
    ensures r <= i && t.structure[r]
    ensures t.structure[i] ==> r == i
    ensures !t.structure[i] ==> Matches(t.structure, r, i)
  {
    Paired(t, i);
    if t.structure[i] then i else t.openclose[i]
  }

  /** The close token of the node that position `i` belongs to. */
  function Close(t: BPTree, i: nat): (r: nat)
    requires Valid(t) && i < |t.structure|
    ensures i <= r < |t.structure| && !t.structure[r]
    ensures !t.structure[i] ==> r == i
    ensures t.structure[i] ==> Matches(t.structure, i, r)
  {
    Paired(t, i);
    if t.structure[i] then t.openclose[i] else i
  }

  /** A leaf is an open token closed right away. */
  function IsLeaf(t: BPTree, i: nat): (r: bool)
    requires Valid(t) && i < |t.structure|
    ensures r <==> t.structure[i] && Close(t, i) == i + 1
  {
    Paired(t, i);
    if t.structure[i] then
      DepthStep(t.structure, i);
      DepthStep(t.structure, i + 1);
      !t.structure[i + 1]
    else
      false
  }

  /** The first child of an internal node; 0 stands for "none". */
  function LeftChild(t: BPTree, i: nat): (r: nat)
    requires Valid(t) && i < |t.structure|
    ensures IsLeaf(t, i) ==> r == 0
    ensures t.structure[i] && !IsLeaf(t, i) ==>
              IsChild(t, i, r) && forall c :: IsChild(t, i, c) ==> r <= c
  {
    if IsLeaf(t, i) then 0
    else
      Paired(t, i);
      DepthStep(t.structure, i);
      i + 1
  }

  /** The close token just before the close of an internal node is its last child's. */
  lemma LastChildClose(t: BPTree, i: nat)
    requires Valid(t) && i < |t.structure| && t.structure[i] && !IsLeaf(t, i)
    ensures i + 1 < Close(t, i) && !t.structure[Close(t, i) - 1]
    ensures IsChild(t, i, Open(t, Close(t, i) - 1))
    ensures forall c :: IsChild(t, i, c) ==> c <= Open(t, Close(t, i) - 1)
  {
    var s := t.structure;
    var q := Close(t, i);
    DepthStep(s, i);
    DepthStep(s, q);
    DepthStep(s, q - 1);
    assert Depth(s, q - 1) > Depth(s, i);
    var r := Open(t, q - 1);
    assert Depth(s, r) == Depth(s, i) + 1;
    var di, dr := Depth(s, i), Depth(s, r);
    assert r > i by {
      assert r < i ==> di > dr;
    }
    forall c | IsChild(t, i, c) ensures c <= r {
      var dc := Depth(s, c);
      assert r < c ==> dc > dr;
    }
  }

  /** The last child of an internal node; 0 stands for "none". */
  function RightChild(t: BPTree, i: nat): (r: nat)
    requires Valid(t) && i < |t.structure|
    ensures IsLeaf(t, i) ==> r == 0
    ensures t.structure[i] && !IsLeaf(t, i) ==>
              IsChild(t, i, r) && forall c :: IsChild(t, i, c) ==> c <= r
  {
    if IsLeaf(t, i) then 0
    else
      Paired(t, i);
      if t.structure[i] then
        LastChildClose(t, i);
        Open(t, Close(t, i) - 1)
      else
        Open(t, Close(t, i) - 1)
  }

  /** The next sibling of the node at `i`; 0 stands for "none". */
  function RightSibling(t: BPTree, i: nat): (r: nat)
    requires Valid(t) && i < |t.structure|
    ensures r != 0 ==> NextSibling(t.structure, Open(t, i), r)
    ensures r == 0 ==> forall c :: !NextSibling(t.structure, Open(t, i), c)
  {
    var position := Close(t, i) + 1;
    SiblingAfterClose(t, Open(t, i));
    if position >= |t.structure| then 0
    else if t.structure[position] then position
    else 0
  }

  /** A next sibling can only start right after the node's close token. */
  lemma SiblingAfterClose(t: BPTree, o: nat)
    requires Valid(t) && o < |t.structure| && t.structure[o]
    ensures forall c :: NextSibling(t.structure, o, c) <==>
              c == Close(t, o) + 1 < |t.structure| && t.structure[c]
  {
    var s := t.structure;
    var q := Close(t, o);
    forall c ensures NextSibling(s, o, c) <==> c == q + 1 < |s| && s[c] {
      if NextSibling(s, o, c) {
        var dc, dq, d := Depth(s, c), Depth(s, q + 1), Depth(s, o);
        assert c <= q ==> dc > d;
        assert c > q + 1 ==> dq > d;
      }
    }
  }

  /** The node visited `k`-th in preorder is the `k`-th open token. */
  function PreorderSelect(t: BPTree, k: nat): (r: nat)
    requires Valid(t) && k < |t.select1|
    ensures r < |t.structure| && t.structure[r] && Rank1(t.structure, r) == k
  {
    t.select1[k]
  }

  /** The node visited `k`-th in postorder owns the `k`-th close token. */
  function PostorderSelect(t: BPTree, k: nat): (r: nat)
    requires Valid(t) && k < |t.select0|
    ensures r < |t.structure| && t.structure[r]
    ensures Rank0(t.structure, Close(t, r)) == k
  {
    Open(t, t.select0[k])
  }

  /** Largest `j < i` with `e[j] == target`, or -1. */
  function LastBefore(e: seq<int>, i: nat, target: int): (r: int)
    requires i <= |e|
    ensures -1 <= r < i
    ensures r >= 0 ==> e[r] == target
    ensures forall j :: r < j < i ==> e[j] != target
  {
    if i == 0 then -1
    else if e[i - 1] == target then i - 1
    else LastBefore(e, i - 1, target)
  }

  /**
   * Backward search for the nearest earlier position whose excess is
   * `d` away from the excess at `i`.
   */
  method Bwd(t: BPTree, i: nat, d: int) returns (r: int)
    requires Valid(t) && i < |t.structure|
    ensures r == LastBefore(t.excess, i, t.excess[i] + d)
  {
    var target := t.excess[i] + d;
    var current := i - 1;
    while current >= 0
      invariant -1 <= current < i
      invariant LastBefore(t.excess, i, target) == LastBefore(t.excess, current + 1, target)
      decreases current
    {
      if t.excess[current] == target {
        return current;
      }
      current := current - 1;
    }
    return -1;
  }

  /** A stretch with no hit does not change the search result. */
  lemma {:induction false} LastBeforeSkip(e: seq<int>, a: nat, b: nat, target: int)
    requires a <= b <= |e|
    requires forall j :: a <= j < b ==> e[j] != target
    ensures LastBefore(e, b, target) == LastBefore(e, a, target)
    decreases b
  {
    if a < b {
      LastBeforeSkip(e, a, b - 1, target);
    }
  }

  /** The excess moves by one per token, so it cannot jump over a level. */
  lemma {:induction false} StaysAbove(s: seq<bool>, p: nat, o: nat, v: int)
    requires p <= o <= |s|
    requires Depth(s, o) > v
    requires forall m :: p < m <= o ==> Depth(s, m) != v
    ensures forall m :: p < m <= o ==> Depth(s, m) > v
    decreases o - p
  {
    if p < o {
      StaysAbove(s, p + 1, o, v);
      DepthStep(s, p + 1 - 1);
      if p + 1 < o {
        DepthStep(s, p + 1);
      }
    }
  }

  /** The parent of the node opened at `o`; 0 for a node at the top level. */
  function ParentOf(t: BPTree, o: nat): (r: nat)
    requires Valid(t) && o < |t.structure| && t.structure[o]
    ensures r < |t.structure| && t.structure[r]
    ensures Depth(t.structure, o) == 0 ==> r == 0
    ensures Depth(t.structure, o) > 0 ==> IsChild(t, r, o)
  {
    ParentOfIsParent(t, o);
    LastBefore(t.excess, o, t.excess[o] - 2) + 1
  }

  lemma ParentOfIsParent(t: BPTree, o: nat)
    requires Valid(t) && o < |t.structure| && t.structure[o]
    ensures var r := LastBefore(t.excess, o, t.excess[o] - 2) + 1;
            && (Depth(t.structure, o) == 0 ==> r == 0)
            && (Depth(t.structure, o) > 0 ==> IsChild(t, r, o))
            && r < |t.structure| && t.structure[r]
  {
    var s, e := t.structure, t.excess;
    var d := Depth(s, o);
    DepthStep(s, o);
    ExcessIs(t, o);
    assert e[o] - 2 == d - 1;
    DepthStep(s, 0);
    assert Depth(s, 1) >= 0;
    var j := LastBefore(e, o, d - 1);
    var p := j + 1;
    forall m | p < m <= o ensures Depth(s, m) != d - 1 {
      ExcessIs(t, m - 1);
    }
    if j >= 0 {
      ExcessIs(t, j);
      if d > 0 {
        ChildAtLevel(t, p, o, d);
      }
    } else if d > 0 {
      StaysAbove(s, 0, o, d - 1);
      DepthStep(s, 0);
      ChildAtLevel(t, 0, o, d);
    }
  }

  /**
   * The last earlier position at the level just above the node is
   * its parent's open token.
   */
  lemma ChildAtLevel(t: BPTree, p: nat, o: nat, d: int)
    requires Valid(t) && p <= o < |t.structure| && t.structure[o]
    requires Depth(t.structure, o) == d && Depth(t.structure, p) == d - 1
    requires forall m :: p < m <= o ==> Depth(t.structure, m) != d - 1
    ensures IsChild(t, p, o)
  {
    var s := t.structure;
    StaysAbove(s, p, o, d - 1);
    DepthStep(s, p);
    Paired(t, p);
    var q := t.openclose[p];
    var dq := Depth(s, q + 1);
    assert q + 1 <= o ==> dq > d - 1;
  }

  /** Two parents of one node coincide. */
  lemma ParentUnique(t: BPTree, p: int, p': int, c: int)
    requires Valid(t) && IsChild(t, p, c) && IsChild(t, p', c)
    ensures p == p'
  {
    Paired(t, p);
    Paired(t, p');
  }

  /**
   * From a close token the search starts one position earlier and
   * still stops at the same place as from the matching open token.
   */
  lemma EncloseFromClose(t: BPTree, i: nat)
    requires Valid(t) && i < |t.structure| && !t.structure[i]
    ensures 0 < i && t.openclose[i] < |t.structure|
    ensures var o := t.openclose[i];
            LastBefore(t.excess, i - 1, t.excess[i - 1] - 2) == LastBefore(t.excess, o, t.excess[o] - 2)
  {
    var s, e, oc := t.structure, t.excess, t.openclose;
    assert PairedAt(s, oc, i);
    var o := oc[i];
    DepthStep(s, i);
    DepthStep(s, o);
    assert ExcessAt(s, e, i - 1);
    assert ExcessAt(s, e, o);
    var target := e[o] - 2;
    forall j | o <= j < i - 1 ensures e[j] != target {
      assert ExcessAt(s, e, j);
    }
    LastBeforeSkip(e, o, i - 1, target);
  }

  /** The node enclosing position `i`: the parent of its node, or 0 at the top level. */
  method Enclose(t: BPTree, i: nat) returns (r: int)
    requires Valid(t) && i < |t.structure|
    ensures r == ParentOf(t, Open(t, i))
  {
    var o := Open(t, i);
    ghost var spec := LastBefore(t.excess, o, t.excess[o] - 2);
    assert ParentOf(t, o) == spec + 1;
    if t.structure[i] {
      var b := Bwd(t, i, -2);
      r := b + 1;
    } else {
      EncloseFromClose(t, i);
      var b := Bwd(t, i - 1, -2);
      r := b + 1;
    }
  }

  /** `parent` is `enclose`. */
  method Parent(t: BPTree, i: nat) returns (r: int)
    requires Valid(t) && i < |t.structure|
    ensures r == ParentOf(t, Open(t, i))
  {
    r := Enclose(t, i);
  }

  /** An open token is the open of its own close. */
  lemma OpenOfClose(t: BPTree, x: nat)
    requires Valid(t) && x < |t.structure| && t.structure[x]
    ensures Open(t, Close(t, x)) == x
  {
    Paired(t, x);
    Paired(t, t.openclose[x]);
  }

  /** A close token is the close of its own node. */
  lemma CloseOfOpen(t: BPTree, x: nat)
    requires Valid(t) && x < |t.structure| && !t.structure[x]
    ensures Close(t, Open(t, x)) == x
  {
    Paired(t, x);
  }

  /** The first child of an internal node reports that node as parent. */
  lemma ParentOfFirstChild(t: BPTree, o: nat)
    requires Valid(t) && o + 1 < |t.structure| && t.structure[o] && t.structure[o + 1]
    ensures ParentOf(t, o + 1) == o
  {
    DepthStep(t.structure, o);
    Paired(t, o);
    assert IsChild(t, o, o + 1);
    ParentUnique(t, o, ParentOf(t, o + 1), o + 1);
  }

  /** Position `l` lies in the span of the node opened at `y`. */
  ghost predicate Within(t: BPTree, y: int, l: int)
    requires Valid(t)
  {
    0 <= y <= l < |t.structure| && t.structure[y] && l <= Close(t, y)
  }

  /** Spans nest: a node inside `y` ends no later than `y`. */
  lemma {:induction false} WithinTrans(t: BPTree, y: int, p: int, l: int)
    requires Valid(t) && Within(t, y, p) && Within(t, p, l)
    ensures Within(t, y, l)
  {
    var s := t.structure;
    if y < p {
      var cy, cp := Close(t, y), Close(t, p);
      var dy, dp, dcy := Depth(s, y), Depth(s, p), Depth(s, cy);
      DepthStep(s, cy);
      assert dp > dy;
      assert p < cy < cp ==> dcy > dp;
      assert cp == cy ==> dp == dy;
    }
  }

  /** A proper ancestor of `c` is an ancestor-or-self of `c`'s parent. */
  lemma AncestorOfParent(t: BPTree, y: int, c: int)
    requires Valid(t) && Within(t, y, c) && y < c && t.structure[c]
    ensures Depth(t.structure, c) > 0 && Within(t, y, ParentOf(t, c))
  {
    var s := t.structure;
    var p := ParentOf(t, c);
    var dy, dc := Depth(s, y), Depth(s, c);
    assert dc > dy;
    Paired(t, p);
    var dp := Depth(s, p);
    assert p < y ==> dy > dp;
  }

  /** The parent's span holds the child's. */
  lemma ParentWithin(t: BPTree, c: int, l: int)
    requires Valid(t) && Within(t, c, l) && Depth(t.structure, c) > 0
    ensures Within(t, ParentOf(t, c), l)
  {
    var p := ParentOf(t, c);
    Paired(t, p);
    Paired(t, c);
    WithinTrans(t, p, c, l);
  }
}
