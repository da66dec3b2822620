/**
 * Balanced-parenthesis sequences: the token string of a BPTree.
 * An open token is `true`, a close token `false`. Prefix counts
 * are taken over prefix LENGTHS, so `Depth(s, n)` is the excess after
 * the first `n` tokens and the excess cached at position `i` is
 * `Depth(s, i + 1)`.
 */
module Parens {

  /** Number of open tokens among the first `n` tokens. */
  function Rank1(s: seq<bool>, n: nat): (r: nat)
    requires n <= |s|
    ensures r <= n
  {
    if n == 0 then 0 else Rank1(s, n - 1) + (if s[n - 1] then 1 else 0)
  }

  /** Number of close tokens among the first `n` tokens. */
  function Rank0(s: seq<bool>, n: nat): nat
    requires n <= |s|
  {
    n - Rank1(s, n)
  }

  /** Excess (opens minus closes) among the first `n` tokens. */
  function Depth(s: seq<bool>, n: nat): int
    requires n <= |s|
  {
    2 * Rank1(s, n) - n
  }

  /** No prefix closes more nodes than it opened. */
  predicate PrefixNonNeg(s: seq<bool>) {
    forall n :: 0 <= n <= |s| ==> Depth(s, n) >= 0
  }

  predicate Balanced(s: seq<bool>) {
    PrefixNonNeg(s) && Depth(s, |s|) == 0
  }

  /**
   * The open token at `p` is matched by the close token at `c`: the
   * excess first falls back to its level before `p` right after `c`.
   */
  predicate Matches(s: seq<bool>, p: int, c: int) {
    && 0 <= p < c < |s|
    && s[p] && !s[c]
    && Depth(s, c + 1) == Depth(s, p)
    && forall m :: p < m <= c ==> Depth(s, m) > Depth(s, p)
  }

  /** The open token at `p` is never matched. */
  predicate Unclosed(s: seq<bool>, p: int) {
    && 0 <= p < |s| && s[p]
    && forall m :: p < m <= |s| ==> Depth(s, m) > Depth(s, p)
  }

  /** Token `i` and the token `oc[i]` are each other's partners. */
  predicate PairedAt(s: seq<bool>, oc: seq<nat>, i: int) {
    && |oc| == |s| && 0 <= i < |s|
    && oc[i] < |s| && oc[oc[i]] == i
    && (s[i] ==> Matches(s, i, oc[i]))
    && (!s[i] ==> Matches(s, oc[i], i))
  }

  /** Well-formed pairing table of a balanced sequence. */
  predicate IsOpenClose(s: seq<bool>, oc: seq<nat>) {
    |oc| == |s| && forall i :: 0 <= i < |s| ==> PairedAt(s, oc, i)
  }

  /**
   * What the stack pass leaves at position `i`: a partner, or 0 for an
   * open token that is never closed.
   */
  predicate PairedOrUnclosed(s: seq<bool>, oc: seq<nat>, i: int) {
    PairedAt(s, oc, i) || (|oc| == |s| && Unclosed(s, i) && oc[i] == 0)
  }

  lemma DepthStep(s: seq<bool>, n: nat)
    requires n < |s|
    ensures Depth(s, n + 1) == Depth(s, n) + (if s[n] then 1 else -1)
  {
  }

  /** In a balanced sequence no open token is left unmatched. */
  lemma BalancedHasNoUnclosed(s: seq<bool>, p: int)
    requires Balanced(s) && 0 <= p < |s|
    ensures !Unclosed(s, p)
  {
    assert Depth(s, p) >= 0;
  }

  /** The state of the pairing loop after the first `i` tokens. */
  ghost predicate StackInv(s: seq<bool>, i: nat, stack: seq<nat>, oc: seq<nat>) {
    && i <= |s| && |oc| == |s|
    && |stack| == Depth(s, i)
    && (forall m :: i <= m < |s| ==> oc[m] == 0)
    && (forall q :: 0 <= q < |stack| ==>
          stack[q] < i && s[stack[q]] && Depth(s, stack[q]) == q && oc[stack[q]] == 0)
    && (forall q, m :: 0 <= q < |stack| && stack[q] < m <= i ==> Depth(s, m) > q)
    && (forall m :: 0 <= m < i && m !in stack ==> Settled(s, i, stack, oc, m))
  }

  /** Token `m` was paired before position `i`, with a token off the stack. */
  ghost predicate Settled(s: seq<bool>, i: nat, stack: seq<nat>, oc: seq<nat>, m: nat) {
    && m < |oc| && oc[m] < i && oc[m] !in stack && PairedAt(s, oc, m)
  }

  lemma PushPreserves(s: seq<bool>, i: nat, stack: seq<nat>, oc: seq<nat>)
    requires StackInv(s, i, stack, oc) && i < |s| && s[i]
    ensures StackInv(s, i + 1, stack + [i], oc)
  {
    DepthStep(s, i);
    var st := stack + [i];
    forall q, m | 0 <= q < |st| && st[q] < m <= i + 1 ensures Depth(s, m) > q {
      if q == |stack| {
        assert m == i + 1;
      } else if m == i + 1 {
        assert Depth(s, i + 1) == |stack| + 1;
      }
    }
    forall m | 0 <= m < i + 1 && m !in st ensures Settled(s, i + 1, st, oc, m) {
      assert m !in stack;
      assert Settled(s, i, stack, oc, m);
    }
  }

  lemma PopPreserves(s: seq<bool>, i: nat, stack: seq<nat>, oc: seq<nat>)
    requires StackInv(s, i, stack, oc) && i < |s| && !s[i]
    requires Depth(s, i + 1) >= 0
    ensures |stack| > 0
    ensures
      var top := stack[|stack| - 1];
      StackInv(s, i + 1, stack[..|stack| - 1], oc[i := top][top := i])
  {
    DepthStep(s, i);
    var top := stack[|stack| - 1];
    var st := stack[..|stack| - 1];
    var oc' := oc[i := top][top := i];
    forall q | 0 <= q < |st| ensures st[q] != top {
      assert Depth(s, st[q]) == q < |st| == Depth(s, top) by {
        assert Depth(s, top) == |stack| - 1;
      }
    }
    assert Matches(s, top, i) by {
      forall m | top < m <= i ensures Depth(s, m) > Depth(s, top) {
        assert Depth(s, m) > |stack| - 1;
      }
    }
    forall q, m | 0 <= q < |st| && st[q] < m <= i + 1 ensures Depth(s, m) > q {
      assert stack[q] == st[q];
    }
    PopSettled(s, i, stack, oc);
  }

  /** Popping `top` against the close at `i` settles both and keeps the rest. */
  lemma PopSettled(s: seq<bool>, i: nat, stack: seq<nat>, oc: seq<nat>)
    requires |oc| == |s| && i < |s| && |stack| > 0
    requires forall m :: i <= m < |s| ==> oc[m] == 0
    requires forall q :: 0 <= q < |stack| ==> stack[q] < i
    requires forall m :: 0 <= m < i && m !in stack ==> Settled(s, i, stack, oc, m)
    requires Matches(s, stack[|stack| - 1], i)
    requires stack[|stack| - 1] !in stack[..|stack| - 1]
    ensures
      var top := stack[|stack| - 1];
      var st := stack[..|stack| - 1];
      forall m :: 0 <= m < i + 1 && m !in st ==> Settled(s, i + 1, st, oc[i := top][top := i], m)
  {
    var top := stack[|stack| - 1];
    var st := stack[..|stack| - 1];
    var oc' := oc[i := top][top := i];
    forall m | 0 <= m < i + 1 && m !in st ensures Settled(s, i + 1, st, oc', m) {
      if m != top && m != i {
        assert m !in stack;
        assert Settled(s, i, stack, oc, m);
      }
    }
  }

  /**
   * Pairs the tokens with a stack (structure_to_openclose). The
   * source pops an empty stack when some prefix has more closes than
   * opens, so callers must exclude that; an open token that is never
   * closed keeps the value-initialised 0.
   */
  method StructureToOpenclose(s: seq<bool>) returns (oc: seq<nat>)
    requires PrefixNonNeg(s)
    ensures |oc| == |s|
    ensures forall i :: 0 <= i < |s| ==> PairedOrUnclosed(s, oc, i)
  {
    oc := seq(|s|, _ => 0);
    var stack: seq<nat> := [];
    var i := 0;
    while i < |s|
      invariant StackInv(s, i, stack, oc)
    {
      if s[i] {
        PushPreserves(s, i, stack, oc);
        stack := stack + [i];
      } else {
        PopPreserves(s, i, stack, oc);
        var top := stack[|stack| - 1];
        stack := stack[..|stack| - 1];
        oc := oc[i := top][top := i];
      }
      i := i + 1;
    }
    forall p | 0 <= p < |s| ensures PairedOrUnclosed(s, oc, p) {
      if p in stack {
        var q :| 0 <= q < |stack| && stack[q] == p;
      } else {
        assert Settled(s, |s|, stack, oc, p);
      }
    }
  }

  /** With a balanced sequence the table is a full involution. */
  lemma OpencloseOfBalanced(s: seq<bool>, oc: seq<nat>)
    requires Balanced(s) && |oc| == |s|
    requires forall i :: 0 <= i < |s| ==> PairedOrUnclosed(s, oc, i)
    ensures IsOpenClose(s, oc)
  {
    forall i | 0 <= i < |s| ensures PairedAt(s, oc, i) {
      BalancedHasNoUnclosed(s, i);
      assert PairedOrUnclosed(s, oc, i);
    }
  }

  /** Rank facts used for the select tables. */
  lemma Rank1Monotone(s: seq<bool>, a: nat, b: nat)
    requires a <= b <= |s|
    ensures Rank1(s, a) <= Rank1(s, b)
    ensures Rank0(s, a) <= Rank0(s, b)
    decreases b - a
  {
    if a < b {
      Rank1Monotone(s, a, b - 1);
    }
  }

  /** Appending tokens does not change the ranks of a prefix. */
  lemma {:induction false} Rank1Prefix(a: seq<bool>, b: seq<bool>, k: nat)
    requires k <= |a|
    ensures Rank1(a + b, k) == Rank1(a, k)
  {
    if k > 0 {
      Rank1Prefix(a, b, k - 1);
      assert (a + b)[k - 1] == a[k - 1];
    }
  }

  /** Counting across a concatenation adds the counts of the parts. */
  lemma {:induction false} Rank1Concat(a: seq<bool>, b: seq<bool>, k: nat)
    requires k <= |b|
    ensures Rank1(a + b, |a| + k) == Rank1(a, |a|) + Rank1(b, k)
    ensures Depth(a + b, |a| + k) == Depth(a, |a|) + Depth(b, k)
  {
    if k == 0 {
      Rank1Prefix(a, b, |a|);
    } else {
      Rank1Concat(a, b, k - 1);
      assert (a + b)[|a| + k - 1] == b[k - 1];
    }
  }

  /** Ranks grow strictly past a token of the counted kind. */
  lemma RankStrict(s: seq<bool>, p: nat, q: nat)
    requires p < q <= |s|
    ensures s[p] ==> Rank1(s, p) < Rank1(s, q)
    ensures !s[p] ==> Rank0(s, p) < Rank0(s, q)
  {
    Rank1Monotone(s, p + 1, q);
  }

  /** A token of either kind is determined by its kind and rank. */
  lemma SelectUnique(s: seq<bool>, p: nat, p': nat)
    requires p < |s| && p' < |s| && s[p] == s[p']
    requires if s[p] then Rank1(s, p) == Rank1(s, p') else Rank0(s, p) == Rank0(s, p')
    ensures p == p'
  {
    if p < p' {
      RankStrict(s, p, p');
    } else if p' < p {
      RankStrict(s, p', p);
    }
  }

  /** `sel` lists the positions of the tokens equal to `b`, in order. */
  predicate IsSelect(s: seq<bool>, sel: seq<nat>, b: bool) {
    && (forall k :: 0 <= k < |sel| ==>
          sel[k] < |s| && s[sel[k]] == b
          && (if b then Rank1(s, sel[k]) else Rank0(s, sel[k])) == k)
    && (forall k, k' :: 0 <= k < k' < |sel| ==> sel[k] < sel[k'])
  }

  /** The excess table: entry `i` is the excess after token `i`. */
  predicate IsExcess(s: seq<bool>, e: seq<int>) {
    |e| == |s| && forall i :: 0 <= i < |s| ==> ExcessAt(s, e, i)
  }

  predicate ExcessAt(s: seq<bool>, e: seq<int>, i: int) {
    0 <= i < |s| && i < |e| && e[i] == Depth(s, i + 1)
  }

  /**
   * One pass computing the excess and both select tables
   * (index_and_cache). The select tables are sized nparens/2, so the
   * source needs as many opens as closes.
   */
  method IndexAndCache(s: seq<bool>) returns (excess: seq<int>, select0: seq<nat>, select1: seq<nat>)
    requires Balanced(s)
    ensures IsExcess(s, excess)
    ensures |select0| == |s| / 2 && |select1| == |s| / 2
    ensures IsSelect(s, select1, true) && IsSelect(s, select0, false)
  {
    excess, select0, select1 := [], [], [];
    var e := 0;
    var idx := 0;
    while idx < |s|
      invariant 0 <= idx <= |s|
      invariant e == Depth(s, idx)
      invariant ExcessUpTo(s, excess, idx)
      invariant SelectUpTo(s, select1, true, idx) && SelectUpTo(s, select0, false, idx)
    {
      SelectExtend(s, select1, true, idx);
      SelectExtend(s, select0, false, idx);
      ExcessExtend(s, excess, idx);
      if s[idx] {
        select1 := select1 + [idx];
        e := e + 1;
      } else {
        select0 := select0 + [idx];
        e := e - 1;
      }
      excess := excess + [e];
      idx := idx + 1;
    }
  }

  /** The excess table filled for the first `n` tokens. */
  predicate ExcessUpTo(s: seq<bool>, excess: seq<int>, n: nat) {
    |excess| == n && forall i :: 0 <= i < n ==> ExcessAt(s, excess, i)
  }

  /** A select table listing, in order, every `b` token among the first `n`. */
  predicate SelectUpTo(s: seq<bool>, sel: seq<nat>, b: bool, n: nat)
    requires n <= |s|
  {
    && |sel| == (if b then Rank1(s, n) else Rank0(s, n))
    && (forall k :: 0 <= k < |sel| ==>
          sel[k] < n && s[sel[k]] == b && (if b then Rank1(s, sel[k]) else Rank0(s, sel[k])) == k)
    && (forall k, k' :: 0 <= k < k' < |sel| ==> sel[k] < sel[k'])
  }

  lemma ExcessExtend(s: seq<bool>, excess: seq<int>, n: nat)
    requires n < |s| && ExcessUpTo(s, excess, n)
    ensures ExcessUpTo(s, excess + [Depth(s, n + 1)], n + 1)
  {
    var e' := excess + [Depth(s, n + 1)];
    forall i | 0 <= i < n + 1 ensures ExcessAt(s, e', i) {
      if i < n {
        assert ExcessAt(s, excess, i);
      }
    }
  }

  lemma SelectExtend(s: seq<bool>, sel: seq<nat>, b: bool, n: nat)
    requires n < |s| && SelectUpTo(s, sel, b, n)
    ensures SelectUpTo(s, if s[n] == b then sel + [n] else sel, b, n + 1)
  {
  }

  /** Every open token is listed in the open-select table at its rank. */
  lemma SelectComplete1(s: seq<bool>, sel: seq<nat>, p: nat)
    requires Balanced(s) && IsSelect(s, sel, true) && |sel| == |s| / 2
    requires p < |s| && s[p]
    ensures Rank1(s, p) < |sel| && sel[Rank1(s, p)] == p
  {
    Rank1Monotone(s, p + 1, |s|);
    var k := Rank1(s, p);
    SelectUnique(s, sel[k], p);
  }

  /** Every close token is listed in the close-select table at its rank. */
  lemma SelectComplete0(s: seq<bool>, sel: seq<nat>, c: nat)
    requires Balanced(s) && IsSelect(s, sel, false) && |sel| == |s| / 2
    requires c < |s| && !s[c]
    ensures Rank0(s, c) < |sel| && sel[Rank0(s, c)] == c
  {
    Rank1Monotone(s, c + 1, |s|);
    var k := Rank0(s, c);
    SelectUnique(s, sel[k], c);
  }
}
