/**
 * The weighted UniFrac stripe kernels of src/unifrac_task_impl.hpp, on
 * the CPU (transposed) layout: the proportion of sample `k` on embedded
 * branch `emb` sits at `embedded_proportions[embs_stripe * k + emb]`.
 * `TFloat` is modelled by `real`, `fabs` by `Abs`.
 *
 * Stripe `stripe` pairs sample `k` with `(k + stripe + 1) % n_samples`
 * and accumulates into slot `(stripe - start_idx) * n_samples_r + k`
 * of the flat buffers `dm_stripes_buf` (the distance numerators) and,
 * for the normalized metric, `dm_stripes_total_buf` (the totals).
 */
module Weighted {
  import opened Arith
  import opened Tiling

  function Abs(x: real): (r: real)
    ensures r >= 0.0 && (r == x || r == -x)
  {
    if x < 0.0 then -x else x
  }

  /** The read-only inputs of a weighted task. */
  datatype Embedding = Embedding(proportions: seq<real>, lengths: seq<real>,
                                 embsStripe: nat, filledEmbs: nat, nSamples: nat)

  ghost predicate Shaped(e: Embedding)
  {
    && e.filledEmbs <= e.embsStripe
    && e.filledEmbs <= |e.lengths|
    && e.nSamples * e.embsStripe <= |e.proportions|
  }

  /** The proportion of sample `k` on embedded branch `emb`. */
  function Proportion(e: Embedding, k: nat, emb: nat): real
    requires Shaped(e) && k < e.nSamples && emb < e.filledEmbs
  {
    RowIndex(k, emb, e.embsStripe, e.nSamples);
    e.proportions[k * e.embsStripe + emb]
  }

  ghost predicate NonNegative(e: Embedding)
    requires Shaped(e)
  {
    forall k, emb | 0 <= k < e.nSamples && 0 <= emb < e.filledEmbs :: Proportion(e, k, emb) >= 0.0
  }

  /** The branch-length-weighted sum of sample `k` over the first `m` branches. */
  function RowSum(e: Embedding, k: nat, m: nat): real
    requires Shaped(e) && k < e.nSamples && m <= e.filledEmbs
  {
    if m == 0 then 0.0 else RowSum(e, k, m - 1) + Proportion(e, k, m - 1) * e.lengths[m - 1]
  }

  ghost predicate ZeroUpTo(e: Embedding, k: nat, m: nat)
    requires Shaped(e) && k < e.nSamples && m <= e.filledEmbs
  {
    forall emb | 0 <= emb < m :: Proportion(e, k, emb) == 0.0
  }

  /** Sample `k` has no weight on any filled branch. */
  ghost predicate ZeroRow(e: Embedding, k: nat)
    requires Shaped(e) && k < e.nSamples
  {
    ZeroUpTo(e, k, e.filledEmbs)
  }

  /** The brute-force weighted distance term: the sum of `|u - v| * length`. */
  function DiffSum(e: Embedding, k: nat, l: nat, m: nat): real
    requires Shaped(e) && k < e.nSamples && l < e.nSamples && m <= e.filledEmbs
  {
    if m == 0 then 0.0
    else DiffSum(e, k, l, m - 1) + Abs(Proportion(e, k, m - 1) - Proportion(e, l, m - 1)) * e.lengths[m - 1]
  }

  /** The brute-force total term: the sum of `(u + v) * length`. */
  function PairSum(e: Embedding, k: nat, l: nat, m: nat): real
    requires Shaped(e) && k < e.nSamples && l < e.nSamples && m <= e.filledEmbs
  {
    if m == 0 then 0.0
    else PairSum(e, k, l, m - 1) + (Proportion(e, k, m - 1) + Proportion(e, l, m - 1)) * e.lengths[m - 1]
  }

  /** A sample with no weight has a zero sum. */
  lemma {:induction false} ZeroRowSum(e: Embedding, k: nat, m: nat)
    requires Shaped(e) && k < e.nSamples && m <= e.filledEmbs && ZeroUpTo(e, k, m)
    ensures RowSum(e, k, m) == 0.0
  {
    if m > 0 {
      ZeroRowSum(e, k, m - 1);
    }
  }

  /** Against a sample with no weight, the distance term is the other sample's sum. */
  lemma {:induction false} DiffSumAgainstZero(e: Embedding, k: nat, l: nat, m: nat)
    requires Shaped(e) && k < e.nSamples && l < e.nSamples && m <= e.filledEmbs
    requires NonNegative(e) && ZeroUpTo(e, k, m)
    ensures DiffSum(e, k, l, m) == RowSum(e, l, m) && DiffSum(e, l, k, m) == RowSum(e, l, m)
  {
    if m > 0 {
      DiffSumAgainstZero(e, k, l, m - 1);
      assert Proportion(e, l, m - 1) >= 0.0;
    }
  }

  /** The total term splits into the two samples' sums. */
  lemma {:induction false} PairSumSplits(e: Embedding, k: nat, l: nat, m: nat)
    requires Shaped(e) && k < e.nSamples && l < e.nSamples && m <= e.filledEmbs
    ensures PairSum(e, k, l, m) == RowSum(e, k, m) + RowSum(e, l, m)
  {
    if m > 0 {
      PairSumSplits(e, k, l, m - 1);
    }
  }

  /** The distance term does not depend on the order of the pair. */
  lemma {:induction false} DiffSumSymmetric(e: Embedding, k: nat, l: nat, m: nat)
    requires Shaped(e) && k < e.nSamples && l < e.nSamples && m <= e.filledEmbs
    ensures DiffSum(e, k, l, m) == DiffSum(e, l, k, m)
  {
    if m > 0 {
      DiffSumSymmetric(e, k, l, m - 1);
    }
  }

  /** The distance term of one pair, as the explicit loop of `WeightedVal1` sums it. */
  method WeightedVal1(e: Embedding, k: nat, l: nat) returns (r: real)
    requires Shaped(e) && k < e.nSamples && l < e.nSamples
    ensures r == DiffSum(e, k, l, e.filledEmbs)
  {
    var offsetK := k * e.embsStripe;
    var offsetL := l * e.embsStripe;
    r := 0.0;
    var emb := 0;
    while emb < e.filledEmbs
      invariant emb <= e.filledEmbs && r == DiffSum(e, k, l, emb)
    {
      RowIndex(k, emb, e.embsStripe, e.nSamples);
      RowIndex(l, emb, e.embsStripe, e.nSamples);
      var u := e.proportions[offsetK + emb];
      var v := e.proportions[offsetL + emb];
      r := r + Abs(u - v) * e.lengths[emb];
      emb := emb + 1;
    }
  }

  /** `zcheck` and `sums` as `WeightedZerosAndSums` leaves them, for the samples below `n`. */
  ghost predicate ComputedUpTo(e: Embedding, zcheck: seq<bool>, sums: seq<real>, n: nat)
    requires Shaped(e) && n <= e.nSamples
  {
    && n <= |zcheck| && n <= |sums|
    && forall k | 0 <= k < n :: (zcheck[k] <==> ZeroRow(e, k)) && sums[k] == RowSum(e, k, e.filledEmbs)
  }

  ghost predicate Computed(e: Embedding, zcheck: seq<bool>, sums: seq<real>)
    requires Shaped(e)
  {
    e.nSamples <= |zcheck| && e.nSamples <= |sums| && ComputedUpTo(e, zcheck, sums, e.nSamples)
  }

  /** What the kernels rely on: a sample flagged all-zero has a zero sum. */
  ghost predicate Consistent(e: Embedding, zcheck: seq<bool>, sums: seq<real>)
  {
    && e.nSamples <= |zcheck| && e.nSamples <= |sums|
    && forall k | 0 <= k < e.nSamples :: zcheck[k] ==> sums[k] == 0.0
  }

  lemma ComputedConsistent(e: Embedding, zcheck: seq<bool>, sums: seq<real>)
    requires Shaped(e) && Computed(e, zcheck, sums)
    ensures Consistent(e, zcheck, sums)
  {
    forall k | 0 <= k < e.nSamples && zcheck[k]
      ensures sums[k] == 0.0
    {
      ZeroRowSum(e, k, e.filledEmbs);
    }
  }

  /** Flags every sample with no weight and stores every sample's weighted sum. */
  method WeightedZerosAndSums(zcheck: array<bool>, sums: array<real>, e: Embedding)
    requires Shaped(e) && e.nSamples <= zcheck.Length && e.nSamples <= sums.Length
    modifies zcheck, sums
    ensures Computed(e, zcheck[..], sums[..])
    ensures forall k | e.nSamples <= k < zcheck.Length :: zcheck[k] == old(zcheck[k])
    ensures forall k | e.nSamples <= k < sums.Length :: sums[k] == old(sums[k])
  {
    for k := 0 to e.nSamples
      invariant ComputedUpTo(e, zcheck[..], sums[..], k)
      invariant forall k' | k <= k' < zcheck.Length :: zcheck[k'] == old(zcheck[k'])
      invariant forall k' | k <= k' < sums.Length :: sums[k'] == old(sums[k'])
    {
      ghost var zs, ss := zcheck[..], sums[..];
      var allZeros := true;
      var offset := e.embsStripe * k;
      var mySum := 0.0;
      for emb := 0 to e.filledEmbs
        invariant mySum == RowSum(e, k, emb) && (allZeros <==> ZeroUpTo(e, k, emb))
        invariant zcheck[..] == zs && sums[..] == ss
      {
        RowIndex(k, emb, e.embsStripe, e.nSamples);
        var u1 := e.proportions[offset + emb];
        mySum := mySum + u1 * e.lengths[emb];
        allZeros := allZeros && u1 == 0.0;
      }
      sums[k] := mySum;
      zcheck[k] := allZeros;
      ComputedStep(e, zs, ss, zcheck[..], sums[..], k);
    }
  }

  lemma ComputedStep(e: Embedding, zs: seq<bool>, ss: seq<real>, zs': seq<bool>, ss': seq<real>, k: nat)
    requires Shaped(e) && k < e.nSamples && k < |zs| && k < |ss| && |zs'| == |zs| && |ss'| == |ss|
    requires ComputedUpTo(e, zs, ss, k)
    requires zs' == zs[k := zs'[k]] && ss' == ss[k := ss'[k]]
    requires (zs'[k] <==> ZeroRow(e, k)) && ss'[k] == RowSum(e, k, e.filledEmbs)
    ensures ComputedUpTo(e, zs', ss', k + 1)
  {
  }

  /**
   * What one single-pair step adds to slot `k` of a buffer, pairing `k`
   * with `l`: nothing when both samples are all-zero; against an all-zero
   * sample the other's precomputed sum; otherwise the explicit distance
   * term. A total step adds both sums.
   */
  function Delta(b: Buffer, e: Embedding, zcheck: seq<bool>, sums: seq<real>, k: nat, l: nat): real
    requires Shaped(e) && e.nSamples <= |zcheck| && e.nSamples <= |sums| && k < e.nSamples && l < e.nSamples
  {
    if zcheck[k] && zcheck[l] then 0.0
    else if b == Totals then sums[k] + sums[l]
    else if zcheck[k] then sums[l]
    else if zcheck[l] then sums[k]
    else DiffSum(e, k, l, e.filledEmbs)
  }

  /** The zero-skipping shortcut computes the brute-force distance term when no proportion is negative. */
  lemma ShortcutIsBruteForce(e: Embedding, zcheck: seq<bool>, sums: seq<real>, k: nat, l: nat)
    requires Shaped(e) && Computed(e, zcheck, sums) && NonNegative(e)
    requires k < e.nSamples && l < e.nSamples
    ensures Delta(Stripes, e, zcheck, sums, k, l) == DiffSum(e, k, l, e.filledEmbs)
  {
    if zcheck[k] {
      DiffSumAgainstZero(e, k, l, e.filledEmbs);
      if zcheck[l] {
        ZeroRowSum(e, l, e.filledEmbs);
      }
    } else if zcheck[l] {
      DiffSumAgainstZero(e, l, k, e.filledEmbs);
    }
  }

  /** The total step always adds the brute-force total term, with or without negative proportions. */
  lemma TotalIsBruteForce(e: Embedding, zcheck: seq<bool>, sums: seq<real>, k: nat, l: nat)
    requires Shaped(e) && Computed(e, zcheck, sums)
    requires k < e.nSamples && l < e.nSamples
    ensures Delta(Totals, e, zcheck, sums, k, l) == PairSum(e, k, l, e.filledEmbs)
  {
    PairSumSplits(e, k, l, e.filledEmbs);
    if zcheck[k] && zcheck[l] {
      ZeroRowSum(e, k, e.filledEmbs);
      ZeroRowSum(e, l, e.filledEmbs);
    }
  }

  /** Divides every numerator by its total. */
  method ComputeStripesTotals(buf: array<real>, total: array<real>, bufels: nat)
    requires bufels <= buf.Length && bufels <= total.Length && buf != total
    requires forall i | 0 <= i < bufels :: total[i] != 0.0
    modifies buf
    ensures forall i | 0 <= i < bufels :: buf[i] == old(buf[i]) / total[i]
    ensures forall i | bufels <= i < buf.Length :: buf[i] == old(buf[i])
  {
    for idx := 0 to bufels
      invariant forall i | 0 <= i < idx :: buf[i] == old(buf[i]) / total[i]
      invariant forall i | idx <= i < buf.Length :: buf[i] == old(buf[i])
    {
      buf[idx] := buf[idx] / total[idx];
    }
  }

  /** One step on the pair `(k, l)`, writing only slot `idx + k` of the numerators. */
  method UnnormalizedWeighted1(buf: array<real>, zcheck: seq<bool>, sums: seq<real>, e: Embedding,
                               idx: nat, k: nat, l: nat)
    requires Shaped(e) && e.nSamples <= |zcheck| && e.nSamples <= |sums|
    requires k < e.nSamples && l < e.nSamples && idx + k < buf.Length
    modifies buf
    ensures buf[..] == old(buf[..])[idx + k := old(buf[idx + k]) + Delta(Stripes, e, zcheck, sums, k, l)]
  {
    var allzeroK := zcheck[k];
    var allzeroL := zcheck[l];
    if allzeroK && allzeroL {
      assert buf[..] == old(buf[..])[idx + k := old(buf[idx + k]) + 0.0];
    } else {
      var myStripe;
      if allzeroK || allzeroL {
        var ridx := if allzeroK then l else k;
        myStripe := sums[ridx];
      } else {
        myStripe := WeightedVal1(e, k, l);
      }
      buf[idx + k] := buf[idx + k] + myStripe;
    }
  }

  /** One step on the pair `(k, l)`, writing slot `idx + k` of both buffers. */
  method NormalizedWeighted1(buf: array<real>, total: array<real>, zcheck: seq<bool>, sums: seq<real>,
                             e: Embedding, idx: nat, k: nat, l: nat)
    requires Shaped(e) && e.nSamples <= |zcheck| && e.nSamples <= |sums| && buf != total
    requires k < e.nSamples && l < e.nSamples && idx + k < buf.Length && idx + k < total.Length
    modifies buf, total
    ensures buf[..] == old(buf[..])[idx + k := old(buf[idx + k]) + Delta(Stripes, e, zcheck, sums, k, l)]
    ensures total[..] == old(total[..])[idx + k := old(total[idx + k]) + Delta(Totals, e, zcheck, sums, k, l)]
  {
    var allzeroK := zcheck[k];
    var allzeroL := zcheck[l];
    if allzeroK && allzeroL {
      assert buf[..] == old(buf[..])[idx + k := old(buf[idx + k]) + 0.0];
      assert total[..] == old(total[..])[idx + k := old(total[idx + k]) + 0.0];
    } else {
      var sumK := sums[k];
      var sumL := sums[l];
      total[idx + k] := total[idx + k] + (sumK + sumL);
      var myStripe;
      if allzeroK || allzeroL {
        myStripe := if allzeroK then sumL else sumK;
      } else {
        myStripe := WeightedVal1(e, k, l);
      }
      buf[idx + k] := buf[idx + k] + myStripe;
    }
  }

  /** `w` single steps in a row, on the pairs `(ks + i, ls + i)` for `i < w`. */
  ghost function Repeat(b: Buffer, e: Embedding, zcheck: seq<bool>, sums: seq<real>,
                        cur: seq<real>, idx: nat, ks: nat, ls: nat, w: nat): (r: seq<real>)
    requires Shaped(e) && e.nSamples <= |zcheck| && e.nSamples <= |sums|
    requires ks + w <= e.nSamples && ls + w <= e.nSamples && idx + ks + w <= |cur|
    ensures |r| == |cur|
    decreases w
  {
    if w == 0 then cur
    else
      var next := cur[idx + ks := cur[idx + ks] + Delta(b, e, zcheck, sums, ks, ls)];
      Repeat(b, e, zcheck, sums, next, idx, ks + 1, ls + 1, w - 1)
  }

  /** `cur` is `orig` with slot `idx + ks + i` raised by the step on `(ks + i, ls + i)`, for `i < w`. */
  ghost predicate Added(b: Buffer, e: Embedding, zcheck: seq<bool>, sums: seq<real>,
                        cur: seq<real>, orig: seq<real>, idx: nat, ks: nat, ls: nat, w: nat)
    requires Shaped(e) && e.nSamples <= |zcheck| && e.nSamples <= |sums|
    requires ks + w <= e.nSamples && ls + w <= e.nSamples
  {
    && |cur| == |orig|
    && forall j | 0 <= j < |cur| :: cur[j] == orig[j] + Raise(b, e, zcheck, sums, idx, ks, ls, w, j)
  }

  /** How much the steps on `(ks + i, ls + i)`, `i < w`, raise buffer position `j`. */
  function Raise(b: Buffer, e: Embedding, zcheck: seq<bool>, sums: seq<real>,
                 idx: nat, ks: nat, ls: nat, w: nat, j: int): real
    requires Shaped(e) && e.nSamples <= |zcheck| && e.nSamples <= |sums|
    requires ks + w <= e.nSamples && ls + w <= e.nSamples
  {
    if idx + ks <= j < idx + ks + w then Delta(b, e, zcheck, sums, j - idx, ls + (j - idx - ks)) else 0.0
  }

  /** Repeated single steps raise each of the `w` slots once. */
  lemma {:induction false} RepeatAdds(b: Buffer, e: Embedding, zcheck: seq<bool>, sums: seq<real>,
                                      cur: seq<real>, idx: nat, ks: nat, ls: nat, w: nat)
    requires Shaped(e) && e.nSamples <= |zcheck| && e.nSamples <= |sums|
    requires ks + w <= e.nSamples && ls + w <= e.nSamples && idx + ks + w <= |cur|
    ensures Added(b, e, zcheck, sums, Repeat(b, e, zcheck, sums, cur, idx, ks, ls, w), cur, idx, ks, ls, w)
    decreases w
  {
    if w > 0 {
      var next := cur[idx + ks := cur[idx + ks] + Delta(b, e, zcheck, sums, ks, ls)];
      RepeatAdds(b, e, zcheck, sums, next, idx, ks + 1, ls + 1, w - 1);
    }
  }

  /** A buffer raised slot by slot as the single steps would raise it is their result. */
  lemma AddedIsRepeat(b: Buffer, e: Embedding, zcheck: seq<bool>, sums: seq<real>,
                      cur: seq<real>, orig: seq<real>, idx: nat, ks: nat, ls: nat, w: nat)
    requires Shaped(e) && e.nSamples <= |zcheck| && e.nSamples <= |sums|
    requires ks + w <= e.nSamples && ls + w <= e.nSamples && idx + ks + w <= |orig|
    requires Added(b, e, zcheck, sums, cur, orig, idx, ks, ls, w)
    ensures cur == Repeat(b, e, zcheck, sums, orig, idx, ks, ls, w)
  {
    var r := Repeat(b, e, zcheck, sums, orig, idx, ks, ls, w);
    RepeatAdds(b, e, zcheck, sums, orig, idx, ks, ls, w);
    assert forall j | 0 <= j < |cur| :: cur[j] == r[j];
  }

  /** A run of `w` steps followed by a run of `w'` is one run of `w + w'`. */
  lemma {:induction false} RepeatSplit(b: Buffer, e: Embedding, zcheck: seq<bool>, sums: seq<real>,
                                       cur: seq<real>, idx: nat, ks: nat, ls: nat, w: nat, w': nat)
    requires Shaped(e) && e.nSamples <= |zcheck| && e.nSamples <= |sums|
    requires ks + w + w' <= e.nSamples && ls + w + w' <= e.nSamples && idx + ks + w + w' <= |cur|
    ensures Repeat(b, e, zcheck, sums, Repeat(b, e, zcheck, sums, cur, idx, ks, ls, w), idx, ks + w, ls + w, w')
            == Repeat(b, e, zcheck, sums, cur, idx, ks, ls, w + w')
    decreases w
  {
    if w > 0 {
      var next := cur[idx + ks := cur[idx + ks] + Delta(b, e, zcheck, sums, ks, ls)];
      RepeatSplit(b, e, zcheck, sums, next, idx, ks + 1, ls + 1, w - 1, w');
    }
  }

  /** One more single step extends a run of them. */
  lemma RepeatStep(b: Buffer, e: Embedding, zcheck: seq<bool>, sums: seq<real>,
                   orig: seq<real>, idx: nat, ks: nat, ls: nat, i: nat)
    requires Shaped(e) && e.nSamples <= |zcheck| && e.nSamples <= |sums|
    requires ks + i < e.nSamples && ls + i < e.nSamples && idx + ks + i < |orig|
    ensures var cur := Repeat(b, e, zcheck, sums, orig, idx, ks, ls, i);
            Repeat(b, e, zcheck, sums, orig, idx, ks, ls, i + 1)
            == cur[idx + ks + i := cur[idx + ks + i] + Delta(b, e, zcheck, sums, ks + i, ls + i)]
  {
    RepeatSplit(b, e, zcheck, sums, orig, idx, ks, ls, i, 1);
  }

  /** A run of one step is the single-pair kernel's update of slot `idx + ks`. */
  lemma RepeatOne(b: Buffer, e: Embedding, zcheck: seq<bool>, sums: seq<real>,
                  orig: seq<real>, idx: nat, ks: nat, ls: nat)
    requires Shaped(e) && e.nSamples <= |zcheck| && e.nSamples <= |sums|
    requires ks < e.nSamples && ls < e.nSamples && idx + ks < |orig|
    ensures Repeat(b, e, zcheck, sums, orig, idx, ks, ls, 1)
            == orig[idx + ks := orig[idx + ks] + Delta(b, e, zcheck, sums, ks, ls)]
  {
    RepeatStep(b, e, zcheck, sums, orig, idx, ks, ls, 0);
  }

  /** The `w` flags from `from` on are all set: the grouped kernels read them as one word. */
  function AllFlagged(zcheck: seq<bool>, from: nat, w: nat): (r: bool)
    requires from + w <= |zcheck|
    ensures r <==> forall i | from <= i < from + w :: zcheck[i]
    decreases w
  {
    if w == 0 then true else zcheck[from] && AllFlagged(zcheck, from + 1, w - 1)
  }

  /** With every sample on both sides all-zero, the single steps add nothing. */
  lemma NothingAdded(b: Buffer, e: Embedding, zcheck: seq<bool>, sums: seq<real>, cur: seq<real>,
                     idx: nat, ks: nat, ls: nat, w: nat)
    requires Shaped(e) && Consistent(e, zcheck, sums)
    requires ks + w <= e.nSamples && ls + w <= e.nSamples && idx + ks + w <= |cur|
    requires AllFlagged(zcheck, ks, w) && AllFlagged(zcheck, ls, w)
    ensures Repeat(b, e, zcheck, sums, cur, idx, ks, ls, w) == cur
  {
    forall j | 0 <= j < |cur|
      ensures Raise(b, e, zcheck, sums, idx, ks, ls, w, j) == 0.0
    {
      if idx + ks <= j < idx + ks + w {
        assert zcheck[j - idx] && zcheck[ls + (j - idx - ks)];
      }
    }
    AddedIsRepeat(b, e, zcheck, sums, cur, cur, idx, ks, ls, w);
  }

  /** `cur` is `orig` with slot `at + i` raised by `sums[from + i]`, for `i < w`. */
  ghost predicate Raised(cur: seq<real>, orig: seq<real>, sums: seq<real>, at: nat, from: nat, w: nat)
    requires from + w <= |sums|
  {
    && |cur| == |orig|
    && forall j | 0 <= j < |cur| :: cur[j] == orig[j] + (if at <= j < at + w then sums[from + (j - at)] else 0.0)
  }

  /**
   * With every sample on one side all-zero, each single step adds the
   * other side's sum: the grouped shortcut agrees with the single steps.
   */
  lemma ShortcutAdded(e: Embedding, zcheck: seq<bool>, sums: seq<real>, cur: seq<real>, orig: seq<real>,
                      idx: nat, ks: nat, ls: nat, w: nat, from: nat)
    requires Shaped(e) && Consistent(e, zcheck, sums)
    requires ks + w <= e.nSamples && ls + w <= e.nSamples && idx + ks + w <= |orig|
    requires (AllFlagged(zcheck, ks, w) && from == ls) || (AllFlagged(zcheck, ls, w) && from == ks)
    requires Raised(cur, orig, sums, idx + ks, from, w)
    ensures cur == Repeat(Stripes, e, zcheck, sums, orig, idx, ks, ls, w)
  {
    assert Added(Stripes, e, zcheck, sums, cur, orig, idx, ks, ls, w);
    AddedIsRepeat(Stripes, e, zcheck, sums, cur, orig, idx, ks, ls, w);
  }

  /**
   * The one-sided shortcut of the grouped kernels: the unrolled
   * `dm_stripe[ks + i] += sum` additions, with `from` the side that is
   * not all-zero.
   */
  method ShortcutSteps(buf: array<real>, zcheck: seq<bool>, sums: seq<real>, e: Embedding,
                       idx: nat, ks: nat, ls: nat, w: nat, from: nat)
    requires Shaped(e) && Consistent(e, zcheck, sums)
    requires ks + w <= e.nSamples && ls + w <= e.nSamples && idx + ks + w <= buf.Length
    requires (AllFlagged(zcheck, ks, w) && from == ls) || (AllFlagged(zcheck, ls, w) && from == ks)
    modifies buf
    ensures buf[..] == Repeat(Stripes, e, zcheck, sums, old(buf[..]), idx, ks, ls, w)
  {
    ghost var orig := buf[..];
    for i := 0 to w
      invariant Raised(buf[..], orig, sums, idx + ks, from, i)
    {
      buf[idx + ks + i] := buf[idx + ks + i] + sums[from + i];
    }
    ShortcutAdded(e, zcheck, sums, buf[..], orig, idx, ks, ls, w, from);
  }

  /** Against a consistent `sums`, a total step adds the two sums even when both samples are all-zero. */
  lemma TotalStep(e: Embedding, zcheck: seq<bool>, sums: seq<real>, k: nat, l: nat)
    requires Shaped(e) && Consistent(e, zcheck, sums) && k < e.nSamples && l < e.nSamples
    ensures Delta(Totals, e, zcheck, sums, k, l) == sums[k] + sums[l]
  {
  }

  /**
   * The totals of the grouped normalized kernels, which always use the
   * distributive property: the unrolled `dm_stripe_total[ks + i] += sum_kl`.
   */
  method TotalSteps(total: array<real>, zcheck: seq<bool>, sums: seq<real>, e: Embedding,
                    idx: nat, ks: nat, ls: nat, w: nat)
    requires Shaped(e) && Consistent(e, zcheck, sums)
    requires ks + w <= e.nSamples && ls + w <= e.nSamples && idx + ks + w <= total.Length
    modifies total
    ensures total[..] == Repeat(Totals, e, zcheck, sums, old(total[..]), idx, ks, ls, w)
  {
    ghost var orig := total[..];
    for i := 0 to w
      invariant total[..] == Repeat(Totals, e, zcheck, sums, orig, idx, ks, ls, i)
    {
      RepeatStep(Totals, e, zcheck, sums, orig, idx, ks, ls, i);
      TotalStep(e, zcheck, sums, ks + i, ls + i);
      total[idx + ks + i] := total[idx + ks + i] + (sums[ks + i] + sums[ls + i]);
    }
  }

  /** The fallback of the four-wide kernels: single steps on `(ks + i, ls + i)` for `i < w`. */
  method SingleSteps(buf: array<real>, zcheck: seq<bool>, sums: seq<real>, e: Embedding,
                     idx: nat, ks: nat, ls: nat, w: nat)
    requires Shaped(e) && e.nSamples <= |zcheck| && e.nSamples <= |sums|
    requires ks + w <= e.nSamples && ls + w <= e.nSamples && idx + ks + w <= buf.Length
    modifies buf
    ensures buf[..] == Repeat(Stripes, e, zcheck, sums, old(buf[..]), idx, ks, ls, w)
  {
    ghost var orig := buf[..];
    for i := 0 to w
      invariant buf[..] == Repeat(Stripes, e, zcheck, sums, orig, idx, ks, ls, i)
    {
      RepeatStep(Stripes, e, zcheck, sums, orig, idx, ks, ls, i);
      UnnormalizedWeighted1(buf, zcheck, sums, e, idx, ks + i, ls + i);
    }
  }

  /** The fallback of the eight-wide kernels: four-wide steps at `i = 0` and `i = 4`. */
  method FourWideSteps(buf: array<real>, zcheck: seq<bool>, sums: seq<real>, e: Embedding,
                       idx: nat, ks: nat, ls: nat)
    requires Shaped(e) && Consistent(e, zcheck, sums)
    requires ks + 8 <= e.nSamples && ls + 8 <= e.nSamples && idx + ks + 8 <= buf.Length
    modifies buf
    ensures buf[..] == Repeat(Stripes, e, zcheck, sums, old(buf[..]), idx, ks, ls, 8)
  {
    ghost var orig := buf[..];
    var i := 0;
    while i < 8
      invariant i == 0 || i == 4 || i == 8
      invariant buf[..] == Repeat(Stripes, e, zcheck, sums, orig, idx, ks, ls, i)
    {
      RepeatSplit(Stripes, e, zcheck, sums, orig, idx, ks, ls, i, 4);
      UnnormalizedWeighted4(buf, zcheck, sums, e, idx, ks + i, ls + i);
      i := i + 4;
    }
  }

  /**
   * Four pairs `(ks + i, ls + i)` at once. When all four samples on one
   * side are all-zero (the four `zcheck` bytes read as one 32-bit word)
   * the precomputed sums are added directly; otherwise four single steps.
   */
  method UnnormalizedWeighted4(buf: array<real>, zcheck: seq<bool>, sums: seq<real>, e: Embedding,
                               idx: nat, ks: nat, ls: nat)
    requires Shaped(e) && Consistent(e, zcheck, sums)
    requires ks + 4 <= e.nSamples && ls + 4 <= e.nSamples && idx + ks + 4 <= buf.Length
    modifies buf
    ensures buf[..] == Repeat(Stripes, e, zcheck, sums, old(buf[..]), idx, ks, ls, 4)
  {
    var allzeroK := AllFlagged(zcheck, ks, 4);
    var allzeroL := AllFlagged(zcheck, ls, 4);
    if allzeroK && allzeroL {
      NothingAdded(Stripes, e, zcheck, sums, buf[..], idx, ks, ls, 4);
    } else if allzeroK || allzeroL {
      ShortcutSteps(buf, zcheck, sums, e, idx, ks, ls, 4, if allzeroK then ls else ks);
    } else {
      SingleSteps(buf, zcheck, sums, e, idx, ks, ls, 4);
    }
  }

  /** Eight pairs at once; when neither side is all-zero, two four-wide steps. */
  method UnnormalizedWeighted8(buf: array<real>, zcheck: seq<bool>, sums: seq<real>, e: Embedding,
                               idx: nat, ks: nat, ls: nat)
    requires Shaped(e) && Consistent(e, zcheck, sums)
    requires ks + 8 <= e.nSamples && ls + 8 <= e.nSamples && idx + ks + 8 <= buf.Length
    modifies buf
    ensures buf[..] == Repeat(Stripes, e, zcheck, sums, old(buf[..]), idx, ks, ls, 8)
  {
    var allzeroK := AllFlagged(zcheck, ks, 8);
    var allzeroL := AllFlagged(zcheck, ls, 8);
    if allzeroK && allzeroL {
      NothingAdded(Stripes, e, zcheck, sums, buf[..], idx, ks, ls, 8);
    } else if allzeroK || allzeroL {
      ShortcutSteps(buf, zcheck, sums, e, idx, ks, ls, 8, if allzeroK then ls else ks);
    } else {
      FourWideSteps(buf, zcheck, sums, e, idx, ks, ls);
    }
  }

  /**
   * Four pairs of the normalized metric at once. Unless all eight samples
   * are all-zero, the totals take the pair's sums and the numerators the
   * one-sided shortcut or four single unnormalized steps.
   */
  method NormalizedWeighted4(buf: array<real>, total: array<real>, zcheck: seq<bool>, sums: seq<real>,
                             e: Embedding, idx: nat, ks: nat, ls: nat)
    requires Shaped(e) && Consistent(e, zcheck, sums) && buf != total
    requires ks + 4 <= e.nSamples && ls + 4 <= e.nSamples
    requires idx + ks + 4 <= buf.Length && idx + ks + 4 <= total.Length
    modifies buf, total
    ensures buf[..] == Repeat(Stripes, e, zcheck, sums, old(buf[..]), idx, ks, ls, 4)
    ensures total[..] == Repeat(Totals, e, zcheck, sums, old(total[..]), idx, ks, ls, 4)
  {
    var allzeroK := AllFlagged(zcheck, ks, 4);
    var allzeroL := AllFlagged(zcheck, ls, 4);
    if allzeroK && allzeroL {
      NothingAdded(Stripes, e, zcheck, sums, buf[..], idx, ks, ls, 4);
      NothingAdded(Totals, e, zcheck, sums, total[..], idx, ks, ls, 4);
    } else {
      if allzeroK || allzeroL {
        ShortcutSteps(buf, zcheck, sums, e, idx, ks, ls, 4, if allzeroK then ls else ks);
      }
      TotalSteps(total, zcheck, sums, e, idx, ks, ls, 4);
      if !(allzeroK || allzeroL) {
        SingleSteps(buf, zcheck, sums, e, idx, ks, ls, 4);
      }
    }
  }

  /** Eight pairs of the normalized metric at once; the numerators fall back on two four-wide steps. */
  method NormalizedWeighted8(buf: array<real>, total: array<real>, zcheck: seq<bool>, sums: seq<real>,
                             e: Embedding, idx: nat, ks: nat, ls: nat)
    requires Shaped(e) && Consistent(e, zcheck, sums) && buf != total
    requires ks + 8 <= e.nSamples && ls + 8 <= e.nSamples
    requires idx + ks + 8 <= buf.Length && idx + ks + 8 <= total.Length
    modifies buf, total
    ensures buf[..] == Repeat(Stripes, e, zcheck, sums, old(buf[..]), idx, ks, ls, 8)
    ensures total[..] == Repeat(Totals, e, zcheck, sums, old(total[..]), idx, ks, ls, 8)
  {
    var allzeroK := AllFlagged(zcheck, ks, 8);
    var allzeroL := AllFlagged(zcheck, ls, 8);
    if allzeroK && allzeroL {
      NothingAdded(Stripes, e, zcheck, sums, buf[..], idx, ks, ls, 8);
      NothingAdded(Totals, e, zcheck, sums, total[..], idx, ks, ls, 8);
    } else {
      if allzeroK || allzeroL {
        ShortcutSteps(buf, zcheck, sums, e, idx, ks, ls, 8, if allzeroK then ls else ks);
      }
      TotalSteps(total, zcheck, sums, e, idx, ks, ls, 8);
      if !(allzeroK || allzeroL) {
        FourWideSteps(buf, zcheck, sums, e, idx, ks, ls);
      }
    }
  }
}
