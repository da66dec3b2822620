/**
 * The unweighted UniFrac kernels of src/unifrac_task_impl.hpp on the CPU
 * (transposed) layout: `UnweightedOneSide`, `UnweightedZerosAndSums`
 * and `Unweighted1`.
 *
 * A pair of samples `(k, l)` adds to slot `idx + k` of `dm_stripes_buf`
 * the lengths of the branches present in exactly one of the two samples
 * (the set bits of `u ^ v`), and to `dm_stripes_total_buf` the lengths
 * of the branches present in either (the set bits of `u | v`). Words are
 * summed through the byte lookup table (`UnweightedTable`); a sample with
 * no branch at all is flagged in `zcheck`, and against it the other
 * sample's precomputed `stripe_sums` entry stands for both sums.
 */
module Unweighted {
  import opened Arith
  import opened Tiling
  import opened UnweightedBits
  import opened UnweightedTable

  // Flags, sums and the zero-first index.

  /** `zcheck` and `stripe_sums` as `UnweightedZerosAndSums` leaves them, for the samples below `n`. */
  ghost predicate ComputedUpTo(e: Packed, zcheck: seq<bool>, stripeSums: seq<real>, n: nat)
    requires Shaped(e) && n <= e.nSamples
  {
    && n <= |zcheck| && n <= |stripeSums|
    && forall k | 0 <= k < n ::
         (zcheck[k] <==> ZeroSample(e, k)) && stripeSums[k] == BranchSum(e, Alone, k, k, FilledEls(e.filledEmbs))
  }

  ghost predicate Computed(e: Packed, zcheck: seq<bool>, stripeSums: seq<real>)
    requires Shaped(e)
  {
    e.nSamples <= |zcheck| && e.nSamples <= |stripeSums| && ComputedUpTo(e, zcheck, stripeSums, e.nSamples)
  }

  /** The samples below `n` whose flag is `b`, in ascending order. */
  function Flagged(z: seq<bool>, b: bool, n: nat): (r: seq<nat>)
    requires n <= |z|
  {
    if n == 0 then [] else Flagged(z, b, n - 1) + (if z[n - 1] == b then [n - 1] else [])
  }

  /** The number of samples below `n` flagged all-zero: `n_true_idxs`. */
  function CountTrue(z: seq<bool>, n: nat): (c: nat)
    requires n <= |z|
  {
    if n == 0 then 0 else CountTrue(z, n - 1) + (if z[n - 1] then 1 else 0)
  }

  /** The order of `idxs`: every all-zero sample, then every other sample, each part ascending. */
  function ZerosFirst(z: seq<bool>): seq<nat>
  {
    Flagged(z, true, |z|) + Flagged(z, false, |z|)
  }

  /** The flagged positions are exactly the positions below `n` with flag `b`, strictly ascending. */
  lemma {:induction false} FlaggedMembers(z: seq<bool>, b: bool, n: nat)
    requires n <= |z|
    ensures forall i | 0 <= i < |Flagged(z, b, n)| :: Flagged(z, b, n)[i] < n && z[Flagged(z, b, n)[i]] == b
    ensures forall x | 0 <= x < n && z[x] == b :: x in Flagged(z, b, n)
    ensures forall i, j | 0 <= i < j < |Flagged(z, b, n)| :: Flagged(z, b, n)[i] < Flagged(z, b, n)[j]
  {
    FlaggedSound(z, b, n);
    FlaggedComplete(z, b, n);
    FlaggedAscending(z, b, n);
  }

  lemma {:induction false} FlaggedSound(z: seq<bool>, b: bool, n: nat)
    requires n <= |z|
    ensures forall i | 0 <= i < |Flagged(z, b, n)| :: Flagged(z, b, n)[i] < n && z[Flagged(z, b, n)[i]] == b
  {
    if n > 0 {
      FlaggedSound(z, b, n - 1);
    }
  }

  lemma {:induction false} FlaggedComplete(z: seq<bool>, b: bool, n: nat)
    requires n <= |z|
    ensures forall x | 0 <= x < n && z[x] == b :: x in Flagged(z, b, n)
  {
    if n > 0 {
      FlaggedComplete(z, b, n - 1);
    }
  }

  lemma {:induction false} FlaggedAscending(z: seq<bool>, b: bool, n: nat)
    requires n <= |z|
    ensures forall i, j | 0 <= i < j < |Flagged(z, b, n)| :: Flagged(z, b, n)[i] < Flagged(z, b, n)[j]
  {
    if n > 0 {
      FlaggedSound(z, b, n - 1);
      FlaggedAscending(z, b, n - 1);
    }
  }

  /** The two parts together have one entry per sample, the first part `n_true_idxs` of them. */
  lemma {:induction false} FlaggedSizes(z: seq<bool>, n: nat)
    requires n <= |z|
    ensures |Flagged(z, true, n)| == CountTrue(z, n)
    ensures |Flagged(z, true, n)| + |Flagged(z, false, n)| == n
  {
    if n > 0 {
      FlaggedSizes(z, n - 1);
    }
  }

  lemma {:induction false} FlaggedGrows(z: seq<bool>, b: bool, m: nat, n: nat)
    requires m <= n <= |z|
    ensures |Flagged(z, b, m)| <= |Flagged(z, b, n)|
    decreases n - m
  {
    if m < n {
      FlaggedGrows(z, b, m, n - 1);
    }
  }

  /**
   * `idxs` is a permutation of the samples: each sample appears once, and
   * the all-zero samples come first, each part in ascending order.
   */
  lemma ZerosFirstPermutation(z: seq<bool>)
    ensures |ZerosFirst(z)| == |z|
    ensures forall k | 0 <= k < |z| :: k in ZerosFirst(z)
    ensures forall i | 0 <= i < |z| :: ZerosFirst(z)[i] < |z|
    ensures forall i, j | 0 <= i < j < |ZerosFirst(z)| :: ZerosFirst(z)[i] != ZerosFirst(z)[j]
    ensures forall i | 0 <= i < |z| :: z[ZerosFirst(z)[i]] <==> i < CountTrue(z, |z|)
    ensures forall i, j | 0 <= i < j < |z| && z[ZerosFirst(z)[i]] == z[ZerosFirst(z)[j]] ::
              ZerosFirst(z)[i] < ZerosFirst(z)[j]
  {
    var ts, fs := Flagged(z, true, |z|), Flagged(z, false, |z|);
    FlaggedMembers(z, true, |z|);
    FlaggedMembers(z, false, |z|);
    FlaggedSizes(z, |z|);
    var r := ZerosFirst(z);
    forall k | 0 <= k < |z|
      ensures k in r
    {
      if z[k] {
        assert k in ts;
      } else {
        assert k in fs;
      }
    }
    forall i | 0 <= i < |r|
      ensures r[i] < |z| && (z[r[i]] <==> i < |ts|)
    {
      if i < |ts| {
        assert r[i] == ts[i];
      } else {
        assert r[i] == fs[i - |ts|];
      }
    }
  }

  /**
   * The accelerator branch of `UnweightedZerosAndSums`: two passes over
   * the flags, the first writing the all-zero samples from position 0 on,
   * the second the others from position `n_true_idxs` on.
   */
  method PartitionZerosFirst(idxs: array<nat>, zcheck: seq<bool>, n: nat, nTrue: nat)
    requires n <= |zcheck| && n <= idxs.Length && nTrue == CountTrue(zcheck, n)
    modifies idxs
    ensures idxs[..n] == ZerosFirst(zcheck[..n])
    ensures forall i | n <= i < idxs.Length :: idxs[i] == old(idxs[i])
  {
    ghost var z := zcheck[..n];
    SameFlags(zcheck, z, n);
    FlaggedSizes(zcheck, n);
    // the source's loop over the two flag values, unrolled
    CollectFlagged(idxs, zcheck, n, true, 0);
    ghost var mid := idxs[..];
    CollectFlagged(idxs, zcheck, n, false, nTrue);
    assert idxs[..nTrue] == mid[..nTrue];
    ghost var ts, fs := Flagged(z, true, n), Flagged(z, false, n);
    forall i | 0 <= i < n ensures idxs[i] == (ts + fs)[i] {
      if i < nTrue {
        assert idxs[i] == idxs[..nTrue][i];
      } else {
        assert idxs[i] == idxs[nTrue..n][i - nTrue];
      }
    }
  }

  /**
   * One pass of `UnweightedZerosAndSums`' accelerator branch: writes the
   * samples below `n` whose flag is `b`, in order, from `base` on.
   */
  method CollectFlagged(idxs: array<nat>, zcheck: seq<bool>, n: nat, b: bool, base: nat)
    requires n <= |zcheck| && base + |Flagged(zcheck, b, n)| <= n <= idxs.Length
    modifies idxs
    ensures idxs[base..base + |Flagged(zcheck, b, n)|] == Flagged(zcheck, b, n)
    ensures forall i | 0 <= i < idxs.Length && !(base <= i < base + |Flagged(zcheck, b, n)|) ::
              idxs[i] == old(idxs[i])
  {
    var icurr := base;
    for k := 0 to n
      invariant icurr == base + |Flagged(zcheck, b, k)|
      invariant |Flagged(zcheck, b, k)| <= |Flagged(zcheck, b, n)|
      invariant idxs[base..icurr] == Flagged(zcheck, b, k)
      invariant forall i | 0 <= i < idxs.Length && !(base <= i < icurr) :: idxs[i] == old(idxs[i])
    {
      FlaggedGrows(zcheck, b, k + 1, n);
      if zcheck[k] == b {
        idxs[icurr] := k;
        icurr := icurr + 1;
      }
    }
  }

  /** The flags read from the array agree with its first `n` entries. */
  lemma {:induction false} SameFlags(zcheck: seq<bool>, z: seq<bool>, n: nat)
    requires n <= |zcheck| && z == zcheck[..n]
    ensures forall b: bool :: Flagged(z, b, n) == Flagged(zcheck, b, n)
    ensures CountTrue(z, n) == CountTrue(zcheck, n)
  {
    forall m | 0 <= m <= n
      ensures Flagged(z, true, m) == Flagged(zcheck, true, m) && Flagged(z, false, m) == Flagged(zcheck, false, m)
      ensures CountTrue(z, m) == CountTrue(zcheck, m)
    {
      SameFlagsUpTo(zcheck, z, n, m);
    }
  }

  lemma {:induction false} SameFlagsUpTo(zcheck: seq<bool>, z: seq<bool>, n: nat, m: nat)
    requires m <= n <= |zcheck| && z == zcheck[..n]
    ensures Flagged(z, true, m) == Flagged(zcheck, true, m) && Flagged(z, false, m) == Flagged(zcheck, false, m)
    ensures CountTrue(z, m) == CountTrue(zcheck, m)
  {
    if m > 0 {
      SameFlagsUpTo(zcheck, z, n, m - 1);
    }
  }

  /**
   * `UnweightedOneSide` for sample `kl`: sums the words of the sample
   * through the table, skipping zero words, stores the sum in
   * `stripe_sums[kl]` and reports whether every word was zero. The sum
   * is the brute-force length of the sample's branches.
   */
  method UnweightedOneSide(stripeSums: array<real>, t: seq<real>, e: Packed, kl: nat) returns (allZeros: bool)
    requires Shaped(e) && TableOk(e, t) && kl < e.nSamples && kl < stripeSums.Length
    modifies stripeSums
    ensures allZeros <==> ZeroSample(e, kl)
    ensures stripeSums[..] == old(stripeSums[..])[kl := BranchSum(e, Alone, kl, kl, FilledEls(e.filledEmbs))]
  {
    var myStripe;
    allZeros, myStripe := OneSideSum(t, e, kl);
    stripeSums[kl] := myStripe;
  }

  /**
   * The word loop of `UnweightedOneSide`: the sum of the table entries of
   * the sample's words is the brute-force length of its branches, and the
   * sample is all-zero exactly when every word was zero.
   */
  method OneSideSum(t: seq<real>, e: Packed, kl: nat) returns (allZeros: bool, myStripe: real)
    requires Shaped(e) && TableOk(e, t) && kl < e.nSamples
    ensures allZeros <==> ZeroSample(e, kl)
    ensures myStripe == BranchSum(e, Alone, kl, kl, FilledEls(e.filledEmbs))
  {
    allZeros := true;
    myStripe := 0.0;
    var filledEls := FilledEls(e.filledEmbs);
    for el := 0 to filledEls
      invariant OneSideDone(e, kl, el, allZeros, myStripe)
    {
      allZeros, myStripe := OneSideStep(t, e, kl, el, RowStart(e, kl), allZeros, myStripe);
    }
    OneSideFinished(e, kl, allZeros, myStripe);
  }

  /** After every word the loop's flag and sum are the sample's. */
  lemma OneSideFinished(e: Packed, kl: nat, allZeros: bool, myStripe: real)
    requires Shaped(e) && kl < e.nSamples && OneSideDone(e, kl, FilledEls(e.filledEmbs), allZeros, myStripe)
    ensures allZeros <==> ZeroSample(e, kl)
    ensures myStripe == BranchSum(e, Alone, kl, kl, FilledEls(e.filledEmbs))
  {
    WordsSumIsBranchSum(e, Alone, kl, kl, FilledEls(e.filledEmbs));
  }

  /** One pass of the word loop of `UnweightedOneSide`: a zero word adds nothing. */
  method OneSideStep(t: seq<real>, e: Packed, kl: nat, el: nat, offset: nat, allZeros0: bool, myStripe0: real)
    returns (allZeros: bool, myStripe: real)
    requires Shaped(e) && TableOk(e, t) && kl < e.nSamples && el < FilledEls(e.filledEmbs)
    requires offset == e.embsStripe * kl
    requires OneSideDone(e, kl, el, allZeros0, myStripe0)
    ensures OneSideDone(e, kl, el + 1, allZeros, myStripe)
  {
    allZeros, myStripe := allZeros0, myStripe0;
    WordAt(e, kl, el, offset);
    var o1 := e.words[offset + el];
    if o1 == 0 {
      SpanZero(e, el * 64, WordBits);
    } else {
      allZeros := false;
      myStripe := OneSideWord(t, e, el, o1, myStripe);
    }
    OneSideAdvance(e, kl, el, allZeros0, myStripe0, allZeros, myStripe);
  }

  /** The word loop of `UnweightedOneSide` has read the first `el` words of sample `kl`. */
  ghost predicate OneSideDone(e: Packed, kl: nat, el: nat, allZeros: bool, myStripe: real)
    requires Shaped(e) && kl < e.nSamples && el <= FilledEls(e.filledEmbs)
  {
    (allZeros <==> ZeroUpTo(e, kl, el)) && myStripe == WordsSum(e, Alone, kl, kl, el)
  }

  /** Word `el` of sample `k` sits at `embs_stripe * k + el`. */
  lemma WordAt(e: Packed, k: nat, el: nat, offset: int)
    requires Shaped(e) && k < e.nSamples && el < FilledEls(e.filledEmbs) && offset == e.embsStripe * k
    ensures 0 <= offset + el < |e.words| && e.words[offset + el] == Word(e, k, el)
  {
    RowIndex(k, el, e.embsStripe, e.nSamples);
  }

  /** One pass of the word loop of `UnweightedOneSide`. */
  lemma OneSideAdvance(e: Packed, kl: nat, el: nat, allZeros: bool, myStripe: real, allZeros': bool, myStripe': real)
    requires Shaped(e) && kl < e.nSamples && el < FilledEls(e.filledEmbs)
    requires OneSideDone(e, kl, el, allZeros, myStripe)
    requires allZeros' == (allZeros && Word(e, kl, el) == 0)
    requires myStripe' == myStripe + Span(e, el * 64, Word(e, kl, el), WordBits)
    ensures OneSideDone(e, kl, el + 1, allZeros', myStripe')
  {
    assert Combined(e, Alone, kl, kl, el) == Word(e, kl, el);
  }

  /** `ComputedUpTo` extends by one sample once its flag and sum are stored. */
  lemma ComputedStep(e: Packed, zs: seq<bool>, ss: seq<real>, zs': seq<bool>, ss': seq<real>, k: nat)
    requires Shaped(e) && k < e.nSamples && k < |zs| && k < |ss| && |zs'| == |zs| && |ss'| == |ss|
    requires ComputedUpTo(e, zs, ss, k)
    requires zs' == zs[k := zs'[k]] && ss' == ss[k := ss'[k]]
    requires (zs'[k] <==> ZeroSample(e, k)) && ss'[k] == BranchSum(e, Alone, k, k, FilledEls(e.filledEmbs))
    ensures ComputedUpTo(e, zs', ss', k + 1)
  {
  }

  lemma CountStep(z: seq<bool>, z': seq<bool>, k: nat, c: nat)
    requires k < |z| == |z'| && z' == z[k := z'[k]] && c == CountTrue(z, k)
    ensures CountTrue(z', k + 1) == c + (if z'[k] then 1 else 0)
  {
    SameFlags(z, z[..k], k);
    SameFlags(z', z[..k], k);
  }

  /**
   * `UnweightedZerosAndSums`: flags every all-zero sample and stores
   * every sample's length sum; on an accelerator (`accelerator`) it also
   * counts the flagged samples and fills `idxs` with the zero-first order.
   */
  method UnweightedZerosAndSums(zcheck: array<bool>, idxs: array<nat>, stripeSums: array<real>,
                                t: seq<real>, e: Packed, accelerator: bool)
    requires Shaped(e) && TableOk(e, t)
    requires e.nSamples <= zcheck.Length && e.nSamples <= stripeSums.Length && e.nSamples <= idxs.Length
    modifies zcheck, idxs, stripeSums
    ensures Computed(e, zcheck[..], stripeSums[..])
    ensures forall k | e.nSamples <= k < zcheck.Length :: zcheck[k] == old(zcheck[k])
    ensures forall k | e.nSamples <= k < stripeSums.Length :: stripeSums[k] == old(stripeSums[k])
    ensures accelerator ==> idxs[..e.nSamples] == ZerosFirst(zcheck[..e.nSamples])
    ensures accelerator ==> forall i | e.nSamples <= i < idxs.Length :: idxs[i] == old(idxs[i])
    ensures !accelerator ==> idxs[..] == old(idxs[..])
  {
    var nTrue := 0;
    for k := 0 to e.nSamples
      invariant ComputedUpTo(e, zcheck[..], stripeSums[..], k)
      invariant nTrue == CountTrue(zcheck[..], k)
      invariant forall k' | k <= k' < zcheck.Length :: zcheck[k'] == old(zcheck[k'])
      invariant forall k' | k <= k' < stripeSums.Length :: stripeSums[k'] == old(stripeSums[k'])
      invariant idxs[..] == old(idxs[..])
    {
      ghost var zs, ss := zcheck[..], stripeSums[..];
      var allZeros := UnweightedOneSide(stripeSums, t, e, k);
      zcheck[k] := allZeros;
      ComputedStep(e, zs, ss, zcheck[..], stripeSums[..], k);
      CountStep(zs, zcheck[..], k, nTrue);
      if allZeros {
        nTrue := nTrue + 1;
      }
    }
    if accelerator {
      PartitionZerosFirst(idxs, zcheck[..], e.nSamples, nTrue);
    }
  }

  // One pair.

  /**
   * What `Unweighted1` adds to slot `k` pairing `k` with `l`, under `m`
   * (`Xor` for the distance, `Or` for the total): nothing when both are
   * all-zero; against an all-zero sample the other's `stripe_sums`
   * entry; otherwise the word sums through the table.
   */
  function UnweightedDelta(m: Mix, e: Packed, zcheck: seq<bool>, stripeSums: seq<real>, k: nat, l: nat): real
    requires Shaped(e) && e.nSamples <= |zcheck| && e.nSamples <= |stripeSums| && k < e.nSamples && l < e.nSamples
  {
    if zcheck[k] && zcheck[l] then 0.0
    else if zcheck[k] then stripeSums[l]
    else if zcheck[l] then stripeSums[k]
    else WordsSum(e, m, k, l, FilledEls(e.filledEmbs))
  }

  /**
   * With the flags and sums of `UnweightedZerosAndSums`, the zero-skipping
   * shortcut adds the brute-force sum over branches: the lengths of the
   * branches in exactly one sample for `Xor`, in either for `Or`.
   */
  lemma ShortcutIsBruteForce(m: Mix, e: Packed, zcheck: seq<bool>, stripeSums: seq<real>, k: nat, l: nat)
    requires Shaped(e) && Computed(e, zcheck, stripeSums) && m != Alone
    requires k < e.nSamples && l < e.nSamples
    ensures UnweightedDelta(m, e, zcheck, stripeSums, k, l) == BranchSum(e, m, k, l, FilledEls(e.filledEmbs))
  {
    var f := FilledEls(e.filledEmbs);
    if zcheck[k] {
      BranchSumAgainstZero(e, m, k, l, f);
      if zcheck[l] {
        BranchSumOfZero(e, l, f);
      }
    } else if zcheck[l] {
      BranchSumAgainstZero(e, m, l, k, f);
    } else {
      WordsSumIsBranchSum(e, m, k, l, f);
    }
  }

  /** Where `u | v` is zero, the word adds nothing to either sum. */
  lemma ZeroWord(e: Packed, base: nat, u: nat, v: nat)
    requires Shaped(e) && BitOr(u, v) == 0
    ensures Span(e, base, BitXor(u, v), WordBits) == 0.0
    ensures Span(e, base, BitOr(u, v), WordBits) == 0.0
  {
    MixedZero(Or, u, v);
    SpanZero(e, base, WordBits);
  }

  /** The word loop of `Unweighted1` for two samples that are both not all-zero. */
  method PairWords(t: seq<real>, e: Packed, k: nat, l1: nat, computeTotal: bool)
    returns (didUpdate: bool, myStripe: real, myStripeTotal: real)
    requires Shaped(e) && TableOk(e, t) && k < e.nSamples && l1 < e.nSamples
    ensures PairDone(e, k, l1, FilledEls(e.filledEmbs), computeTotal, didUpdate, myStripe, myStripeTotal)
  {
    didUpdate := false;
    myStripe, myStripeTotal := 0.0, 0.0;
    var filledEls := FilledEls(e.filledEmbs);
    for el := 0 to filledEls
      invariant PairDone(e, k, l1, el, computeTotal, didUpdate, myStripe, myStripeTotal)
    {
      didUpdate, myStripe, myStripeTotal :=
        PairWordsStep(t, e, k, l1, el, e.embsStripe * k, e.embsStripe * l1, computeTotal, didUpdate, myStripe, myStripeTotal);
    }
  }

  /** The body of the word loop of `Unweighted1`: word `el` of both samples, skipped when `u1 | v1` is zero. */
  method PairWordsStep(t: seq<real>, e: Packed, k: nat, l1: nat, el: nat, offsetK: nat, offsetL: nat,
                       computeTotal: bool, didUpdate0: bool, myStripe0: real, myStripeTotal0: real)
    returns (didUpdate: bool, myStripe: real, myStripeTotal: real)
    requires Shaped(e) && TableOk(e, t) && k < e.nSamples && l1 < e.nSamples && el < FilledEls(e.filledEmbs)
    requires offsetK == e.embsStripe * k && offsetL == e.embsStripe * l1
    requires PairDone(e, k, l1, el, computeTotal, didUpdate0, myStripe0, myStripeTotal0)
    ensures PairDone(e, k, l1, el + 1, computeTotal, didUpdate, myStripe, myStripeTotal)
  {
    didUpdate, myStripe, myStripeTotal := didUpdate0, myStripe0, myStripeTotal0;
    WordAt(e, k, el, offsetK);
    WordAt(e, l1, el, offsetL);
    var u1 := e.words[offsetK + el];
    var v1 := e.words[offsetL + el];
    var o1 := BitOr(u1, v1);
    if o1 != 0 {
      didUpdate := true;
      myStripe, myStripeTotal := PairWord(t, e, el, u1, v1, computeTotal, myStripe, myStripeTotal);
    }
    PairAdvance(e, k, l1, el, computeTotal, u1, v1, didUpdate0, myStripe0, myStripeTotal0, didUpdate, myStripe, myStripeTotal);
  }

  /** The word loop of `Unweighted1` has read the first `el` words of the pair; nothing is added until a word is non-zero. */
  ghost predicate PairDone(e: Packed, k: nat, l: nat, el: nat, computeTotal: bool,
                           didUpdate: bool, myStripe: real, myStripeTotal: real)
  {
    && Shaped(e) && k < e.nSamples && l < e.nSamples && el <= FilledEls(e.filledEmbs)
    && myStripe == WordsSum(e, Xor, k, l, el)
    && myStripeTotal == (if computeTotal then WordsSum(e, Or, k, l, el) else 0.0)
    && (!didUpdate ==> myStripe == 0.0 && myStripeTotal == 0.0)
  }

  /** One pass of the word loop of `Unweighted1`, on the words `u`, `v` of the pair: a zero `u | v` is skipped. */
  lemma PairAdvance(e: Packed, k: nat, l: nat, el: nat, computeTotal: bool, u: nat, v: nat,
                    didUpdate: bool, myStripe: real, myStripeTotal: real,
                    didUpdate': bool, myStripe': real, myStripeTotal': real)
    requires Shaped(e) && k < e.nSamples && l < e.nSamples && el < FilledEls(e.filledEmbs)
    requires u == Word(e, k, el) && v == Word(e, l, el)
    requires PairDone(e, k, l, el, computeTotal, didUpdate, myStripe, myStripeTotal)
    requires BitOr(u, v) == 0 ==> didUpdate' == didUpdate && myStripe' == myStripe && myStripeTotal' == myStripeTotal
    requires BitOr(u, v) != 0 ==> didUpdate' && myStripe' == myStripe + Span(e, el * 64, BitXor(u, v), WordBits)
    requires BitOr(u, v) != 0 ==> myStripeTotal' == if computeTotal
                                                    then myStripeTotal + Span(e, el * 64, BitOr(u, v), WordBits)
                                                    else myStripeTotal
    ensures PairDone(e, k, l, el + 1, computeTotal, didUpdate', myStripe', myStripeTotal')
  {
    assert Combined(e, Xor, k, l, el) == BitXor(u, v);
    assert Combined(e, Or, k, l, el) == BitOr(u, v);
    if BitOr(u, v) == 0 {
      ZeroWord(e, el * 64, u, v);
    }
  }

  /**
   * The sums `Unweighted1` adds for the pair `k`, `l1` when at least one of
   * them has a branch: the other's `stripe_sums` entry against an all-zero
   * sample, the word loop otherwise. Nothing is added when the sums are zero.
   */
  method PairContribution(zcheck: seq<bool>, stripeSums: seq<real>, t: seq<real>, e: Packed,
                          k: nat, l1: nat, computeTotal: bool)
    returns (didUpdate: bool, myStripe: real, myStripeTotal: real)
    requires Shaped(e) && TableOk(e, t) && e.nSamples <= |zcheck| && e.nSamples <= |stripeSums|
    requires k < e.nSamples && l1 < e.nSamples && !(zcheck[k] && zcheck[l1])
    ensures didUpdate ==> myStripe == UnweightedDelta(Xor, e, zcheck, stripeSums, k, l1)
    ensures didUpdate && computeTotal ==> myStripeTotal == UnweightedDelta(Or, e, zcheck, stripeSums, k, l1)
    ensures !didUpdate ==> UnweightedDelta(Xor, e, zcheck, stripeSums, k, l1) == 0.0
    ensures !didUpdate && computeTotal ==> UnweightedDelta(Or, e, zcheck, stripeSums, k, l1) == 0.0
  {
    if zcheck[k] || zcheck[l1] {
      var kl := if zcheck[k] then l1 else k;
      myStripe := stripeSums[kl];
      myStripeTotal := if computeTotal then myStripe else 0.0;
      didUpdate := myStripe != 0.0;
    } else {
      didUpdate, myStripe, myStripeTotal := PairWords(t, e, k, l1, computeTotal);
    }
  }

  /**
   * `Unweighted1` on the pair `(k, l1)`: writes only slot `idx + k` of the
   * distance buffer and, when `computeTotal`, of the totals buffer (the
   * unnormalized metric passes no totals buffer: any array, untouched).
   * A contribution of exactly zero is not written.
   */
  method Unweighted1(buf: array<real>, total: array<real>, computeTotal: bool,
                     zcheck: seq<bool>, stripeSums: seq<real>, t: seq<real>, e: Packed,
                     idx: nat, k: nat, l1: nat)
    requires Shaped(e) && TableOk(e, t) && e.nSamples <= |zcheck| && e.nSamples <= |stripeSums| && buf != total
    requires k < e.nSamples && l1 < e.nSamples && idx + k < buf.Length && (computeTotal ==> idx + k < total.Length)
    modifies buf, total
    ensures buf[..] == old(buf[..])[idx + k := old(buf[idx + k]) + UnweightedDelta(Xor, e, zcheck, stripeSums, k, l1)]
    ensures computeTotal ==>
              total[..] == old(total[..])[idx + k := old(total[idx + k]) + UnweightedDelta(Or, e, zcheck, stripeSums, k, l1)]
    ensures !computeTotal ==> total[..] == old(total[..])
  {
    var allzeroK := zcheck[k];
    var allzeroL1 := zcheck[l1];
    if allzeroK && allzeroL1 {
      assert buf[..] == old(buf[..])[idx + k := old(buf[idx + k]) + 0.0];
      assert computeTotal ==> total[..] == old(total[..])[idx + k := old(total[idx + k]) + 0.0];
    } else {
      var didUpdate, myStripe, myStripeTotal := PairContribution(zcheck, stripeSums, t, e, k, l1, computeTotal);
      if didUpdate {
        buf[idx + k] := buf[idx + k] + myStripe;
        if computeTotal {
          total[idx + k] := total[idx + k] + myStripeTotal;
        }
      } else {
        assert buf[..] == old(buf[..])[idx + k := old(buf[idx + k]) + 0.0];
        assert computeTotal ==> total[..] == old(total[..])[idx + k := old(total[idx + k]) + 0.0];
      }
    }
  }
}
