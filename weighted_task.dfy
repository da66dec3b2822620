/**
 * The CPU driver loops of the weighted kernels in src/unifrac_task_impl.hpp
 * (`run_UnnormalizedWeightedTask_T`, `run_NormalizedWeightedTask_T`):
 * after the zero flags and sums are computed, stripes and samples are
 * walked in square tiles of `STEP_SIZE`, one row (`WeightedRows`) per
 * stripe of a tile.
 *
 * The tiling's promise is that every slot of the task receives the
 * single-pair step exactly once: slot `(stripe - start_idx) * n_samples_r + k`,
 * for `start_idx <= stripe < stop_idx` and `k < n_samples`, gets the step on
 * `(k, (k + stripe + 1) % n_samples)`, and every other position of the
 * buffers keeps its value.
 */
module WeightedTask {
  import opened Tiling
  import opened Weighted
  import opened WeightedRows

  /**
   * With the flags and sums that `WeightedZerosAndSums` computes and no
   * negative proportion, the unnormalized task adds the brute-force
   * weighted distance term `sum |u_k - u_l| * length` to each slot.
   */
  lemma TaskIsBruteForce(e: Embedding, zcheck: seq<bool>, sums: seq<real>,
                         cur: seq<real>, orig: seq<real>, start: nat, stop: nat, nr: nat, stripe: nat, k: nat)
    requires Shaped(e) && e.nSamples <= nr && start <= stop && Computed(e, zcheck, sums) && NonNegative(e)
    requires TaskAdded(WeightedStep(Stripes, e, zcheck, sums), e.nSamples, cur, orig, start, stop, nr)
    requires (stop - start) * nr <= |cur|
    requires start <= stripe < stop && k < e.nSamples
    ensures var j := StripeOffset(start, stop, nr, stripe) + k;
            j < |cur| && cur[j] == orig[j] + DiffSum(e, k, (k + stripe + 1) % e.nSamples, e.filledEmbs)
  {
    TaskSlot(WeightedStep(Stripes, e, zcheck, sums), e.nSamples, cur, orig, start, stop, nr, stripe, k);
    ShortcutIsBruteForce(e, zcheck, sums, k, (k + stripe + 1) % e.nSamples);
  }

  /** The normalized task adds the brute-force total term `sum (u_k + u_l) * length` to each slot of the totals. */
  lemma TaskTotalIsBruteForce(e: Embedding, zcheck: seq<bool>, sums: seq<real>,
                              cur: seq<real>, orig: seq<real>, start: nat, stop: nat, nr: nat, stripe: nat, k: nat)
    requires Shaped(e) && e.nSamples <= nr && start <= stop && Computed(e, zcheck, sums)
    requires TaskAdded(WeightedStep(Totals, e, zcheck, sums), e.nSamples, cur, orig, start, stop, nr)
    requires (stop - start) * nr <= |cur|
    requires start <= stripe < stop && k < e.nSamples
    ensures var j := StripeOffset(start, stop, nr, stripe) + k;
            j < |cur| && cur[j] == orig[j] + PairSum(e, k, (k + stripe + 1) % e.nSamples, e.filledEmbs)
  {
    TaskSlot(WeightedStep(Totals, e, zcheck, sums), e.nSamples, cur, orig, start, stop, nr, stripe, k);
    TotalIsBruteForce(e, zcheck, sums, k, (k + stripe + 1) % e.nSamples);
  }

  /** A weighted row on sample tile `sk` moves the tiled loops on by one stripe. */
  lemma WeightedRowStep(b: Buffer, e: Embedding, zcheck: seq<bool>, sums: seq<real>,
                        cur: seq<real>, prev: seq<real>, orig: seq<real>,
                        start: nat, stop: nat, nr: nat, ss: nat, sk: nat, si: nat, stripe: nat, idx: nat)
    requires Shaped(e) && 0 < e.nSamples && e.nSamples <= |zcheck| && e.nSamples <= |sums|
    requires e.nSamples <= nr && start <= stop
    requires si < STEP && stripe == start + ss * STEP + si && stripe < stop && idx == (stripe - start) * nr
    requires sk * STEP < e.nSamples && idx + ChunkEnd(e.nSamples, sk) <= |prev|
    requires Tiled(WeightedStep(b, e, zcheck, sums), e.nSamples, prev, orig, start, stop, nr, ss, sk, si)
    requires cur == RowSteps(b, e, zcheck, sums, prev, idx, stripe, sk * STEP, ChunkEnd(e.nSamples, sk))
    ensures Tiled(WeightedStep(b, e, zcheck, sums), e.nSamples, cur, orig, start, stop, nr, ss, sk, si + 1)
  {
    RowStepsAdded(b, e, zcheck, sums, prev, idx, stripe, sk * STEP, ChunkEnd(e.nSamples, sk));
    TiledRowStep(WeightedStep(b, e, zcheck, sums), e.nSamples, cur, prev, orig, start, stop, nr, ss, sk, si, stripe, idx);
  }

  /**
   * `run_UnnormalizedWeightedTask_T` on the CPU: compute the flags and
   * sums, then walk the tiles, running one row per stripe that is below
   * `stop_idx`.
   */
  method RunUnnormalizedWeightedTask(e: Embedding, start: nat, stop: nat, nr: nat,
                                     buf: array<real>, zcheck: array<bool>, sums: array<real>)
    requires Shaped(e) && start <= stop && e.nSamples <= nr
    requires (stop - start) * nr <= buf.Length && e.nSamples <= zcheck.Length && e.nSamples <= sums.Length
    requires buf != sums
    modifies buf, zcheck, sums
    ensures Computed(e, zcheck[..], sums[..])
    ensures TaskAdded(WeightedStep(Stripes, e, zcheck[..], sums[..]), e.nSamples, buf[..], old(buf[..]), start, stop, nr)
  {
    var n := e.nSamples;
    var sampleSteps := (n + (STEP - 1)) / STEP;
    WeightedZerosAndSums(zcheck, sums, e);
    ComputedConsistent(e, zcheck[..], sums[..]);
    ghost var z, s, orig := zcheck[..], sums[..], buf[..];
    ghost var step := WeightedStep(Stripes, e, z, s);
    TiledStart(step, n, orig, start, stop, nr);
    var stripeSteps := ((stop - start) + (STEP - 1)) / STEP;
    for ss := 0 to stripeSteps
      invariant zcheck[..] == z && sums[..] == s
      invariant Tiled(step, n, buf[..], orig, start, stop, nr, ss, 0, 0)
      modifies buf
    {
      for sk := 0 to sampleSteps
        invariant zcheck[..] == z && sums[..] == s
        invariant Tiled(step, n, buf[..], orig, start, stop, nr, ss, sk, 0)
        modifies buf
      {
        for si := 0 to STEP
          invariant zcheck[..] == z && sums[..] == s
          invariant Tiled(step, n, buf[..], orig, start, stop, nr, ss, sk, si)
          modifies buf
        {
          var stripe := start + ss * STEP + si;
          if stripe < stop {
            var idx := StripeOffset(start, stop, nr, stripe);
            var ks := sk * STEP;
            var kmax := ChunkEnd(n, sk);
            ghost var before := buf[..];
            UnnormalizedRow(buf, zcheck[..], sums[..], e, idx, stripe, ks, kmax);
            WeightedRowStep(Stripes, e, z, s, buf[..], before, orig, start, stop, nr, ss, sk, si, stripe, idx);
          } else {
            TiledSkip(step, n, buf[..], orig, start, stop, nr, ss, sk, si);
          }
        }
        TiledChunkDone(step, n, buf[..], orig, start, stop, nr, ss, sk);
      }
      TiledBlockDone(step, n, buf[..], orig, start, stop, nr, ss, sampleSteps);
    }
    TiledDone(step, n, buf[..], orig, start, stop, nr, stripeSteps);
  }

  /**
   * `run_NormalizedWeightedTask_T` on the CPU: as the unnormalized task,
   * each row also adding the totals into `dm_stripes_total_buf`.
   */
  method RunNormalizedWeightedTask(e: Embedding, start: nat, stop: nat, nr: nat, buf: array<real>,
                                   total: array<real>, zcheck: array<bool>, sums: array<real>)
    requires Shaped(e) && start <= stop && e.nSamples <= nr
    requires (stop - start) * nr <= buf.Length && (stop - start) * nr <= total.Length
    requires e.nSamples <= zcheck.Length && e.nSamples <= sums.Length
    requires buf != total && buf != sums && total != sums
    modifies buf, total, zcheck, sums
    ensures Computed(e, zcheck[..], sums[..])
    ensures TaskAdded(WeightedStep(Stripes, e, zcheck[..], sums[..]), e.nSamples, buf[..], old(buf[..]), start, stop, nr)
    ensures TaskAdded(WeightedStep(Totals, e, zcheck[..], sums[..]), e.nSamples, total[..], old(total[..]), start, stop, nr)
  {
    var n := e.nSamples;
    var sampleSteps := (n + (STEP - 1)) / STEP;
    WeightedZerosAndSums(zcheck, sums, e);
    ComputedConsistent(e, zcheck[..], sums[..]);
    ghost var z, s, orig, origTotal := zcheck[..], sums[..], buf[..], total[..];
    ghost var step, stepTotal := WeightedStep(Stripes, e, z, s), WeightedStep(Totals, e, z, s);
    TiledStart(step, n, orig, start, stop, nr);
    TiledStart(stepTotal, n, origTotal, start, stop, nr);
    var stripeSteps := ((stop - start) + (STEP - 1)) / STEP;
    for ss := 0 to stripeSteps
      invariant zcheck[..] == z && sums[..] == s
      invariant Tiled(step, n, buf[..], orig, start, stop, nr, ss, 0, 0)
      invariant Tiled(stepTotal, n, total[..], origTotal, start, stop, nr, ss, 0, 0)
      modifies buf, total
    {
      for sk := 0 to sampleSteps
        invariant zcheck[..] == z && sums[..] == s
        invariant Tiled(step, n, buf[..], orig, start, stop, nr, ss, sk, 0)
        invariant Tiled(stepTotal, n, total[..], origTotal, start, stop, nr, ss, sk, 0)
        modifies buf, total
      {
        for si := 0 to STEP
          invariant zcheck[..] == z && sums[..] == s
          invariant Tiled(step, n, buf[..], orig, start, stop, nr, ss, sk, si)
          invariant Tiled(stepTotal, n, total[..], origTotal, start, stop, nr, ss, sk, si)
          modifies buf, total
        {
          var stripe := start + ss * STEP + si;
          if stripe < stop {
            var idx := StripeOffset(start, stop, nr, stripe);
            var ks := sk * STEP;
            var kmax := ChunkEnd(n, sk);
            ghost var before, beforeTotal := buf[..], total[..];
            NormalizedRow(buf, total, zcheck[..], sums[..], e, idx, stripe, ks, kmax);
            WeightedRowStep(Stripes, e, z, s, buf[..], before, orig, start, stop, nr, ss, sk, si, stripe, idx);
            WeightedRowStep(Totals, e, z, s, total[..], beforeTotal, origTotal, start, stop, nr, ss, sk, si, stripe, idx);
          } else {
            TiledSkip(step, n, buf[..], orig, start, stop, nr, ss, sk, si);
            TiledSkip(stepTotal, n, total[..], origTotal, start, stop, nr, ss, sk, si);
          }
        }
        TiledChunkDone(step, n, buf[..], orig, start, stop, nr, ss, sk);
        TiledChunkDone(stepTotal, n, total[..], origTotal, start, stop, nr, ss, sk);
      }
      TiledBlockDone(step, n, buf[..], orig, start, stop, nr, ss, sampleSteps);
      TiledBlockDone(stepTotal, n, total[..], origTotal, start, stop, nr, ss, sampleSteps);
    }
    TiledDone(step, n, buf[..], orig, start, stop, nr, stripeSteps);
    TiledDone(stepTotal, n, total[..], origTotal, start, stop, nr, stripeSteps);
  }
}
