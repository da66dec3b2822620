/**
 * The CPU driver loops of the unweighted kernels in
 * src/unifrac_task_impl.hpp (`run_UnweightedTask_T`,
 * `run_UnnormalizedUnweightedTask_T`): build the byte lookup table, flag
 * the all-zero samples and store their sums, then walk stripes and
 * samples in square tiles of `STEP_SIZE`, running `Unweighted1` on
 * `(k, (k + stripe + 1) % n_samples)` for every stripe below `stop_idx`
 * and every sample below `n_samples`.
 */
module UnweightedTask {
  import opened Tiling
  import opened UnweightedBits
  import opened UnweightedTable
  import opened Unweighted

  /** The unweighted kernels' step on a pair, as a `Step` of the tiling: `Xor` for the distance, `Or` for the total. */
  ghost function UnweightedStep(m: Mix, e: Packed, zcheck: seq<bool>, stripeSums: seq<real>): Step
  {
    (k: nat, l: nat) =>
      if Shaped(e) && e.nSamples <= |zcheck| && e.nSamples <= |stripeSums| && k < e.nSamples && l < e.nSamples
      then UnweightedDelta(m, e, zcheck, stripeSums, k, l) else 0.0
  }

  /** The first `x` samples, or all of them: how far a tile row has got. */
  function Below(n: nat, x: nat): (r: nat)
    ensures r <= n && r <= x && (r == x || r == n)
  {
    if x <= n then x else n
  }

  /** One pass of a tile row: the step on sample `k` extends the row by one slot. */
  lemma RowNext(m: Mix, e: Packed, zcheck: seq<bool>, stripeSums: seq<real>,
                cur: seq<real>, prev: seq<real>, orig: seq<real>, idx: nat, stripe: nat, ks: nat, k: nat)
    requires Shaped(e) && e.nSamples <= |zcheck| && e.nSamples <= |stripeSums|
    requires ks <= k < e.nSamples && idx + k < |prev|
    requires RowAdded(UnweightedStep(m, e, zcheck, stripeSums), e.nSamples, prev, orig, idx, stripe, ks, k)
    requires cur == prev[idx + k := prev[idx + k] + UnweightedDelta(m, e, zcheck, stripeSums, k, Partner(e.nSamples, k, stripe))]
    ensures RowAdded(UnweightedStep(m, e, zcheck, stripeSums), e.nSamples, cur, orig, idx, stripe, ks, k + 1)
  {
    var step := UnweightedStep(m, e, zcheck, stripeSums);
    assert step(k, Partner(e.nSamples, k, stripe)) == UnweightedDelta(m, e, zcheck, stripeSums, k, Partner(e.nSamples, k, stripe));
    RowAddedNext(step, e.nSamples, cur, prev, orig, idx, stripe, ks, k);
  }

  /**
   * The innermost loop of a tile: stripe `stripe` (slot base `idx`),
   * samples `ks + ik` for `ik < STEP_SIZE` that are below `n_samples`.
   */
  method UnweightedRow(buf: array<real>, total: array<real>, computeTotal: bool,
                       zcheck: seq<bool>, stripeSums: seq<real>, t: seq<real>, e: Packed,
                       idx: nat, stripe: nat, sk: nat)
    requires Shaped(e) && TableOk(e, t) && e.nSamples <= |zcheck| && e.nSamples <= |stripeSums| && buf != total
    requires sk * STEP <= e.nSamples && idx + ChunkEnd(e.nSamples, sk) <= buf.Length
    requires computeTotal ==> idx + ChunkEnd(e.nSamples, sk) <= total.Length
    modifies buf, total
    ensures RowAdded(UnweightedStep(Xor, e, zcheck, stripeSums), e.nSamples, buf[..], old(buf[..]),
                     idx, stripe, sk * STEP, ChunkEnd(e.nSamples, sk))
    ensures computeTotal ==> RowAdded(UnweightedStep(Or, e, zcheck, stripeSums), e.nSamples, total[..], old(total[..]),
                                      idx, stripe, sk * STEP, ChunkEnd(e.nSamples, sk))
    ensures !computeTotal ==> total[..] == old(total[..])
  {
    var n := e.nSamples;
    var ks := sk * STEP;
    ghost var stepX, stepO := UnweightedStep(Xor, e, zcheck, stripeSums), UnweightedStep(Or, e, zcheck, stripeSums);
    RowAddedStart(stepX, n, buf[..], idx, stripe, ks);
    RowAddedStart(stepO, n, total[..], idx, stripe, ks);
    for ik := 0 to STEP
      invariant RowAdded(stepX, n, buf[..], old(buf[..]), idx, stripe, ks, Below(n, ks + ik))
      invariant computeTotal ==> RowAdded(stepO, n, total[..], old(total[..]), idx, stripe, ks, Below(n, ks + ik))
      invariant !computeTotal ==> total[..] == old(total[..])
    {
      var k := ks + ik;
      if k < n {
        RowSample(buf, total, computeTotal, zcheck, stripeSums, t, e, idx, stripe, ks, k, old(buf[..]), old(total[..]));
      }
    }
  }

  /** One sample of a tile row: `Unweighted1` on `k` and its partner extends the row by one slot. */
  method RowSample(buf: array<real>, total: array<real>, computeTotal: bool,
                   zcheck: seq<bool>, stripeSums: seq<real>, t: seq<real>, e: Packed,
                   idx: nat, stripe: nat, ks: nat, k: nat, ghost buf0: seq<real>, ghost total0: seq<real>)
    requires Shaped(e) && TableOk(e, t) && e.nSamples <= |zcheck| && e.nSamples <= |stripeSums| && buf != total
    requires ks <= k < e.nSamples && idx + k < buf.Length && (computeTotal ==> idx + k < total.Length)
    requires RowAdded(UnweightedStep(Xor, e, zcheck, stripeSums), e.nSamples, buf[..], buf0, idx, stripe, ks, k)
    requires computeTotal ==> RowAdded(UnweightedStep(Or, e, zcheck, stripeSums), e.nSamples, total[..], total0, idx, stripe, ks, k)
    requires !computeTotal ==> total[..] == total0
    modifies buf, total
    ensures RowAdded(UnweightedStep(Xor, e, zcheck, stripeSums), e.nSamples, buf[..], buf0, idx, stripe, ks, k + 1)
    ensures computeTotal ==>
              RowAdded(UnweightedStep(Or, e, zcheck, stripeSums), e.nSamples, total[..], total0, idx, stripe, ks, k + 1)
    ensures !computeTotal ==> total[..] == total0
  {
    var l1 := (k + stripe + 1) % e.nSamples;
    ghost var before, beforeTotal := buf[..], total[..];
    Unweighted1(buf, total, computeTotal, zcheck, stripeSums, t, e, idx, k, l1);
    RowNext(Xor, e, zcheck, stripeSums, buf[..], before, buf0, idx, stripe, ks, k);
    if computeTotal {
      RowNext(Or, e, zcheck, stripeSums, total[..], beforeTotal, total0, idx, stripe, ks, k);
    }
  }

  /** The tiled loops over stripes `start_idx <= stripe < stop_idx` and all samples, once the table, flags and sums are ready. */
  method UnweightedTiles(buf: array<real>, total: array<real>, computeTotal: bool,
                         zcheck: seq<bool>, stripeSums: seq<real>, t: seq<real>, e: Packed,
                         start: nat, stop: nat, nr: nat)
    requires Shaped(e) && TableOk(e, t) && e.nSamples <= |zcheck| && e.nSamples <= |stripeSums| && buf != total
    requires start <= stop && e.nSamples <= nr && (stop - start) * nr <= buf.Length
    requires computeTotal ==> (stop - start) * nr <= total.Length
    modifies buf, total
    ensures TaskAdded(UnweightedStep(Xor, e, zcheck, stripeSums), e.nSamples, buf[..], old(buf[..]), start, stop, nr)
    ensures computeTotal ==>
              TaskAdded(UnweightedStep(Or, e, zcheck, stripeSums), e.nSamples, total[..], old(total[..]), start, stop, nr)
    ensures !computeTotal ==> total[..] == old(total[..])
  {
    var n := e.nSamples;
    var sampleSteps := (n + (STEP - 1)) / STEP;
    var stripeSteps := ((stop - start) + (STEP - 1)) / STEP;
    ghost var orig, origTotal := buf[..], total[..];
    ghost var stepX, stepO := UnweightedStep(Xor, e, zcheck, stripeSums), UnweightedStep(Or, e, zcheck, stripeSums);
    TiledStart(stepX, n, orig, start, stop, nr);
    TiledStart(stepO, n, origTotal, start, stop, nr);
    for ss := 0 to stripeSteps
      invariant Tiled(stepX, n, buf[..], orig, start, stop, nr, ss, 0, 0)
      invariant computeTotal ==> Tiled(stepO, n, total[..], origTotal, start, stop, nr, ss, 0, 0)
      invariant !computeTotal ==> total[..] == origTotal
    {
      for sk := 0 to sampleSteps
        invariant Tiled(stepX, n, buf[..], orig, start, stop, nr, ss, sk, 0)
        invariant computeTotal ==> Tiled(stepO, n, total[..], origTotal, start, stop, nr, ss, sk, 0)
        invariant !computeTotal ==> total[..] == origTotal
      {
        for si := 0 to STEP
          invariant Tiled(stepX, n, buf[..], orig, start, stop, nr, ss, sk, si)
          invariant computeTotal ==> Tiled(stepO, n, total[..], origTotal, start, stop, nr, ss, sk, si)
          invariant !computeTotal ==> total[..] == origTotal
        {
          var stripe := start + ss * STEP + si;
          if stripe < stop {
            var idx := StripeOffset(start, stop, nr, stripe);
            ghost var before, beforeTotal := buf[..], total[..];
            UnweightedRow(buf, total, computeTotal, zcheck, stripeSums, t, e, idx, stripe, sk);
            TiledRowStep(stepX, n, buf[..], before, orig, start, stop, nr, ss, sk, si, stripe, idx);
            if computeTotal {
              TiledRowStep(stepO, n, total[..], beforeTotal, origTotal, start, stop, nr, ss, sk, si, stripe, idx);
            }
          } else {
            TiledSkip(stepX, n, buf[..], orig, start, stop, nr, ss, sk, si);
            if computeTotal {
              TiledSkip(stepO, n, total[..], origTotal, start, stop, nr, ss, sk, si);
            }
          }
        }
        TiledChunkDone(stepX, n, buf[..], orig, start, stop, nr, ss, sk);
        if computeTotal {
          TiledChunkDone(stepO, n, total[..], origTotal, start, stop, nr, ss, sk);
        }
      }
      TiledBlockDone(stepX, n, buf[..], orig, start, stop, nr, ss, sampleSteps);
      if computeTotal {
        TiledBlockDone(stepO, n, total[..], origTotal, start, stop, nr, ss, sampleSteps);
      }
    }
    TiledDone(stepX, n, buf[..], orig, start, stop, nr, stripeSteps);
    if computeTotal {
      TiledDone(stepO, n, total[..], origTotal, start, stop, nr, stripeSteps);
    }
  }

  /**
   * `run_UnweightedTask_T` on the CPU: the table in `sums`, the flags and
   * sums, then every slot of the task receives `Unweighted1` on its pair
   * in both buffers. `idxs` is left alone (only an accelerator uses it).
   */
  method RunUnweightedTask(e: Packed, start: nat, stop: nat, nr: nat, buf: array<real>, total: array<real>,
                           sums: array<real>, zcheck: array<bool>, idxs: array<nat>, stripeSums: array<real>)
    requires Shaped(e) && start <= stop && e.nSamples <= nr
    requires (stop - start) * nr <= buf.Length && (stop - start) * nr <= total.Length
    requires FilledEls(e.filledEmbs) * 2048 <= sums.Length
    requires e.nSamples <= zcheck.Length && e.nSamples <= idxs.Length && e.nSamples <= stripeSums.Length
    requires buf != total && buf != sums && buf != stripeSums && total != sums && total != stripeSums && sums != stripeSums
    modifies buf, total, sums, zcheck, idxs, stripeSums
    ensures TableOk(e, sums[..]) && Computed(e, zcheck[..], stripeSums[..]) && idxs[..] == old(idxs[..])
    ensures TaskAdded(UnweightedStep(Xor, e, zcheck[..], stripeSums[..]), e.nSamples, buf[..], old(buf[..]), start, stop, nr)
    ensures TaskAdded(UnweightedStep(Or, e, zcheck[..], stripeSums[..]), e.nSamples, total[..], old(total[..]), start, stop, nr)
  {
    BuildTable(sums, e);
    UnweightedZerosAndSums(zcheck, idxs, stripeSums, sums[..], e, false);
    UnweightedTiles(buf, total, true, zcheck[..], stripeSums[..], sums[..], e, start, stop, nr);
  }

  /**
   * `run_UnnormalizedUnweightedTask_T` on the CPU: as `RunUnweightedTask`
   * with no totals buffer (the kernel is passed a null pointer, here an
   * empty array that is never written).
   */
  method RunUnnormalizedUnweightedTask(e: Packed, start: nat, stop: nat, nr: nat, buf: array<real>,
                                       sums: array<real>, zcheck: array<bool>, idxs: array<nat>, stripeSums: array<real>)
    requires Shaped(e) && start <= stop && e.nSamples <= nr
    requires (stop - start) * nr <= buf.Length && FilledEls(e.filledEmbs) * 2048 <= sums.Length
    requires e.nSamples <= zcheck.Length && e.nSamples <= idxs.Length && e.nSamples <= stripeSums.Length
    requires buf != sums && buf != stripeSums && sums != stripeSums
    modifies buf, sums, zcheck, idxs, stripeSums
    ensures TableOk(e, sums[..]) && Computed(e, zcheck[..], stripeSums[..]) && idxs[..] == old(idxs[..])
    ensures TaskAdded(UnweightedStep(Xor, e, zcheck[..], stripeSums[..]), e.nSamples, buf[..], old(buf[..]), start, stop, nr)
  {
    BuildTable(sums, e);
    UnweightedZerosAndSums(zcheck, idxs, stripeSums, sums[..], e, false);
    var noTotal := new real[0];
    UnweightedTiles(buf, noTotal, false, zcheck[..], stripeSums[..], sums[..], e, start, stop, nr);
  }

  /**
   * With the flags and sums the task computes, each slot of the distance
   * buffer receives the brute-force unique length of its pair (`Xor`:
   * branches in exactly one sample) and each slot of the totals the
   * brute-force spanned length (`Or`: branches in either).
   */
  lemma TaskIsBruteForce(m: Mix, e: Packed, zcheck: seq<bool>, stripeSums: seq<real>,
                         cur: seq<real>, orig: seq<real>, start: nat, stop: nat, nr: nat, stripe: nat, k: nat)
    requires Shaped(e) && e.nSamples <= nr && start <= stop && Computed(e, zcheck, stripeSums) && m != Alone
    requires TaskAdded(UnweightedStep(m, e, zcheck, stripeSums), e.nSamples, cur, orig, start, stop, nr)
    requires (stop - start) * nr <= |cur|
    requires start <= stripe < stop && k < e.nSamples
    ensures var j := StripeOffset(start, stop, nr, stripe) + k;
            j < |cur| && cur[j] == orig[j] + BranchSum(e, m, k, (k + stripe + 1) % e.nSamples, FilledEls(e.filledEmbs))
  {
    var l := (k + stripe + 1) % e.nSamples;
    TaskSlot(UnweightedStep(m, e, zcheck, stripeSums), e.nSamples, cur, orig, start, stop, nr, stripe, k);
    ShortcutIsBruteForce(m, e, zcheck, stripeSums, k, l);
  }
}
