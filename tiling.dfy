/**
 * The stripe layout and the CPU tiling shared by the stripe kernels of
 * src/unifrac_task_impl.hpp.
 *
 * A task covers stripes `start_idx <= stripe < stop_idx`. Stripe `stripe`
 * pairs sample `k` with `(k + stripe + 1) % n_samples` and accumulates into
 * slot `(stripe - start_idx) * n_samples_r + k` of a flat buffer. The CPU
 * loops walk stripes and samples in square tiles of `STEP_SIZE`. Which
 * value a kernel adds for a pair `(k, l)` is a parameter here (`Step`), so
 * the weighted and the unweighted drivers share one account of the
 * tiling: every slot receives its pair's value exactly once, and no
 * other position changes.
 */
module Tiling {
  import opened Arith

  /** `STEP_SIZE` for `double`: the edge of a tile of stripes and of samples. */
  const STEP: nat := 32

  /** The two buffers a kernel accumulates into: `dm_stripes_buf` and `dm_stripes_total_buf`. */
  datatype Buffer = Stripes | Totals

  /** What a kernel adds to the slot of sample `k` when paired with sample `l`. */
  type Step = (nat, nat) -> real

  /** The sample that stripe `stripe` pairs with sample `k`. */
  function Partner(n: nat, k: nat, stripe: nat): (l: nat)
    requires n > 0
    ensures l < n
  {
    (k + stripe + 1) % n
  }

  /** Walking `d` samples on never wraps while the partner stays below `n`. */
  lemma PartnerShift(n: nat, k: nat, stripe: nat, d: nat)
    requires n > 0 && Partner(n, k, stripe) + d < n
    ensures Partner(n, k + d, stripe) == Partner(n, k, stripe) + d
  {
    ModAdd(k + stripe + 1, d, n);
    ModUnique(Partner(n, k, stripe) + d, n, 0, Partner(n, k, stripe) + d);
  }

  /** The wrapped partner update `ls = (ls + w) % n_samples` keeps `ls` the partner of `ks`. */
  lemma PartnerNext(n: nat, k: nat, stripe: nat, w: nat)
    requires n > 0
    ensures (Partner(n, k, stripe) + w) % n == Partner(n, k + w, stripe)
  {
    var x := k + stripe + 1;
    assert Partner(n, k + w, stripe) == (x + w) % n;
    ModAdd(x, w, n);
  }

  /** The end of sample tile `sk`: `std::min(ks + step_size, n_samples)`. */
  function ChunkEnd(n: nat, sk: nat): (r: nat)
    ensures r <= n && r <= sk * STEP + STEP
    ensures r == n || r == sk * STEP + STEP
  {
    if sk * STEP + STEP <= n then sk * STEP + STEP else n
  }

  /** Where stripe `stripe` starts in a buffer of rows of `n_samples_r`: `(stripe - start_idx) * n_samples_r`. */
  function StripeOffset(start: nat, stop: nat, nr: nat, stripe: nat): (idx: nat)
    requires start <= stripe < stop
    ensures idx == (stripe - start) * nr && idx + nr <= (stop - start) * nr
  {
    MulLe(nr, stripe - start + 1, stop - start);
    (stripe - start) * nr
  }

  /** A position below `m` rows of length `nr` lies in one of those rows. */
  lemma RowOf(j: nat, m: nat, nr: nat)
    requires nr > 0 && j < m * nr
    ensures j / nr < m
  {
    if j / nr >= m {
      MulLe(nr, m, j / nr);
    }
  }

  /** Position `j` of a buffer of rows of length `nr` is column `j % nr` of row `j / nr`. */
  lemma Position(j: nat, nr: nat)
    requires nr > 0
    ensures 0 <= j / nr && 0 <= j % nr < nr && j == (j / nr) * nr + j % nr
  {
  }

  /** What the steps of stripe `stripe` on samples `from <= k < upto` add at position `j`, slot `k` at `idx + k`. */
  function RowRaise(step: Step, n: nat, idx: nat, stripe: nat, from: nat, upto: nat, j: int): real
    requires upto <= n
  {
    if idx + from <= j < idx + upto then step(j - idx, Partner(n, j - idx, stripe)) else 0.0
  }

  /** `cur` is `orig` after the steps of stripe `stripe` on samples `from <= k < upto`. */
  ghost predicate RowAdded(step: Step, n: nat, cur: seq<real>, orig: seq<real>,
                           idx: nat, stripe: nat, from: nat, upto: nat)
    requires upto <= n
  {
    && |cur| == |orig|
    && forall j | 0 <= j < |cur| :: cur[j] == orig[j] + RowRaise(step, n, idx, stripe, from, upto, j)
  }

  lemma RowAddedStart(step: Step, n: nat, cur: seq<real>, idx: nat, stripe: nat, from: nat)
    requires from <= n
    ensures RowAdded(step, n, cur, cur, idx, stripe, from, from)
  {
  }

  /** One more single step, on sample `upto`, extends a row. */
  lemma RowAddedNext(step: Step, n: nat, cur: seq<real>, prev: seq<real>, orig: seq<real>,
                     idx: nat, stripe: nat, from: nat, upto: nat)
    requires from <= upto < n && idx + upto < |prev|
    requires RowAdded(step, n, prev, orig, idx, stripe, from, upto)
    requires cur == prev[idx + upto := prev[idx + upto] + step(upto, Partner(n, upto, stripe))]
    ensures RowAdded(step, n, cur, orig, idx, stripe, from, upto + 1)
  {
    forall j | 0 <= j < |cur|
      ensures cur[j] == orig[j] + RowRaise(step, n, idx, stripe, from, upto + 1, j)
    {
    }
  }

  /**
   * What the whole task adds at buffer position `j`: position `j` is
   * sample `j % nr` of stripe `start + j / nr`.
   */
  function TaskRaise(step: Step, n: nat, start: nat, stop: nat, nr: nat, j: int): real
    requires n <= nr && start <= stop
  {
    if nr > 0 && 0 <= j < (stop - start) * nr && j % nr < n then
      step(j % nr, Partner(n, j % nr, start + j / nr))
    else 0.0
  }

  /** `cur` is `orig` after the whole task. */
  ghost predicate TaskAdded(step: Step, n: nat, cur: seq<real>, orig: seq<real>, start: nat, stop: nat, nr: nat)
    requires n <= nr && start <= stop
  {
    && |cur| == |orig|
    && forall j | 0 <= j < |cur| :: cur[j] == orig[j] + TaskRaise(step, n, start, stop, nr, j)
  }

  /**
   * Slot `(q, k)` (stripe `start_idx + q`, sample `k`) is done once the
   * tiled loops reach stripe tile `ss`, sample tile `sk`, stripe `si` of
   * the tile.
   */
  predicate Visited(ss: nat, sk: nat, si: nat, q: nat, k: nat)
  {
    q / STEP < ss || (q / STEP == ss && (k / STEP < sk || (k / STEP == sk && q % STEP < si)))
  }

  /** What the tiled loops have added at position `j` when they reach `(ss, sk, si)`. */
  function Gain(step: Step, n: nat, start: nat, stop: nat, nr: nat, ss: nat, sk: nat, si: nat, j: int): real
    requires n <= nr && start <= stop
  {
    if nr > 0 && 0 <= j && Visited(ss, sk, si, j / nr, j % nr) then TaskRaise(step, n, start, stop, nr, j) else 0.0
  }

  /** `cur` is `orig` after the tiled loops up to `(ss, sk, si)`. */
  ghost predicate Tiled(step: Step, n: nat, cur: seq<real>, orig: seq<real>,
                        start: nat, stop: nat, nr: nat, ss: nat, sk: nat, si: nat)
    requires n <= nr && start <= stop
  {
    && |cur| == |orig|
    && forall j | 0 <= j < |cur| :: cur[j] == orig[j] + Gain(step, n, start, stop, nr, ss, sk, si, j)
  }

  lemma TiledStart(step: Step, n: nat, cur: seq<real>, start: nat, stop: nat, nr: nat)
    requires n <= nr && start <= stop
    ensures Tiled(step, n, cur, cur, start, stop, nr, 0, 0, 0)
  {
    forall j | 0 <= j < |cur|
      ensures Gain(step, n, start, stop, nr, 0, 0, 0, j) == 0.0
    {
      if nr > 0 {
        Position(j, nr);
      }
    }
  }

  /** Inside the row of stripe `start + ss * STEP + si` on sample tile `sk`, the slot is new at `si + 1`. */
  lemma TiledRowInside(step: Step, n: nat, start: nat, stop: nat, nr: nat,
                       ss: nat, sk: nat, si: nat, stripe: nat, idx: nat, j: int)
    requires n <= nr && start <= stop
    requires si < STEP && stripe == start + ss * STEP + si && stripe < stop && idx == (stripe - start) * nr
    requires idx + sk * STEP <= j < idx + ChunkEnd(n, sk)
    ensures Gain(step, n, start, stop, nr, ss, sk, si, j) == 0.0
    ensures Gain(step, n, start, stop, nr, ss, sk, si + 1, j) == step(j - idx, Partner(n, j - idx, stripe))
  {
    var q := ss * STEP + si;
    var k := j - idx;
    ModUnique(q, STEP, ss, si);
    ModUnique(j, nr, q, k);
    ModUnique(k, STEP, sk, k - sk * STEP);
    RowIndex(q, k, nr, stop - start);
  }

  /** Outside that row, moving on to `si + 1` changes nothing. */
  lemma TiledRowOutside(step: Step, n: nat, start: nat, stop: nat, nr: nat,
                        ss: nat, sk: nat, si: nat, stripe: nat, idx: nat, j: int)
    requires n <= nr && start <= stop
    requires si < STEP && stripe == start + ss * STEP + si && idx == (stripe - start) * nr
    requires !(idx + sk * STEP <= j < idx + ChunkEnd(n, sk))
    ensures Gain(step, n, start, stop, nr, ss, sk, si + 1, j) == Gain(step, n, start, stop, nr, ss, sk, si, j)
  {
    if nr > 0 && 0 <= j {
      Position(j, nr);
      var q, k := j / nr, j % nr;
      if q / STEP == ss && k / STEP == sk && q % STEP == si {
        assert q == ss * STEP + si;
        assert j == idx + k;
      }
    }
  }

  /** Running the row of stripe `start + ss * STEP + si` on sample tile `sk` moves the tiled loops on by one stripe. */
  lemma TiledRowStep(step: Step, n: nat, cur: seq<real>, prev: seq<real>, orig: seq<real>,
                     start: nat, stop: nat, nr: nat, ss: nat, sk: nat, si: nat, stripe: nat, idx: nat)
    requires n <= nr && start <= stop
    requires si < STEP && stripe == start + ss * STEP + si && stripe < stop && idx == (stripe - start) * nr
    requires sk * STEP <= n
    requires Tiled(step, n, prev, orig, start, stop, nr, ss, sk, si)
    requires RowAdded(step, n, cur, prev, idx, stripe, sk * STEP, ChunkEnd(n, sk))
    ensures Tiled(step, n, cur, orig, start, stop, nr, ss, sk, si + 1)
  {
    forall j | 0 <= j < |cur|
      ensures cur[j] == orig[j] + Gain(step, n, start, stop, nr, ss, sk, si + 1, j)
    {
      if idx + sk * STEP <= j < idx + ChunkEnd(n, sk) {
        TiledRowInside(step, n, start, stop, nr, ss, sk, si, stripe, idx, j);
      } else {
        TiledRowOutside(step, n, start, stop, nr, ss, sk, si, stripe, idx, j);
      }
    }
  }

  /** A stripe past `stop_idx` adds nothing. */
  lemma TiledSkip(step: Step, n: nat, cur: seq<real>, orig: seq<real>,
                  start: nat, stop: nat, nr: nat, ss: nat, sk: nat, si: nat)
    requires n <= nr && start <= stop
    requires si < STEP && start + ss * STEP + si >= stop
    requires Tiled(step, n, cur, orig, start, stop, nr, ss, sk, si)
    ensures Tiled(step, n, cur, orig, start, stop, nr, ss, sk, si + 1)
  {
    forall j | 0 <= j < |cur|
      ensures Gain(step, n, start, stop, nr, ss, sk, si + 1, j) == Gain(step, n, start, stop, nr, ss, sk, si, j)
    {
      if nr > 0 && j < (stop - start) * nr {
        RowOf(j, stop - start, nr);
      }
    }
  }

  /** After the last stripe of a tile the loops are at the next sample tile. */
  lemma TiledChunkDone(step: Step, n: nat, cur: seq<real>, orig: seq<real>,
                       start: nat, stop: nat, nr: nat, ss: nat, sk: nat)
    requires n <= nr && start <= stop
    requires Tiled(step, n, cur, orig, start, stop, nr, ss, sk, STEP)
    ensures Tiled(step, n, cur, orig, start, stop, nr, ss, sk + 1, 0)
  {
    forall j | 0 <= j < |cur|
      ensures Gain(step, n, start, stop, nr, ss, sk + 1, 0, j) == Gain(step, n, start, stop, nr, ss, sk, STEP, j)
    {
    }
  }

  /** Once the sample tiles cover `n_samples` the loops are at the next stripe tile. */
  lemma TiledBlockDone(step: Step, n: nat, cur: seq<real>, orig: seq<real>,
                       start: nat, stop: nat, nr: nat, ss: nat, sk: nat)
    requires n <= nr && start <= stop
    requires n <= sk * STEP
    requires Tiled(step, n, cur, orig, start, stop, nr, ss, sk, 0)
    ensures Tiled(step, n, cur, orig, start, stop, nr, ss + 1, 0, 0)
  {
    forall j | 0 <= j < |cur|
      ensures Gain(step, n, start, stop, nr, ss + 1, 0, 0, j) == Gain(step, n, start, stop, nr, ss, sk, 0, j)
    {
    }
  }

  /** Once the stripe tiles cover `stop_idx - start_idx` the whole task is done. */
  lemma TiledDone(step: Step, n: nat, cur: seq<real>, orig: seq<real>, start: nat, stop: nat, nr: nat, ss: nat)
    requires n <= nr && start <= stop
    requires stop - start <= ss * STEP
    requires Tiled(step, n, cur, orig, start, stop, nr, ss, 0, 0)
    ensures TaskAdded(step, n, cur, orig, start, stop, nr)
  {
    forall j | 0 <= j < |cur|
      ensures Gain(step, n, start, stop, nr, ss, 0, 0, j) == TaskRaise(step, n, start, stop, nr, j)
    {
      if nr > 0 && j < (stop - start) * nr {
        RowOf(j, stop - start, nr);
      }
    }
  }

  /** After the task, slot `k` of stripe `stripe` holds its old value plus the step on `(k, (k + stripe + 1) % n_samples)`. */
  lemma TaskSlot(step: Step, n: nat, cur: seq<real>, orig: seq<real>, start: nat, stop: nat, nr: nat, stripe: nat, k: nat)
    requires n <= nr && start <= stop
    requires TaskAdded(step, n, cur, orig, start, stop, nr) && (stop - start) * nr <= |cur|
    requires start <= stripe < stop && k < n
    ensures var j := StripeOffset(start, stop, nr, stripe) + k;
            j < |cur| && cur[j] == orig[j] + step(k, (k + stripe + 1) % n)
  {
    var j := StripeOffset(start, stop, nr, stripe) + k;
    ModUnique(j, nr, stripe - start, k);
    RowIndex(stripe - start, k, nr, stop - start);
  }

  /** The task leaves alone every position that is not a slot `(stripe, k)` with `k < n_samples`. */
  lemma TaskFrame(step: Step, n: nat, cur: seq<real>, orig: seq<real>, start: nat, stop: nat, nr: nat, j: nat)
    requires n <= nr && start <= stop
    requires TaskAdded(step, n, cur, orig, start, stop, nr) && j < |cur|
    requires j >= (stop - start) * nr || (nr > 0 && j % nr >= n)
    ensures cur[j] == orig[j]
  {
  }
}
