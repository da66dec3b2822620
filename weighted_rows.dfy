/**
 * One row of the CPU driver loops of the weighted kernels in
 * src/unifrac_task_impl.hpp: stripe `stripe`, samples `ks <= k < kmax`
 * of one sample tile. The samples go eight, then four, then one at a
 * time, the partner index `ls` starting at `(ks + stripe + 1) % n_samples`
 * and wrapping around `n_samples`; a grouped step is taken only while
 * its partners do not wrap. The row's promise is that each sample `k`
 * of the range receives exactly the single-pair step on
 * `(k, (k + stripe + 1) % n_samples)`.
 */
module WeightedRows {
  import opened Tiling
  import opened Weighted

  /** The weighted kernels' step on a pair of samples, as a `Step` of the tiling. */
  ghost function WeightedStep(b: Buffer, e: Embedding, zcheck: seq<bool>, sums: seq<real>): Step
  {
    (k: nat, l: nat) =>
      if Shaped(e) && e.nSamples <= |zcheck| && e.nSamples <= |sums| && k < e.nSamples && l < e.nSamples
      then Delta(b, e, zcheck, sums, k, l) else 0.0
  }

  /** The single steps of stripe `stripe` on samples `ks <= k < upto`, in order, slot `k` at `idx + k`. */
  ghost function RowSteps(b: Buffer, e: Embedding, zcheck: seq<bool>, sums: seq<real>,
                          cur: seq<real>, idx: nat, stripe: nat, ks: nat, upto: nat): (r: seq<real>)
    requires Shaped(e) && 0 < e.nSamples && e.nSamples <= |zcheck| && e.nSamples <= |sums|
    requires ks <= upto <= e.nSamples && idx + upto <= |cur|
    ensures |r| == |cur|
    decreases upto - ks
  {
    if ks == upto then cur
    else
      var next := cur[idx + ks := cur[idx + ks] + Delta(b, e, zcheck, sums, ks, Partner(e.nSamples, ks, stripe))];
      RowSteps(b, e, zcheck, sums, next, idx, stripe, ks + 1, upto)
  }

  /**
   * A grouped step on `(ks + i, ls + i)`, `i < w`, with `ls` the partner
   * of `ks` and no wrap-around inside the group, does the row's next `w`
   * single steps.
   */
  lemma {:induction false} RowStepsRepeat(b: Buffer, e: Embedding, zcheck: seq<bool>, sums: seq<real>,
                                          cur: seq<real>, idx: nat, stripe: nat, ks: nat, ls: nat, w: nat, upto: nat)
    requires Shaped(e) && 0 < e.nSamples && e.nSamples <= |zcheck| && e.nSamples <= |sums|
    requires ks + w <= upto <= e.nSamples && ls + w <= e.nSamples && idx + upto <= |cur|
    requires ls == Partner(e.nSamples, ks, stripe)
    ensures RowSteps(b, e, zcheck, sums, Repeat(b, e, zcheck, sums, cur, idx, ks, ls, w), idx, stripe, ks + w, upto)
            == RowSteps(b, e, zcheck, sums, cur, idx, stripe, ks, upto)
    decreases w
  {
    if w > 1 {
      var next := Repeat(b, e, zcheck, sums, cur, idx, ks, ls, 1);
      assert next == cur[idx + ks := cur[idx + ks] + Delta(b, e, zcheck, sums, ks, ls)];
      PartnerShift(e.nSamples, ks, stripe, 1);
      RowStepsRepeat(b, e, zcheck, sums, next, idx, stripe, ks + 1, ls + 1, w - 1, upto);
    }
  }

  /**
   * One pass of a row loop: after the grouped step on `(ks + i, ls + i)`,
   * `i < w`, the rest of the row still leads to the same result, and the
   * wrapped update of `ls` is the partner of `ks + w`.
   */
  lemma RowAdvance(b: Buffer, e: Embedding, zcheck: seq<bool>, sums: seq<real>,
                   before: seq<real>, after: seq<real>, goal: seq<real>,
                   idx: nat, stripe: nat, ks: nat, ls: nat, w: nat, upto: nat)
    requires Shaped(e) && 0 < e.nSamples && e.nSamples <= |zcheck| && e.nSamples <= |sums|
    requires ks + w <= upto <= e.nSamples && ls + w <= e.nSamples && idx + upto <= |before|
    requires ls == Partner(e.nSamples, ks, stripe)
    requires RowSteps(b, e, zcheck, sums, before, idx, stripe, ks, upto) == goal
    requires after == Repeat(b, e, zcheck, sums, before, idx, ks, ls, w)
    ensures RowSteps(b, e, zcheck, sums, after, idx, stripe, ks + w, upto) == goal
    ensures (ls + w) % e.nSamples == Partner(e.nSamples, ks + w, stripe)
  {
    RowStepsRepeat(b, e, zcheck, sums, before, idx, stripe, ks, ls, w, upto);
    PartnerNext(e.nSamples, ks, stripe, w);
  }

  /** `RowAdvance` for the single-pair kernel, whose result is stated as an update of one slot. */
  lemma RowAdvanceOne(b: Buffer, e: Embedding, zcheck: seq<bool>, sums: seq<real>,
                      before: seq<real>, after: seq<real>, goal: seq<real>,
                      idx: nat, stripe: nat, ks: nat, ls: nat, upto: nat)
    requires Shaped(e) && 0 < e.nSamples && e.nSamples <= |zcheck| && e.nSamples <= |sums|
    requires ks < upto <= e.nSamples && idx + upto <= |before|
    requires ls == Partner(e.nSamples, ks, stripe)
    requires RowSteps(b, e, zcheck, sums, before, idx, stripe, ks, upto) == goal
    requires after == before[idx + ks := before[idx + ks] + Delta(b, e, zcheck, sums, ks, ls)]
    ensures RowSteps(b, e, zcheck, sums, after, idx, stripe, ks + 1, upto) == goal
    ensures (ls + 1) % e.nSamples == Partner(e.nSamples, ks + 1, stripe)
  {
    RepeatOne(b, e, zcheck, sums, before, idx, ks, ls);
    RowAdvance(b, e, zcheck, sums, before, after, goal, idx, stripe, ks, ls, 1, upto);
  }

  /** The row's single steps raise each slot `idx + k`, `ks <= k < upto`, once. */
  lemma {:induction false} RowStepsAdded(b: Buffer, e: Embedding, zcheck: seq<bool>, sums: seq<real>,
                                         cur: seq<real>, idx: nat, stripe: nat, ks: nat, upto: nat)
    requires Shaped(e) && 0 < e.nSamples && e.nSamples <= |zcheck| && e.nSamples <= |sums|
    requires ks <= upto <= e.nSamples && idx + upto <= |cur|
    ensures RowAdded(WeightedStep(b, e, zcheck, sums), e.nSamples,
                     RowSteps(b, e, zcheck, sums, cur, idx, stripe, ks, upto), cur, idx, stripe, ks, upto)
    decreases upto - ks
  {
    if ks < upto {
      var next := Repeat(b, e, zcheck, sums, cur, idx, ks, Partner(e.nSamples, ks, stripe), 1);
      assert next == cur[idx + ks := cur[idx + ks] + Delta(b, e, zcheck, sums, ks, Partner(e.nSamples, ks, stripe))];
      RowStepsAdded(b, e, zcheck, sums, next, idx, stripe, ks + 1, upto);
    }
  }

  /**
   * The eight-wide loop of a row: while eight samples remain in the tile
   * and eight partners remain before `n_samples`, the eight-pair kernel
   * runs and `ls` moves on by eight, wrapping.
   */
  method UnnormalizedEights(buf: array<real>, zcheck: seq<bool>, sums: seq<real>, e: Embedding,
                            idx: nat, stripe: nat, ks0: nat, ls0: nat, kmax: nat) returns (ks: nat, ls: nat)
    requires Shaped(e) && Consistent(e, zcheck, sums) && 0 < e.nSamples
    requires ks0 <= kmax <= e.nSamples && idx + kmax <= buf.Length
    requires ls0 == Partner(e.nSamples, ks0, stripe)
    modifies buf
    ensures ks0 <= ks <= kmax && ls == Partner(e.nSamples, ks, stripe)
    ensures RowSteps(Stripes, e, zcheck, sums, buf[..], idx, stripe, ks, kmax)
            == RowSteps(Stripes, e, zcheck, sums, old(buf[..]), idx, stripe, ks0, kmax)
  {
    var n := e.nSamples;
    ks, ls := ks0, ls0;
    ghost var goal := RowSteps(Stripes, e, zcheck, sums, buf[..], idx, stripe, ks, kmax);
    while ks + 8 <= kmax && n - ls >= 8
      invariant ks0 <= ks <= kmax && ls == Partner(n, ks, stripe)
      invariant RowSteps(Stripes, e, zcheck, sums, buf[..], idx, stripe, ks, kmax) == goal
      decreases kmax - ks
    {
      ghost var before := buf[..];
      UnnormalizedWeighted8(buf, zcheck, sums, e, idx, ks, ls);
      RowAdvance(Stripes, e, zcheck, sums, before, buf[..], goal, idx, stripe, ks, ls, 8, kmax);
      ks := ks + 8;
      ls := (ls + 8) % n;
    }
  }

  /** The four-wide loop of a row, as `UnnormalizedEights` with the four-pair kernel. */
  method UnnormalizedFours(buf: array<real>, zcheck: seq<bool>, sums: seq<real>, e: Embedding,
                           idx: nat, stripe: nat, ks0: nat, ls0: nat, kmax: nat) returns (ks: nat, ls: nat)
    requires Shaped(e) && Consistent(e, zcheck, sums) && 0 < e.nSamples
    requires ks0 <= kmax <= e.nSamples && idx + kmax <= buf.Length
    requires ls0 == Partner(e.nSamples, ks0, stripe)
    modifies buf
    ensures ks0 <= ks <= kmax && ls == Partner(e.nSamples, ks, stripe)
    ensures RowSteps(Stripes, e, zcheck, sums, buf[..], idx, stripe, ks, kmax)
            == RowSteps(Stripes, e, zcheck, sums, old(buf[..]), idx, stripe, ks0, kmax)
  {
    var n := e.nSamples;
    ks, ls := ks0, ls0;
    ghost var goal := RowSteps(Stripes, e, zcheck, sums, buf[..], idx, stripe, ks, kmax);
    while ks + 4 <= kmax && n - ls >= 4
      invariant ks0 <= ks <= kmax && ls == Partner(n, ks, stripe)
      invariant RowSteps(Stripes, e, zcheck, sums, buf[..], idx, stripe, ks, kmax) == goal
      decreases kmax - ks
    {
      ghost var before := buf[..];
      UnnormalizedWeighted4(buf, zcheck, sums, e, idx, ks, ls);
      RowAdvance(Stripes, e, zcheck, sums, before, buf[..], goal, idx, stripe, ks, ls, 4, kmax);
      ks := ks + 4;
      ls := (ls + 4) % n;
    }
  }

  /** The closing loop of a row: the single-pair kernel on each remaining sample of the tile. */
  method UnnormalizedOnes(buf: array<real>, zcheck: seq<bool>, sums: seq<real>, e: Embedding,
                          idx: nat, stripe: nat, ks0: nat, ls0: nat, kmax: nat)
    requires Shaped(e) && 0 < e.nSamples && e.nSamples <= |zcheck| && e.nSamples <= |sums|
    requires ks0 <= kmax <= e.nSamples && idx + kmax <= buf.Length
    requires ls0 == Partner(e.nSamples, ks0, stripe)
    modifies buf
    ensures buf[..] == RowSteps(Stripes, e, zcheck, sums, old(buf[..]), idx, stripe, ks0, kmax)
  {
    var n := e.nSamples;
    var ks, ls := ks0, ls0;
    ghost var goal := RowSteps(Stripes, e, zcheck, sums, buf[..], idx, stripe, ks, kmax);
    while ks < kmax
      invariant ks0 <= ks <= kmax && ls == Partner(n, ks, stripe)
      invariant RowSteps(Stripes, e, zcheck, sums, buf[..], idx, stripe, ks, kmax) == goal
      decreases kmax - ks
    {
      ghost var before := buf[..];
      UnnormalizedWeighted1(buf, zcheck, sums, e, idx, ks, ls);
      RowAdvanceOne(Stripes, e, zcheck, sums, before, buf[..], goal, idx, stripe, ks, ls, kmax);
      ks := ks + 1;
      ls := (ls + 1) % n;
    }
  }

  /**
   * The body of the CPU loop for one stripe and one sample tile
   * (`if (stripe < stop_idx) { ... }`), from `ks` on, once `idx` and
   * `kmax` are known: eight-wide steps, then four-wide, then single
   * steps, `ls` starting at the partner of `ks`.
   */
  method UnnormalizedRow(buf: array<real>, zcheck: seq<bool>, sums: seq<real>, e: Embedding,
                         idx: nat, stripe: nat, ks: nat, kmax: nat)
    requires Shaped(e) && Consistent(e, zcheck, sums) && 0 < e.nSamples
    requires ks <= kmax <= e.nSamples && idx + kmax <= buf.Length
    modifies buf
    ensures buf[..] == RowSteps(Stripes, e, zcheck, sums, old(buf[..]), idx, stripe, ks, kmax)
  {
    var ls := (ks + stripe + 1) % e.nSamples;
    var ks8, ls8 := UnnormalizedEights(buf, zcheck, sums, e, idx, stripe, ks, ls, kmax);
    var ks4, ls4 := UnnormalizedFours(buf, zcheck, sums, e, idx, stripe, ks8, ls8, kmax);
    UnnormalizedOnes(buf, zcheck, sums, e, idx, stripe, ks4, ls4, kmax);
  }

  /** The eight-wide loop of a normalized row, writing both buffers. */
  method NormalizedEights(buf: array<real>, total: array<real>, zcheck: seq<bool>, sums: seq<real>, e: Embedding,
                          idx: nat, stripe: nat, ks0: nat, ls0: nat, kmax: nat) returns (ks: nat, ls: nat)
    requires Shaped(e) && Consistent(e, zcheck, sums) && 0 < e.nSamples && buf != total
    requires ks0 <= kmax <= e.nSamples && idx + kmax <= buf.Length && idx + kmax <= total.Length
    requires ls0 == Partner(e.nSamples, ks0, stripe)
    modifies buf, total
    ensures ks0 <= ks <= kmax && ls == Partner(e.nSamples, ks, stripe)
    ensures RowSteps(Stripes, e, zcheck, sums, buf[..], idx, stripe, ks, kmax)
            == RowSteps(Stripes, e, zcheck, sums, old(buf[..]), idx, stripe, ks0, kmax)
    ensures RowSteps(Totals, e, zcheck, sums, total[..], idx, stripe, ks, kmax)
            == RowSteps(Totals, e, zcheck, sums, old(total[..]), idx, stripe, ks0, kmax)
  {
    var n := e.nSamples;
    ks, ls := ks0, ls0;
    ghost var goal := RowSteps(Stripes, e, zcheck, sums, buf[..], idx, stripe, ks, kmax);
    ghost var goalTotal := RowSteps(Totals, e, zcheck, sums, total[..], idx, stripe, ks, kmax);
    while ks + 8 <= kmax && n - ls >= 8
      invariant ks0 <= ks <= kmax && ls == Partner(n, ks, stripe)
      invariant RowSteps(Stripes, e, zcheck, sums, buf[..], idx, stripe, ks, kmax) == goal
      invariant RowSteps(Totals, e, zcheck, sums, total[..], idx, stripe, ks, kmax) == goalTotal
      decreases kmax - ks
    {
      ghost var before, beforeTotal := buf[..], total[..];
      NormalizedWeighted8(buf, total, zcheck, sums, e, idx, ks, ls);
      RowAdvance(Stripes, e, zcheck, sums, before, buf[..], goal, idx, stripe, ks, ls, 8, kmax);
      RowAdvance(Totals, e, zcheck, sums, beforeTotal, total[..], goalTotal, idx, stripe, ks, ls, 8, kmax);
      ks := ks + 8;
      ls := (ls + 8) % n;
    }
  }

  /** The four-wide loop of a normalized row, writing both buffers. */
  method NormalizedFours(buf: array<real>, total: array<real>, zcheck: seq<bool>, sums: seq<real>, e: Embedding,
                         idx: nat, stripe: nat, ks0: nat, ls0: nat, kmax: nat) returns (ks: nat, ls: nat)
    requires Shaped(e) && Consistent(e, zcheck, sums) && 0 < e.nSamples && buf != total
    requires ks0 <= kmax <= e.nSamples && idx + kmax <= buf.Length && idx + kmax <= total.Length
    requires ls0 == Partner(e.nSamples, ks0, stripe)
    modifies buf, total
    ensures ks0 <= ks <= kmax && ls == Partner(e.nSamples, ks, stripe)
    ensures RowSteps(Stripes, e, zcheck, sums, buf[..], idx, stripe, ks, kmax)
            == RowSteps(Stripes, e, zcheck, sums, old(buf[..]), idx, stripe, ks0, kmax)
    ensures RowSteps(Totals, e, zcheck, sums, total[..], idx, stripe, ks, kmax)
            == RowSteps(Totals, e, zcheck, sums, old(total[..]), idx, stripe, ks0, kmax)
  {
    var n := e.nSamples;
    ks, ls := ks0, ls0;
    ghost var goal := RowSteps(Stripes, e, zcheck, sums, buf[..], idx, stripe, ks, kmax);
    ghost var goalTotal := RowSteps(Totals, e, zcheck, sums, total[..], idx, stripe, ks, kmax);
    while ks + 4 <= kmax && n - ls >= 4
      invariant ks0 <= ks <= kmax && ls == Partner(n, ks, stripe)
      invariant RowSteps(Stripes, e, zcheck, sums, buf[..], idx, stripe, ks, kmax) == goal
      invariant RowSteps(Totals, e, zcheck, sums, total[..], idx, stripe, ks, kmax) == goalTotal
      decreases kmax - ks
    {
      ghost var before, beforeTotal := buf[..], total[..];
      NormalizedWeighted4(buf, total, zcheck, sums, e, idx, ks, ls);
      RowAdvance(Stripes, e, zcheck, sums, before, buf[..], goal, idx, stripe, ks, ls, 4, kmax);
      RowAdvance(Totals, e, zcheck, sums, beforeTotal, total[..], goalTotal, idx, stripe, ks, ls, 4, kmax);
      ks := ks + 4;
      ls := (ls + 4) % n;
    }
  }

  /** The closing loop of a normalized row: the single-pair kernel on each remaining sample. */
  method NormalizedOnes(buf: array<real>, total: array<real>, zcheck: seq<bool>, sums: seq<real>, e: Embedding,
                        idx: nat, stripe: nat, ks0: nat, ls0: nat, kmax: nat)
    requires Shaped(e) && 0 < e.nSamples && e.nSamples <= |zcheck| && e.nSamples <= |sums| && buf != total
    requires ks0 <= kmax <= e.nSamples && idx + kmax <= buf.Length && idx + kmax <= total.Length
    requires ls0 == Partner(e.nSamples, ks0, stripe)
    modifies buf, total
    ensures buf[..] == RowSteps(Stripes, e, zcheck, sums, old(buf[..]), idx, stripe, ks0, kmax)
    ensures total[..] == RowSteps(Totals, e, zcheck, sums, old(total[..]), idx, stripe, ks0, kmax)
  {
    var n := e.nSamples;
    var ks, ls := ks0, ls0;
    ghost var goal := RowSteps(Stripes, e, zcheck, sums, buf[..], idx, stripe, ks, kmax);
    ghost var goalTotal := RowSteps(Totals, e, zcheck, sums, total[..], idx, stripe, ks, kmax);
    while ks < kmax
      invariant ks0 <= ks <= kmax && ls == Partner(n, ks, stripe)
      invariant RowSteps(Stripes, e, zcheck, sums, buf[..], idx, stripe, ks, kmax) == goal
      invariant RowSteps(Totals, e, zcheck, sums, total[..], idx, stripe, ks, kmax) == goalTotal
      decreases kmax - ks
    {
      ghost var before, beforeTotal := buf[..], total[..];
      NormalizedWeighted1(buf, total, zcheck, sums, e, idx, ks, ls);
      RowAdvanceOne(Stripes, e, zcheck, sums, before, buf[..], goal, idx, stripe, ks, ls, kmax);
      RowAdvanceOne(Totals, e, zcheck, sums, beforeTotal, total[..], goalTotal, idx, stripe, ks, ls, kmax);
      ks := ks + 1;
      ls := (ls + 1) % n;
    }
  }

  /** A row of the normalized task: the same loops as `UnnormalizedRow`, each step also adding to the totals. */
  method NormalizedRow(buf: array<real>, total: array<real>, zcheck: seq<bool>, sums: seq<real>, e: Embedding,
                       idx: nat, stripe: nat, ks: nat, kmax: nat)
    requires Shaped(e) && Consistent(e, zcheck, sums) && 0 < e.nSamples && buf != total
    requires ks <= kmax <= e.nSamples && idx + kmax <= buf.Length && idx + kmax <= total.Length
    modifies buf, total
    ensures buf[..] == RowSteps(Stripes, e, zcheck, sums, old(buf[..]), idx, stripe, ks, kmax)
    ensures total[..] == RowSteps(Totals, e, zcheck, sums, old(total[..]), idx, stripe, ks, kmax)
  {
    var ls := (ks + stripe + 1) % e.nSamples;
    var ks8, ls8 := NormalizedEights(buf, total, zcheck, sums, e, idx, stripe, ks, ls, kmax);
    var ks4, ls4 := NormalizedFours(buf, total, zcheck, sums, e, idx, stripe, ks8, ls8, kmax);
    NormalizedOnes(buf, total, zcheck, sums, e, idx, stripe, ks4, ls4, kmax);
  }
}
