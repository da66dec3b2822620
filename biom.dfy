/**
 * The in-memory sparse feature table: observations (features) by samples,
 * held as compressed sparse rows.  The table borrows the caller's CSR
 * buffers, slices them per observation, indexes the identifiers and keeps
 * the per-sample totals; the accessors expand one observation into a dense
 * row, whole or restricted to a window of samples.
 */
module Biom {

  /** `n` zeros. */
  function Zeros(n: nat): (z: seq<real>)
    ensures |z| == n && forall i | 0 <= i < n :: z[i] == 0.0
  {
    seq(n, _ => 0.0)
  }

  /** The size of the sample window `[start, end)`; empty when `end <= start`. */
  function Width(start: nat, end: nat): nat
  {
    if start <= end then end - start else 0
  }

  /**
   * The last of the first `c` stored entries whose sample index is `s`,
   * or -1 when none of them is.
   */
  function LastEntry(ind: seq<nat>, s: nat, c: nat): (j: int)
    requires c <= |ind|
    ensures -1 <= j < c
    ensures j >= 0 ==> ind[j] == s && forall i | j < i < c :: ind[i] != s
    ensures j < 0 ==> forall i | 0 <= i < c :: ind[i] != s
  {
    if c == 0 then -1
    else if ind[c - 1] == s then c - 1
    else LastEntry(ind, s, c - 1)
  }

  /** Every stored entry that falls in `[start, end)` has a usable divisor. */
  ghost predicate Divisible(ind: seq<nat>, totals: seq<real>, start: nat, end: nat, c: nat)
    requires c <= |ind|
  {
    forall i | 0 <= i < c && start <= ind[i] < end :: ind[i] < |totals| && totals[ind[i]] != 0.0
  }

  /** The value written for entry `i`: raw, or divided by its sample's total. */
  function EntryValue(ind: seq<nat>, dat: seq<real>, totals: seq<real>, normalize: bool, i: nat): real
    requires i < |ind| && i < |dat|
    requires normalize ==> ind[i] < |totals| && totals[ind[i]] != 0.0
  {
    if normalize then dat[i] / totals[ind[i]] else dat[i]
  }

  /**
   * The dense window `[start, end)` after the first `c` entries of one
   * observation have been written in order over zeros.
   */
  function Window(ind: seq<nat>, dat: seq<real>, totals: seq<real>, normalize: bool,
                  start: nat, end: nat, c: nat): (w: seq<real>)
    requires c <= |ind| && c <= |dat|
    requires normalize ==> Divisible(ind, totals, start, end, c)
    ensures |w| == Width(start, end)
  {
    if c == 0 then Zeros(Width(start, end))
    else
      var prev := Window(ind, dat, totals, normalize, start, end, c - 1);
      if start <= ind[c - 1] < end
      then prev[ind[c - 1] - start := EntryValue(ind, dat, totals, normalize, c - 1)]
      else prev
  }

  /**
   * Position `p` of the window holds the value of the last entry for sample
   * `start + p`, and zero when the observation has no entry for it.
   */
  lemma {:induction false} WindowAt(ind: seq<nat>, dat: seq<real>, totals: seq<real>, normalize: bool,
                                    start: nat, end: nat, c: nat, p: nat)
    requires c <= |ind| && c <= |dat|
    requires normalize ==> Divisible(ind, totals, start, end, c)
    requires p < Width(start, end)
    ensures var j := LastEntry(ind, start + p, c);
            Window(ind, dat, totals, normalize, start, end, c)[p]
              == if j < 0 then 0.0 else EntryValue(ind, dat, totals, normalize, j)
  {
    if c > 0 {
      WindowAt(ind, dat, totals, normalize, start, end, c - 1, p);
    }
  }

  /** Sum of the first `c` entries of one observation that belong to sample `s`. */
  function EntrySum(ind: seq<nat>, dat: seq<real>, s: nat, c: nat): real
    requires c <= |ind| && c <= |dat|
  {
    if c == 0 then 0.0
    else EntrySum(ind, dat, s, c - 1) + (if ind[c - 1] == s then dat[c - 1] else 0.0)
  }

  /** Sum over the first `n` observations of their entries for sample `s`. */
  function ColumnSum(obsInd: seq<seq<nat>>, obsDat: seq<seq<real>>, s: nat, n: nat): real
    requires n <= |obsInd| && n <= |obsDat|
    requires forall i | 0 <= i < n :: |obsInd[i]| == |obsDat[i]|
  {
    if n == 0 then 0.0
    else ColumnSum(obsInd, obsDat, s, n - 1) + EntrySum(obsInd[n - 1], obsDat[n - 1], s, |obsInd[n - 1]|)
  }

  /** A sum of non-negative entries with a positive entry for `s` is positive. */
  lemma {:induction false} EntrySumPositive(ind: seq<nat>, dat: seq<real>, s: nat, c: nat, j: nat)
    requires c <= |ind| && c <= |dat|
    requires forall i | 0 <= i < c :: dat[i] > 0.0
    ensures EntrySum(ind, dat, s, c) >= 0.0
    ensures j < c && ind[j] == s ==> EntrySum(ind, dat, s, c) > 0.0
  {
    if c > 0 {
      EntrySumPositive(ind, dat, s, c - 1, j);
    }
  }

  lemma {:induction false} ColumnSumPositive(obsInd: seq<seq<nat>>, obsDat: seq<seq<real>>, s: nat, n: nat, o: nat, j: nat)
    requires n <= |obsInd| && n <= |obsDat|
    requires forall i | 0 <= i < n :: |obsInd[i]| == |obsDat[i]|
    requires forall i, k | 0 <= i < n && 0 <= k < |obsDat[i]| :: obsDat[i][k] > 0.0
    ensures ColumnSum(obsInd, obsDat, s, n) >= 0.0
    ensures o < n && j < |obsInd[o]| && obsInd[o][j] == s ==> ColumnSum(obsInd, obsDat, s, n) > 0.0
  {
    if n > 0 {
      ColumnSumPositive(obsInd, obsDat, s, n - 1, o, j);
      EntrySumPositive(obsInd[n - 1], obsDat[n - 1], s, |obsInd[n - 1]|, if o == n - 1 then j else |obsInd[n - 1]|);
    }
  }

  /**
   * The CSR arrays as the constructor expects them: one offset more than
   * there are observations, non-decreasing offsets that stay inside the
   * index and value arrays, and every stored index naming a sample.
   */
  ghost predicate CsrShaped(indices: seq<nat>, indptr: seq<nat>, data: seq<real>, nObs: nat, nSamples: nat)
  {
    |indptr| == nObs + 1 &&
    (forall i | 0 <= i < nObs :: indptr[i] <= indptr[i + 1]) &&
    (forall i | 0 <= i <= nObs :: indptr[i] <= |indices| && indptr[i] <= |data|) &&
    forall j | 0 <= j < |indices| :: indices[j] < nSamples
  }

  /**
   * Cuts the CSR arrays into one slice per observation: observation `i`
   * owns the entries from `indptr[i]` up to `indptr[i + 1]`.
   */
  method SliceRows(indices: seq<nat>, indptr: seq<nat>, data: seq<real>, nObs: nat, nSamples: nat)
    returns (obsInd: seq<seq<nat>>, obsDat: seq<seq<real>>, obsCounts: seq<nat>)
    requires CsrShaped(indices, indptr, data, nObs, nSamples)
    ensures |obsInd| == nObs && |obsDat| == nObs && |obsCounts| == nObs
    ensures forall i | 0 <= i < nObs ::
              obsCounts[i] == indptr[i + 1] - indptr[i] &&
              |obsInd[i]| == obsCounts[i] && |obsDat[i]| == obsCounts[i] &&
              (forall j | 0 <= j < obsCounts[i] ::
                 obsInd[i][j] == indices[indptr[i] + j] && obsDat[i][j] == data[indptr[i] + j])
    ensures forall i, j | 0 <= i < nObs && 0 <= j < |obsInd[i]| :: obsInd[i][j] < nSamples
  {
    obsInd, obsDat, obsCounts := [], [], [];
    for i := 0 to nObs
      invariant |obsInd| == i && |obsDat| == i && |obsCounts| == i
      invariant forall k | 0 <= k < i ::
                  obsCounts[k] == indptr[k + 1] - indptr[k] &&
                  |obsInd[k]| == obsCounts[k] && |obsDat[k]| == obsCounts[k] &&
                  (forall j | 0 <= j < obsCounts[k] ::
                     obsInd[k][j] == indices[indptr[k] + j] && obsDat[k][j] == data[indptr[k] + j])
      invariant forall k, j | 0 <= k < i && 0 <= j < |obsInd[k]| :: obsInd[k][j] < nSamples
    {
      var start := indptr[i];
      var end := indptr[i + 1];
      var count := end - start;
      obsInd := obsInd + [indices[start..end]];
      obsDat := obsDat + [data[start..end]];
      obsCounts := obsCounts + [count];
    }
  }

  /**
   * Maps every identifier to its position; when an identifier repeats,
   * the later position overwrites the earlier one.
   */
  method CreateIdIndex(ids: seq<string>) returns (index: map<string, nat>)
    ensures index.Keys == set i | 0 <= i < |ids| :: ids[i]
    ensures forall id | id in index ::
              index[id] < |ids| && ids[index[id]] == id &&
              forall j | index[id] < j < |ids| :: ids[j] != id
  {
    index := map[];
    for count := 0 to |ids|
      invariant index.Keys == set i | 0 <= i < count :: ids[i]
      invariant forall id | id in index ::
                  index[id] < count && ids[index[id]] == id &&
                  forall j | index[id] < j < count :: ids[j] != id
    {
      index := index[ids[count] := count];
    }
  }

  /** With distinct identifiers the index is the inverse of the id list. */
  lemma {:induction false} IdIndexInverse(ids: seq<string>, index: map<string, nat>)
    requires index.Keys == set i | 0 <= i < |ids| :: ids[i]
    requires forall id | id in index ::
               index[id] < |ids| && ids[index[id]] == id &&
               forall j | index[id] < j < |ids| :: ids[j] != id
    requires forall i, j | 0 <= i < j < |ids| :: ids[i] != ids[j]
    ensures forall i | 0 <= i < |ids| :: ids[i] in index && index[ids[i]] == i
  {
    forall i | 0 <= i < |ids|
      ensures ids[i] in index && index[ids[i]] == i
    {
      assert ids[i] in index.Keys;
    }
  }

  /**
   * Totals every observation's entries per sample, starting from zero.
   */
  method GetSampleCounts(obsInd: seq<seq<nat>>, obsDat: seq<seq<real>>, nSamples: nat)
    returns (counts: seq<real>)
    requires |obsInd| == |obsDat|
    requires forall i | 0 <= i < |obsInd| :: |obsInd[i]| == |obsDat[i]|
    requires forall i, j | 0 <= i < |obsInd| && 0 <= j < |obsInd[i]| :: obsInd[i][j] < nSamples
    ensures |counts| == nSamples
    ensures forall s | 0 <= s < nSamples :: counts[s] == ColumnSum(obsInd, obsDat, s, |obsInd|)
  {
    var acc := new real[nSamples](_ => 0.0);
    for i := 0 to |obsInd|
      invariant forall s | 0 <= s < nSamples :: acc[s] == ColumnSum(obsInd, obsDat, s, i)
    {
      var indices := obsInd[i];
      var data := obsDat[i];
      for j := 0 to |indices|
        invariant forall s | 0 <= s < nSamples ::
                    acc[s] == ColumnSum(obsInd, obsDat, s, i) + EntrySum(indices, data, s, j)
      {
        var index := indices[j];
        acc[index] := acc[index] + data[j];
      }
    }
    counts := acc[..];
  }

  class Biom {
    const nObs: nat
    const nSamples: nat
    const nnz: nat
    const obsIds: seq<string>
    const sampleIds: seq<string>
    const obsIdIndex: map<string, nat>
    const sampleIdIndex: map<string, nat>
    /** Per observation: its sample indices, its values and how many there are. */
    const obsIndices: seq<seq<nat>>
    const obsData: seq<seq<real>>
    const obsCounts: seq<nat>
    /** Per sample: the total of its stored values. */
    const sampleCounts: seq<real>

    ghost predicate Valid()
    {
      |obsIds| == nObs && |sampleIds| == nSamples &&
      |obsIndices| == nObs && |obsData| == nObs && |obsCounts| == nObs &&
      (forall i | 0 <= i < nObs :: |obsIndices[i]| == obsCounts[i] && |obsData[i]| == obsCounts[i]) &&
      (forall i, j | 0 <= i < nObs && 0 <= j < |obsIndices[i]| :: obsIndices[i][j] < nSamples) &&
      (forall id | id in obsIdIndex :: obsIdIndex[id] < nObs && obsIds[obsIdIndex[id]] == id) &&
      (forall i | 0 <= i < nObs :: obsIds[i] in obsIdIndex) &&
      (forall id | id in sampleIdIndex :: sampleIdIndex[id] < nSamples && sampleIds[sampleIdIndex[id]] == id) &&
      (forall i | 0 <= i < nSamples :: sampleIds[i] in sampleIdIndex) &&
      |sampleCounts| == nSamples &&
      forall s | 0 <= s < nSamples :: sampleCounts[s] == ColumnSum(obsIndices, obsData, s, nObs)
    }

    /**
     * Builds the table over the caller's CSR arrays: copies the
     * identifiers, indexes them, slices the rows and totals the samples.
     */
    constructor (obsIdsIn: seq<string>, sampIdsIn: seq<string>, indices: seq<nat>, indptr: seq<nat>,
                 data: seq<real>, nObs: nat, nSamples: nat, nnz: nat)
      requires |obsIdsIn| == nObs && |sampIdsIn| == nSamples
      requires CsrShaped(indices, indptr, data, nObs, nSamples)
      ensures Valid()
      ensures this.nObs == nObs && this.nSamples == nSamples && this.nnz == nnz
      ensures obsIds == obsIdsIn && sampleIds == sampIdsIn
      ensures forall i | 0 <= i < nObs ::
                obsCounts[i] == indptr[i + 1] - indptr[i] &&
                forall j | 0 <= j < obsCounts[i] ::
                  obsIndices[i][j] == indices[indptr[i] + j] && obsData[i][j] == data[indptr[i] + j]
    {
      var oi := CreateIdIndex(obsIdsIn);
      var si := CreateIdIndex(sampIdsIn);
      var ind, dat, cnt := SliceRows(indices, indptr, data, nObs, nSamples);
      var totals := GetSampleCounts(ind, dat, nSamples);
      this.nnz := nnz;
      this.nSamples := nSamples;
      this.nObs := nObs;
      sampleIds := sampIdsIn;
      obsIds := obsIdsIn;
      obsIdIndex := oi;
      sampleIdIndex := si;
      obsIndices := ind;
      obsData := dat;
      obsCounts := cnt;
      sampleCounts := totals;
    }

    /** Every stored entry has a non-zero sample total to divide by. */
    ghost predicate Normalizable()
      requires Valid()
    {
      forall i, j | 0 <= i < nObs && 0 <= j < |obsIndices[i]| :: sampleCounts[obsIndices[i][j]] != 0.0
    }

    /** A table of positive counts can always be normalized. */
    lemma {:induction false} PositiveCountsNormalizable()
      requires Valid()
      requires forall i, j | 0 <= i < nObs && 0 <= j < |obsData[i]| :: obsData[i][j] > 0.0
      ensures Normalizable()
    {
      forall i, j | 0 <= i < nObs && 0 <= j < |obsIndices[i]|
        ensures sampleCounts[obsIndices[i][j]] > 0.0
      {
        ColumnSumPositive(obsIndices, obsData, obsIndices[i][j], nObs, i, j);
      }
    }

    /**
     * Writes observation `id` as a dense row of `nSamples` values into
     * `out`; an unknown identifier is reported and leaves `out` untouched.
     */
    method GetObsData(id: string, out: array<real>) returns (found: bool)
      requires Valid()
      requires out.Length >= nSamples
      modifies out
      ensures found <==> id in obsIdIndex
      ensures !found ==> out[..] == old(out[..])
      ensures found ==> out[..nSamples] == Window(obsIndices[obsIdIndex[id]], obsData[obsIdIndex[id]], [], false,
                                                  0, nSamples, obsCounts[obsIdIndex[id]])
      ensures out[nSamples..] == old(out[nSamples..])
    {
      if id !in obsIdIndex {
        return false;
      }
      var idx := obsIdIndex[id];
      var count := obsCounts[idx];
      var indices := obsIndices[idx];
      var data := obsData[idx];
      for i := 0 to nSamples
        invariant out[..i] == Zeros(i)
        invariant forall k | i <= k < out.Length :: out[k] == old(out[k])
      {
        out[i] := 0.0;
        assert out[..i + 1] == out[..i] + [0.0];
      }
      for i := 0 to count
        invariant out[..nSamples] == Window(indices, data, [], false, 0, nSamples, i)
        invariant out[nSamples..] == old(out[nSamples..])
      {
        ghost var prev := out[..nSamples];
        out[indices[i]] := data[i];
        assert out[..nSamples] == prev[indices[i] := data[i]];
      }
      return true;
    }

    /**
     * Writes samples `[start, end)` of observation `id` into the front of
     * `out`, each value divided by its sample's total when `normalize`;
     * an unknown identifier is reported and leaves `out` untouched.
     */
    method GetObsDataRange(id: string, start: nat, end: nat, normalize: bool, out: array<real>)
      returns (found: bool)
      requires Valid()
      requires out.Length >= Width(start, end)
      requires normalize ==> Normalizable()
      modifies out
      ensures found <==> id in obsIdIndex
      ensures !found ==> out[..] == old(out[..])
      ensures found ==>
                var idx := obsIdIndex[id];
                out[..Width(start, end)] == Window(obsIndices[idx], obsData[idx], sampleCounts, normalize,
                                                   start, end, obsCounts[idx])
      ensures out[Width(start, end)..] == old(out[Width(start, end)..])
    {
      if id !in obsIdIndex {
        return false;
      }
      var idx := obsIdIndex[id];
      var count := obsCounts[idx];
      var indices := obsIndices[idx];
      var data := obsData[idx];
      ghost var w := Width(start, end);
      assert normalize ==> Divisible(indices, sampleCounts, start, end, count);
      for i := start to (if start <= end then end else start)
        invariant out[..i - start] == Zeros(i - start)
        invariant forall k | i - start <= k < out.Length :: out[k] == old(out[k])
      {
        out[i - start] := 0.0;
        assert out[..i + 1 - start] == out[..i - start] + [0.0];
      }
      for i := 0 to count
        invariant out[..w] == Window(indices, data, sampleCounts, normalize, start, end, i)
        invariant out[w..] == old(out[w..])
      {
        var j := indices[i];
        if start <= j && j < end {
          ghost var prev := out[..w];
          out[j - start] := if normalize then data[i] / sampleCounts[j] else data[i];
          assert out[..w] == prev[j - start := EntryValue(indices, data, sampleCounts, normalize, i)];
        }
      }
      return true;
    }
  }
}
