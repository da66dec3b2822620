# UniFrac core in Dafny

A model of the sequential core of the UniFrac distance library. It covers three parts:

- **The balanced-parentheses phylogenetic tree (`BPTree`).**
  - A rooted tree is a sequence of open/close tokens, with side tables:
    - the `openclose` partner table;
    - the `excess` prefix depths;
    - the `select_0`/`select_1` position lists;
    - per-token names and lengths.
  - The model builds those tables from Newick text.
  - It answers navigation queries (`open`, `close`, `isleaf`, children, siblings, `enclose`/`bwd`, pre/post-order select).
  - It prunes the tree through token masks (`mask`, `shear`, `collapse`).
- **The stripe distance kernels.**
  - Stripe `s` pairs sample `k` with sample `(k + s + 1) % n_samples`. Each kernel adds one pair's contribution to slot `(s - start) * n_samples_r + k` of a numerator buffer, and for the normalized variants to a total buffer.
  - The weighted kernels compare per-branch sample proportions.
  - The unweighted kernels compare 64-branch presence bitmaps through a precomputed 256-entry per-byte length table.
  - Both run inside a tiled loop over square tiles of `STEP_SIZE` stripes by `STEP_SIZE` samples. `STEP_SIZE(TFloat)` is `64*4/sizeof(TFloat)`; the model uses its `double` value, 32.
- **The in-memory sparse feature table (`biom`).**
  - The table holds compressed sparse rows borrowed from the caller, sliced per observation.
  - It keeps identifier indexes and per-sample totals.
  - It expands one observation into a dense row, either whole or limited to a window of samples.

Modules:

| module | file | content |
|---|---|---|
| `Parens` | parens.dfy | prefix depth, rank, matching, the stack pairing pass, the excess/select pass |
| `BPTrees` | bptree.dfy | the tree value, its validity, navigation, `bwd`/`enclose`/`parent` |
| `Transforms` | transforms.dfy | `mask`, `get_tip_names`, `shear`, `collapse` and their specifications |
| `CollapseShape` | collapse.dfy | the tree `collapse` leaves: no single-child node below the root, each kept node under its nearest kept ancestor, lengths summed along the replaced path |
| `Newick` | newick.dfy | `newick_to_bp`, `tokenize`, `set_node_metadata`, `newick_to_metadata`, the string constructor |
| `Tiling` | tiling.dfy | partner index, tile bounds, "each (stripe, k) slot gained exactly one step" |
| `Weighted`, `WeightedRows`, `WeightedTask` | weighted*.dfy | weighted kernels, row loops, task drivers |
| `UnweightedBits`, `UnweightedTable`, `Unweighted`, `UnweightedTask` | unweighted*.dfy | packed presence words, byte lookup table, unweighted kernels and drivers |
| `Biom` | biom.dfy | the in-memory table and its accessors |
| `Arith`, `Options` | arith.dfy, options.dfy | index arithmetic facts, `Option` |

Modelling conventions:

- `TFloat`/`double` is `real`, so all arithmetic is exact.
- Array lengths and indices are `nat`.
- The packed `uint64_t` words of the unweighted path are `nat`:
  - `>>` is repeated halving (`Shr`);
  - `& 1` is `% 2`;
  - `(uint8_t)` is `% 256`;
  - `^` and `|` are the bitwise functions `BitXor` and `BitOr`.
- The embedded proportions use the CPU transposed layout: `props[embs_stripe * k + emb]`. `STEP_SIZE` is 32, its value for `double` (`Tiling.STEP`).
- Each kernel is stated against an independent brute-force sum:
  - weighted: `DiffSum`, `PairSum`;
  - unweighted: `BranchSum`, a per-bit sum over all branches.
- The lemmas prove that the zero-skipping shortcuts, the 4- and 8-wide steps, the byte table and the tiling compute that sum.

## Model

| member | source | states |
|---|---|---|
| Parens.StructureToOpenclose | src/tree.cpp:369-384 | the stack pass pairs every token with its matching token (the excess returns to the open's level just after the close); an open that is never closed keeps partner 0 |
| Parens.OpencloseOfBalanced | src/tree.cpp:369-384 | on a balanced sequence the result is an involution `oc[oc[i]] == i` with every open paired to a later close |
| Parens.IndexAndCache | src/tree.cpp:227-246 | `excess[i]` is opens minus closes in tokens `0..i`; `select1[k]`/`select0[k]` are the strictly increasing positions of the k-th open/close token; both tables have `nparens/2` entries |
| Parens.SelectComplete1 | src/tree.cpp:227-246 | every open token is listed in `select1`, at its rank |
| Parens.SelectComplete0 | src/tree.cpp:227-246 | every close token is listed in `select0`, at its rank |
| Parens.RankStrict | src/tree.cpp:227-246 | ranks strictly increase past a token of the counted kind, so select positions are unique |
| BPTrees.Build | src/tree.cpp:54-70 | building from a balanced token sequence yields a valid tree (pairing, excess and select tables as above) keeping the given structure, lengths and names |
| BPTrees.Open | src/tree.cpp:256-258 | `open(i)` is `i` for an open token and the matching open for a close token |
| BPTrees.Close | src/tree.cpp:260-262 | `close(i)` is `i` for a close token and the matching close for an open token |
| BPTrees.OpenOfClose | src/tree.cpp:256-262 | `open(close(x)) == x` for an open token |
| BPTrees.CloseOfOpen | src/tree.cpp:256-262 | `close(open(x)) == x` for a close token |
| BPTrees.IsLeaf | src/tree.cpp:264-266 | `isleaf(i)` iff token `i` opens and its close is at `i + 1` |
| BPTrees.LeftChild | src/tree.cpp:268-274 | 0 for a leaf; for an internal node, a child and the first of all its children |
| BPTrees.RightChild | src/tree.cpp:276-282 | 0 for a leaf; for an internal node, a child and the last of all its children |
| BPTrees.LastChildClose | src/tree.cpp:276-282 | the token before an internal node's close closes its last child, so `open(close(i) - 1)` is that child |
| BPTrees.RightSibling | src/tree.cpp:284-293 | a non-zero result is the next sibling of `open(i)`; 0 means it has none |
| BPTrees.SiblingAfterClose | src/tree.cpp:284-293 | the next sibling exists iff `close(o) + 1` is in range and opens, and then it is that position |
| BPTrees.PreorderSelect | src/tree.cpp:252-254 | the k-th open token in preorder |
| BPTrees.PostorderSelect | src/tree.cpp:248-250 | an open token whose close is the k-th close token |
| BPTrees.Bwd | src/tree.cpp:306-313 | the largest `j < i` with `excess[j] == excess[i] + d`, or -1 |
| BPTrees.ParentOfIsParent | src/tree.cpp:299-313 | the backward search from an open token at depth d yields its parent; for a top-level node (the root) it yields 0 |
| BPTrees.EncloseFromClose | src/tree.cpp:299-313 | searching from a close token gives the same answer as searching from its open token |
| BPTrees.Enclose | src/tree.cpp:299-304 | `enclose(i)` is the parent of the node `open(i)`, the same for both of a node's tokens; 0 at the root |
| BPTrees.Parent | src/tree.cpp:295-297 | `parent(i)` equals `enclose(i)` |
| BPTrees.ParentUnique | src/tree.cpp:295-313 | a node has at most one parent |
| BPTrees.ParentOfFirstChild | src/tree.cpp:268-274 | the parent of `leftchild(o)` is `o` |
| Transforms.Mask | src/tree.cpp:101-131 | the new tree is the subsequence of structure, lengths and names at masked positions, in order, and is valid |
| Transforms.KeptAt | src/tree.cpp:101-131 | a kept position lands at its rank within the mask |
| Transforms.KeptAll | src/tree.cpp:101-131 | an all-true mask keeps everything |
| Transforms.MaskBalanced | src/tree.cpp:101-131 | a mask that keeps both tokens of each node or neither yields a balanced sequence |
| Transforms.GetTipNames | src/tree.cpp:133-143 | a name is returned iff some leaf carries it |
| Transforms.Shear | src/tree.cpp:145-163 | the result is the mask of every kept leaf and every ancestor of one (both tokens each, root included) |
| Transforms.MarkAncestors | src/tree.cpp:150-158 | a kept leaf and the whole path from it to the root end up marked (the walk stops at the first ancestor already marked, whose own path is marked), preserving the scan invariant one leaf further |
| Transforms.ScanDone | src/tree.cpp:145-163 | the marking loop, including its stop at an already-marked ancestor, leaves exactly that mask |
| Transforms.ShearAllTips | src/tree.cpp:133-163 | shearing with all tip names keeps the whole tree |
| Transforms.SingleChildIff | src/tree.cpp:165-191 | the `first == last` test holds exactly for internal non-root nodes with one child |
| Transforms.Collapse | src/tree.cpp:165-191 | the result drops both tokens of each single-child internal node; kept nodes carry their own length plus that of the dropped ancestors directly above them |
| Transforms.CollapseDone | src/tree.cpp:165-191 | the preorder loop leaves exactly that mask and those lengths |
| Transforms.CollapseKeepsRootAndLeaves | src/tree.cpp:165-191 | the root and both tokens of every leaf survive `collapse` |
| Transforms.CollapseConservesLength | src/tree.cpp:165-191 | the total branch length of the collapsed tree equals that of the original |
| Transforms.CollapseNoop | src/tree.cpp:165-191 | without single-child nodes `collapse` returns the tree unchanged |
| CollapseShape.CollapseNoSingleChild | src/tree.cpp:165-191 | after `collapse` no node below the root has exactly one child; the root is kept whatever its number of children |
| CollapseShape.CollapseParent | src/tree.cpp:165-191 | in the collapsed tree each kept node's parent is its nearest kept ancestor; a node with no kept ancestor is at depth 0 |
| CollapseShape.CollapsedLengthIsPath | src/tree.cpp:165-191 | the length `collapse` gives a node is its own length plus those of the dropped ancestors between it and its nearest kept ancestor |
| CollapseShape.CollapsedLengthAt | src/tree.cpp:165-191 | the collapsed tree stores that path length at the node's new position |
| Newick.NewickToBp | src/tree.cpp:315-363 | the loop computes the token sequence of a character-by-character state machine |
| Newick.NewickBalanced | src/tree.cpp:315-363 | balanced unquoted parentheses give a balanced structure |
| Newick.QuotedSkipped | src/tree.cpp:315-363 | characters inside single quotes add no tokens |
| Newick.LabelSkipped | src/tree.cpp:315-363 | label characters outside quotes add no tokens |
| Newick.NewickToBpExample | src/tree.cpp:315-363 | `(A:1,B:2)C:0;` yields `[T,T,F,T,F,F]` |
| Newick.Tokenize | src/tree.cpp:461-496 | the scan returns the token of `NextToken` |
| Newick.NextTokenMeetsSpec | src/tree.cpp:461-496 | a structure character is returned alone only when it starts the token; otherwise the terminating structure character is consumed and dropped; quotes and newlines are stripped |
| Newick.TokenizeExample | src/tree.cpp:461-496 | `(A:1,B:2)C:0;` yields `(` and then `A:1` |
| Newick.NodeMetadata | src/tree.cpp:440-455 | a token splits at its last `:` into name and parsed length; without a colon it is all name with length 0 |
| Newick.NodeMetadataRoundTrip | src/tree.cpp:440-455 | `name + ":" + text` splits back into `name` and the parse of `text` |
| Newick.NewickToMetadata | src/tree.cpp:387-434 | the loop over the trimmed text computes the token fold `MetaRun` |
| Newick.MetaRunKeepsCloses | src/tree.cpp:387-434 | metadata is written only at open tokens |
| Newick.MetaRunExample | src/tree.cpp:387-434 | on `(A:1,B:2)C:0;` each label lands at its node's open token: names `["C","A","","B","",""]`, lengths `[parse("0"), parse("1"), 0, parse("2"), 0, 0]` |
| Newick.MetaRunDetermined | src/tree.cpp:387-434 | the label pass depends only on the token sequence, not on the names and lengths the tree already holds |
| Newick.FromNewick | src/tree.cpp:10-28 | the string constructor returns a valid tree whose tokens are those of `newick_to_bp` and whose names and lengths are those of the label pass; it returns nothing only when no tree fits the text |
| Newick.NewickTreeExample | src/tree.cpp:10-28 | a tree built from `(A:1,B:2)C:0;` has 6 tokens and 3 nodes; A and B are leaves, and the root C is not |
| Newick.ExampleTreeFits | src/tree.cpp:10-28 | the tree with those tables is the one built from `(A:1,B:2)C:0;` |
| Tiling.PartnerNext | src/unifrac_task_impl.hpp:394-405 | advancing `ls` by w modulo n keeps it the partner of `ks + w` |
| Tiling.TiledDone | src/unifrac_task_impl.hpp:385-431 | after the ss/sk/is tiles every slot `(stripe, k)` gained exactly one step, for its partner |
| Tiling.TaskSlot | src/unifrac_task_impl.hpp:385-431 | slot `(stripe - start) * nr + k` holds its original value plus the step of `(k, partner)` |
| Tiling.TaskFrame | src/unifrac_task_impl.hpp:385-431 | slots outside the stripes or past `n_samples` in a row are unchanged |
| Weighted.ComputeStripesTotals | src/unifrac_task_impl.hpp:35-46 | `buf[i]` becomes `buf[i] / total[i]` for `i < bufels`; nothing else changes |
| Weighted.WeightedZerosAndSums | src/unifrac_task_impl.hpp:51-103 | `sums[k]` is the length-weighted proportion sum of k, and `zcheck[k]` holds iff all of k's proportions are zero |
| Weighted.ComputedConsistent | src/unifrac_task_impl.hpp:51-103 | a flagged sample has sum 0 |
| Weighted.WeightedVal1 | src/unifrac_task_impl.hpp:107-148 | the result is the sum over branches of `|u - v| * length` |
| Weighted.DiffSumSymmetric | src/unifrac_task_impl.hpp:107-148 | the distance sum is symmetric in the two samples |
| Weighted.UnnormalizedWeighted1 | src/unifrac_task_impl.hpp:151-193 | only slot `idx + k` changes, by the shortcut contribution |
| Weighted.ShortcutIsBruteForce | src/unifrac_task_impl.hpp:151-193 | with non-negative proportions the shortcut (nothing / other side's sum / full sum) equals the brute-force distance sum |
| Weighted.NormalizedWeighted1 | src/unifrac_task_impl.hpp:506-554 | as above for the numerator; the total slot gains `sums[k] + sums[l]` unless both are all-zero |
| Weighted.TotalIsBruteForce | src/unifrac_task_impl.hpp:506-554 | the total contribution equals the brute-force sum of both samples' weighted proportions |
| Weighted.UnnormalizedWeighted4 | src/unifrac_task_impl.hpp:198-254 | the 4-wide step equals four single steps on `(ks+i, ls+i)` |
| Weighted.UnnormalizedWeighted8 | src/unifrac_task_impl.hpp:257-329 | the 8-wide step equals eight single steps |
| Weighted.NormalizedWeighted4 | src/unifrac_task_impl.hpp:559-636 | the 4-wide step equals four single steps, on both buffers |
| Weighted.NormalizedWeighted8 | src/unifrac_task_impl.hpp:639-740 | the 8-wide step equals eight single steps, on both buffers |
| Weighted.NothingAdded | src/unifrac_task_impl.hpp:198-254 | when all samples on both sides are flagged, the group step changes nothing |
| Weighted.RepeatSplit | src/unifrac_task_impl.hpp:198-329 | w single steps followed by w' steps equal w + w' steps |
| WeightedRows.UnnormalizedEights | src/unifrac_task_impl.hpp:398-406 | the 8-wide loop stops with `ls` still the partner of `ks` and the row's remaining steps unchanged in meaning |
| WeightedRows.UnnormalizedFours | src/unifrac_task_impl.hpp:408-416 | the same for the 4-wide loop |
| WeightedRows.UnnormalizedOnes | src/unifrac_task_impl.hpp:419-426 | the leftover loop performs the single steps `ks..kmax` |
| WeightedRows.UnnormalizedRow | src/unifrac_task_impl.hpp:393-426 | a row adds to each `k` in `[ks, kmax)` exactly its single step, whatever mix of widths runs |
| WeightedRows.NormalizedEights | src/unifrac_task_impl.hpp:811-819 | the 8-wide loop keeps the partner invariant on both buffers |
| WeightedRows.NormalizedFours | src/unifrac_task_impl.hpp:821-829 | the 4-wide loop keeps the partner invariant on both buffers |
| WeightedRows.NormalizedOnes | src/unifrac_task_impl.hpp:832-839 | the leftover loop performs the single steps on both buffers |
| WeightedRows.NormalizedRow | src/unifrac_task_impl.hpp:806-839 | a row adds each `k`'s single step to both buffers |
| WeightedRows.RowStepsRepeat | src/unifrac_task_impl.hpp:398-426 | a group step followed by the rest of the row equals the row from the group's start |
| WeightedTask.RunUnnormalizedWeightedTask | src/unifrac_task_impl.hpp:333-431 | zero flags and sums are computed, and every `(stripe, k)` slot gains exactly its pair's contribution |
| WeightedTask.RunNormalizedWeightedTask | src/unifrac_task_impl.hpp:744-844 | the same for both numerator and total buffers |
| WeightedTask.TaskIsBruteForce | src/unifrac_task_impl.hpp:385-431 | with non-negative proportions each slot gains the brute-force distance sum of `k` and `(k + stripe + 1) % n` |
| WeightedTask.TaskTotalIsBruteForce | src/unifrac_task_impl.hpp:798-844 | each total slot gains the brute-force sum of both samples |
| UnweightedBits.WordsSumIsBranchSum | src/unifrac_task_impl.hpp:1322-1349 | summing lengths over the set bits of each combined word equals the per-branch presence sum |
| UnweightedBits.MixedBit | src/unifrac_task_impl.hpp:1327-1328 | bit j of `u ^ v` / `u \| v` is the xor / or of the bits j |
| UnweightedBits.SpanSplit | src/unifrac_task_impl.hpp:1339-1348 | a word's length sum splits into its low bits and the shifted high bits |
| UnweightedBits.BranchSumAgainstZero | src/unifrac_task_impl.hpp:1310-1317 | when one sample is all-zero, the xor and or sums both equal the other sample's own sum |
| UnweightedBits.BranchSumOfZero | src/unifrac_task_impl.hpp:1298-1299 | an all-zero sample contributes nothing |
| UnweightedBits.PairByteSkip | src/unifrac_task_impl.hpp:1340-1344 | a zero byte of `u \| v` is a zero byte of `u ^ v`, so skipping it loses nothing |
| UnweightedTable.RemainderEntry | src/unifrac_task_impl.hpp:1506-1511 | an entry of the remainder block sums the lengths of its set bits that lie below `filled_embs` |
| UnweightedTable.SlotEntry | src/unifrac_task_impl.hpp:1477-1481 | entry `(emb8 << 8) + b` is the sum of the lengths of the set bits of b over branches `emb8*8 .. emb8*8+7` |
| UnweightedTable.BuildTable | src/unifrac_task_impl.hpp:1458-1514 | every entry of the `filled_embs_els_round * 2048` table holds that per-byte length sum; entries past it are unchanged |
| UnweightedTable.OneSideWord | src/unifrac_task_impl.hpp:1160-1170 | the eight byte lookups add the length sum over the word's set bits |
| UnweightedTable.PairWord | src/unifrac_task_impl.hpp:1339-1348 | the byte lookups add the length sums over the set bits of `u ^ v` and, for totals, of `u \| v` |
| Unweighted.UnweightedOneSide | src/unifrac_task_impl.hpp:1124-1189 | the result is true iff every word of the sample is 0, and `stripe_sums[kl]` becomes its presence-weighted length sum; nothing else changes |
| Unweighted.OneSideSum | src/unifrac_task_impl.hpp:1133-1185 | the result flag is true iff every word of sample `kl` is 0, and the sum is the presence-weighted length sum of that sample alone |
| Unweighted.UnweightedZerosAndSums | src/unifrac_task_impl.hpp:1366-1422 | every sample's zero flag and stripe sum are set; with the accelerator branch `idxs` is the zero-first order, otherwise untouched |
| Unweighted.PartitionZerosFirst | src/unifrac_task_impl.hpp:1408-1417 | the two passes write the zero-first order of `[0, n)` |
| Unweighted.CollectFlagged | src/unifrac_task_impl.hpp:1409-1416 | one pass writes, from `icurr`, the ascending list of samples whose flag equals `mytest`, and no other slot changes |
| Unweighted.ZerosFirstPermutation | src/unifrac_task_impl.hpp:1400-1417 | that order is a permutation of `[0, n)` with all flagged samples first, each group ascending (a stable partition) |
| Unweighted.PairWords | src/unifrac_task_impl.hpp:1319-1350 | the word loop accumulates the xor and or sums; `did_update` is false only if both are 0 |
| Unweighted.Unweighted1 | src/unifrac_task_impl.hpp:1282-1361 | only slot `idx + k` of each buffer changes, by the shortcut contribution for xor and (with totals) for or |
| Unweighted.PairContribution | src/unifrac_task_impl.hpp:1302-1351 | when `did_update` is set the two sums are the pair's xor and or contributions (shortcut through `stripe_sums` when one side is flagged); when it is not, both contributions are 0 |
| Unweighted.ShortcutIsBruteForce | src/unifrac_task_impl.hpp:1295-1351 | the shortcut (nothing / the non-zero side's stripe sum / the word loop) equals the brute-force per-branch xor or or sum |
| UnweightedTask.UnweightedRow | src/unifrac_task_impl.hpp:1570-1583 | the `ik` loop adds to each `k` in the tile its pair's contribution |
| UnweightedTask.RowSample | src/unifrac_task_impl.hpp:1575-1581 | one `k` of the tile: the wrap-around partner `l1` is used and the added-so-far relation extends from `k` to `k + 1` |
| UnweightedTask.UnweightedTiles | src/unifrac_task_impl.hpp:1559-1587 | every `(stripe, k)` slot gains exactly its pair's contribution, on both buffers when totals are computed |
| UnweightedTask.RunUnweightedTask | src/unifrac_task_impl.hpp:1425-1589 | the byte table and the zero flags/sums are built, `idxs` is untouched, and every slot of both buffers gains its pair's contribution |
| UnweightedTask.RunUnnormalizedUnweightedTask | src/unifrac_task_impl.hpp:1592-1753 | the same for the numerator only |
| UnweightedTask.TaskIsBruteForce | src/unifrac_task_impl.hpp:1564-1587 | each slot gains the brute-force xor (or or) sum of `k` and `(k + stripe + 1) % n` |
| Biom.SliceRows | src/biom.cpp:175-187 | observation i owns `indices`/`data` from `indptr[i]` to `indptr[i+1]`, with count their difference |
| Biom.CreateIdIndex | src/biom.cpp:268-275 | the keys are exactly the ids; each maps to a position holding it, the last one when an id repeats |
| Biom.IdIndexInverse | src/biom.cpp:268-275 | with distinct ids, `index[ids[i]] == i` |
| Biom.GetSampleCounts | src/biom.cpp:429-443 | `counts[s]` is the sum of all stored values whose index is s |
| Biom.Biom.constructor | src/biom.cpp:130-189 | the table keeps the ids, indexes them, slices the rows and totals the samples |
| Biom.Biom.GetObsData | src/biom.cpp:323-336 | an unknown id fails and writes nothing; otherwise `out[0..n_samples)` is zero-filled and then scattered, and nothing past it changes |
| Biom.Biom.GetObsDataRange | src/biom.cpp:349-374 | an unknown id fails and writes nothing; otherwise `out[0..end-start)` holds the window, values divided by their sample total when normalizing, and nothing past it changes |
| Biom.WindowAt | src/biom.cpp:323-374 | each window position holds the last stored value for that sample (normalized if asked), and 0 when the observation has none |
| Biom.Biom.PositiveCountsNormalizable | src/biom.cpp:359-365 | with positive stored counts every sample total that normalization divides by is positive |

## Left out

- HDF5 I/O is not part of this model: the file constructor, `load_ids`, `load_indptr`, `set_nnz`, `get_obs_data_direct` and `get_sample_data_direct` call a library outside this model.
- `malloc_resident`, the destructors and the `exit(EXIT_FAILURE)` paths are allocation and process control, so they are not modelled.
- OpenMP/OpenACC parallelism is modelled by its sequential semantics. The stripes write disjoint slots.
- `run_GeneralizedTask_T`, `run_VawGeneralizedTask_T` and the `run_Vaw*Task_T` kernels are not modelled. They need `pow`/`sqrt` and variance weights.
- The GPU/OpenACC variants are not modelled:
  - the straight `props[n_samples_r * emb + k]` layout;
  - the GPU `Unweighted1` (src/unifrac_task_impl.hpp:1194-1278);
  - the GPU pair loop ordered by `idxs`.
  The CPU transposed layout is used throughout. `UnweightedZerosAndSums` has an `accelerator` flag, so the `idxs` partition itself is modelled.
- Floating point is modelled as exact `real` arithmetic. Rounding, NaN and infinities are not modelled. The `float` and `double` instantiations share one kernel model, but the tiling is that of `double` only.
- Division is well-defined only for a non-zero divisor:
  - `Weighted.ComputeStripesTotals` requires non-zero totals.
  - `Biom.Biom.GetObsDataRange` requires non-zero sample totals when normalizing (`Normalizable`). `Biom.Biom.PositiveCountsNormalizable` shows this holds for positive counts.
- The `zcheck` reinterpretation as `uint32_t`/`uint64_t` in the 4- and 8-wide steps is modelled as "all 4 or 8 flags are true".
- `std::stof` is the `parse` parameter of `Newick.NodeMetadata`, `Newick.NewickToMetadata` and `Newick.FromNewick`. Numeric text parsing is not modelled.
- `Newick.NewickToMetadata`: where each label lands is proved for the text `(A:1,B:2)C:0;` (`Newick.MetaRunExample`). No general lemma ties a label's text position to the node it names.
- `Newick.FromNewick`: returns nothing for unbalanced text, or for a label with no node left for it, where the source reads out of bounds. It runs `index_and_cache` before the label pass, while the source runs it after. The result is the same, because that pass reads no names or lengths. The `reserve` capacity hint is not modelled.
- Fixed-width integer wrap-around is not modelled:
  - `uint32_t` indices and `int32_t` casts are assumed not to overflow;
  - `Biom.SliceRows` requires non-decreasing `indptr` offsets that stay inside the arrays, where the source would wrap `end - start`.
- `Biom.Biom.GetObsData`: the source throws `std::out_of_range` for an unknown id. The model reports this as `found == false` and writes nothing.
- `Biom.Biom.GetObsDataRange`: the source throws `std::out_of_range` for an unknown id (`obs_id_index.at`). The model reports this as `found == false` and writes nothing.
- `Tiling.STEP`: fixed at 32, the `STEP_SIZE` of `double`. The `float` instantiation's 64-wide tiles are not modelled; the tiled drivers are proved for 32-wide tiles only.
- `Biom.Biom.constructor`: the table keeps value slices of the caller's arrays. Aliasing of the borrowed pointers and later mutation through them are not modelled.
- `Biom.Biom.GetObsDataRange`: the source has two separate loops, one for normalize and one for raw. They are modelled as one loop that picks the value per entry, which writes the same values.
- `BPTrees.Build`, `Parens.IndexAndCache`: require a balanced token sequence. The source reads out of bounds (`oc.top()` on an empty stack, select tables sized `nparens/2`) otherwise.
