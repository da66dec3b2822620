/**
 * The packed presence bits of the unweighted UniFrac kernels in
 * src/unifrac_task_impl.hpp, on the CPU (transposed) layout: bit `j` of
 * word `embedded_proportions[embs_stripe * k + el]` says whether sample
 * `k` has embedded branch `el * 64 + j`. Only the first `filled_embs`
 * branches carry a length.
 *
 * A `uint64_t` word is a natural number below 2^64, and its bit
 * operations are written out on naturals: `w >> j` is `Shr(w, j)`
 * (halving `j` times), `w & 1` is `w % 2`, the cast `(uint8_t)w` is
 * `w % 256`, and `u ^ v`, `u | v` are `BitXor`, `BitOr`, defined bit by
 * bit from the low end.
 *
 * The kernels never look at single bits: they add up the lengths of the
 * set bits of a word eight bits at a time, through a table of 256 sums
 * per group of eight branches. This module defines what such a word sum
 * is and ties it to the plain per-branch sum (`BranchSum`).
 */
module UnweightedBits {
  import opened Arith

  /** 2^64: every packed word is below it. */
  const WORD: nat := 0x1_0000_0000_0000_0000

  /** The bits of a packed word, and of one byte of it. */
  const WordBits: nat := 64
  const ByteBits: nat := 8

  /** The read-only inputs of an unweighted task. */
  datatype Packed = Packed(words: seq<nat>, lengths: seq<real>,
                           embsStripe: nat, filledEmbs: nat, nSamples: nat)

  /** `filled_embs_els_round`: the number of words that hold `filled_embs` bits. */
  function FilledEls(filledEmbs: nat): (r: nat)
    ensures r * 64 >= filledEmbs && (r == 0 || (r - 1) * 64 < filledEmbs)
  {
    (filledEmbs + 63) / 64
  }

  ghost predicate Shaped(e: Packed)
  {
    && FilledEls(e.filledEmbs) <= e.embsStripe
    && e.filledEmbs <= |e.lengths|
    && e.nSamples * e.embsStripe <= |e.words|
    && forall i | 0 <= i < |e.words| :: e.words[i] < WORD
  }

  /** Where the words of sample `k` start: `embs_stripe * k`. */
  function RowStart(e: Packed, k: nat): nat {
    e.embsStripe * k
  }

  /** Word `el` of sample `k`. */
  function Word(e: Packed, k: nat, el: nat): nat
    requires Shaped(e) && k < e.nSamples && el < FilledEls(e.filledEmbs)
  {
    RowIndex(k, el, e.embsStripe, e.nSamples);
    e.words[k * e.embsStripe + el]
  }

  /** The length a set bit for branch `emb` stands for: none past `filled_embs`. */
  function Weight(e: Packed, emb: nat): real
    requires Shaped(e)
  {
    if emb < e.filledEmbs then e.lengths[emb] else 0.0
  }

  /** `w >> j` on an unsigned word. */
  function Shr(w: nat, j: nat): nat
  {
    if j == 0 then w else Shr(w / 2, j - 1)
  }

  /** Bit `j` of `w`: `(w >> j) & 1`. */
  predicate BitAt(w: nat, j: nat)
  {
    Shr(w, j) % 2 == 1
  }

  /** `u ^ v`. */
  function BitXor(u: nat, v: nat): nat
    decreases u + v
  {
    if u == 0 && v == 0 then 0 else 2 * BitXor(u / 2, v / 2) + (if u % 2 != v % 2 then 1 else 0)
  }

  /** `u | v`. */
  function BitOr(u: nat, v: nat): nat
    decreases u + v
  {
    if u == 0 && v == 0 then 0 else 2 * BitOr(u / 2, v / 2) + (if u % 2 == 1 || v % 2 == 1 then 1 else 0)
  }

  /**
   * The lengths of the set bits among the low `m` bits of `w`, bit `j`
   * standing for branch `base + j`; read from the low end, as the
   * kernels consume a word.
   */
  function Span(e: Packed, base: nat, w: nat, m: nat): real
    requires Shaped(e)
    decreases m
  {
    if m == 0 then 0.0
    else (if w % 2 == 1 then Weight(e, base) else 0.0) + Span(e, base + 1, w / 2, m - 1)
  }

  /** How the kernels combine the words of a pair: one sample alone, `u ^ v` for the distance, `u | v` for the total. */
  datatype Mix = Alone | Xor | Or

  function Mixed(m: Mix, u: nat, v: nat): nat
  {
    match m
    case Alone => u
    case Xor => BitXor(u, v)
    case Or => BitOr(u, v)
  }

  /** The branch-level meaning of a mix: the branch is in `k`; in exactly one of `k`, `l`; in either. */
  predicate Holds(m: Mix, a: bool, b: bool)
  {
    match m
    case Alone => a
    case Xor => a != b
    case Or => a || b
  }

  /** Word `el` of the pair `(k, l)` under mix `m`. */
  function Combined(e: Packed, m: Mix, k: nat, l: nat, el: nat): nat
    requires Shaped(e) && k < e.nSamples && l < e.nSamples && el < FilledEls(e.filledEmbs)
  {
    Mixed(m, Word(e, k, el), Word(e, l, el))
  }

  /** The word sums of the first `upto` words of the pair, as the table lookups add them. */
  function WordsSum(e: Packed, m: Mix, k: nat, l: nat, upto: nat): real
    requires Shaped(e) && k < e.nSamples && l < e.nSamples && upto <= FilledEls(e.filledEmbs)
  {
    if upto == 0 then 0.0
    else WordsSum(e, m, k, l, upto - 1) + Span(e, (upto - 1) * 64, Combined(e, m, k, l, upto - 1), WordBits)
  }

  /** Sample `k` has branch `el * 64 + j`: bit `j` of its word `el` is set. */
  predicate Present(e: Packed, k: nat, el: nat, j: nat)
    requires Shaped(e) && k < e.nSamples && el < FilledEls(e.filledEmbs)
  {
    BitAt(Word(e, k, el), j)
  }

  /**
   * The lengths of the branches `el * 64 + i`, `i < j`, that hold for the
   * pair under `m`: for `Xor` the branches of exactly one sample, for `Or`
   * those of either.
   */
  function BitsSum(e: Packed, m: Mix, k: nat, l: nat, el: nat, j: nat): real
    requires Shaped(e) && k < e.nSamples && l < e.nSamples && el < FilledEls(e.filledEmbs)
  {
    if j == 0 then 0.0
    else
      BitsSum(e, m, k, l, el, j - 1)
      + (if Holds(m, Present(e, k, el, j - 1), Present(e, l, el, j - 1)) then Weight(e, el * 64 + j - 1) else 0.0)
  }

  /**
   * The brute-force sum over the branches of the first `upto` words, one
   * branch at a time; bits past `filled_embs` stand for no length.
   */
  function BranchSum(e: Packed, m: Mix, k: nat, l: nat, upto: nat): real
    requires Shaped(e) && k < e.nSamples && l < e.nSamples && upto <= FilledEls(e.filledEmbs)
  {
    if upto == 0 then 0.0 else BranchSum(e, m, k, l, upto - 1) + BitsSum(e, m, k, l, upto - 1, WordBits)
  }

  /** Sample `k` has no bit set in its first `upto` words. */
  ghost predicate ZeroUpTo(e: Packed, k: nat, upto: nat)
    requires Shaped(e) && k < e.nSamples && upto <= FilledEls(e.filledEmbs)
  {
    forall el | 0 <= el < upto :: Word(e, k, el) == 0
  }

  ghost predicate ZeroSample(e: Packed, k: nat)
    requires Shaped(e) && k < e.nSamples
  {
    ZeroUpTo(e, k, FilledEls(e.filledEmbs))
  }

  // Bit facts.

  /** Mixing commutes with dropping the low bit, and the low bit of the mix is the mix of the low bits. */
  lemma MixedHalves(m: Mix, u: nat, v: nat)
    ensures Mixed(m, u, v) / 2 == Mixed(m, u / 2, v / 2)
    ensures Mixed(m, u, v) % 2 == 1 <==> Holds(m, u % 2 == 1, v % 2 == 1)
  {
  }

  /** Bit `j` of a mixed word is the mix of the two bits `j`. */
  lemma {:induction false} MixedBit(m: Mix, u: nat, v: nat, j: nat)
    ensures BitAt(Mixed(m, u, v), j) == Holds(m, BitAt(u, j), BitAt(v, j))
    decreases j
  {
    MixedHalves(m, u, v);
    if j > 0 {
      MixedBit(m, u / 2, v / 2, j - 1);
    }
  }

  /** Shifting by `a` then by `c` is shifting by `a + c`. */
  lemma {:induction false} ShrSum(w: nat, a: nat, c: nat)
    ensures Shr(Shr(w, a), c) == Shr(w, a + c)
    decreases a
  {
    if a > 0 {
      ShrSum(w / 2, a - 1, c);
    }
  }

  lemma {:induction false} ShrZero(j: nat)
    ensures Shr(0, j) == 0
  {
    if j > 0 {
      ShrZero(j - 1);
    }
  }

  /** Shifting commutes with mixing. */
  lemma {:induction false} ShrMixed(m: Mix, u: nat, v: nat, j: nat)
    ensures Shr(Mixed(m, u, v), j) == Mixed(m, Shr(u, j), Shr(v, j))
    decreases j
  {
    if j > 0 {
      MixedHalves(m, u, v);
      ShrMixed(m, u / 2, v / 2, j - 1);
    }
  }

  /** A mix is zero exactly when the words it reads are. */
  lemma {:induction false} MixedZero(m: Mix, u: nat, v: nat)
    requires m != Xor
    ensures Mixed(m, u, v) == 0 <==> u == 0 && (m == Or ==> v == 0)
    decreases u + v
  {
    if u != 0 || v != 0 {
      MixedZero(m, u / 2, v / 2);
    }
  }

  function Pow2(j: nat): (p: nat)
    ensures p > 0
  {
    if j == 0 then 1 else 2 * Pow2(j - 1)
  }

  /** Reducing modulo `2q` keeps the low bit, and halving it is halving and reducing modulo `q`. */
  lemma ModHalf(x: nat, q: nat)
    requires q > 0
    ensures (x % (2 * q)) % 2 == x % 2
    ensures (x % (2 * q)) / 2 == (x / 2) % q
    ensures x / (2 * q) == (x / 2) / q
  {
    var a, r := x / (2 * q), x % (2 * q);
    assert x == 2 * (q * a + r / 2) + r % 2;
    ModUnique(x, 2, q * a + r / 2, r % 2);
    ModUnique(x / 2, q, a, r / 2);
  }

  /** `w >> j` is `w / 2^j`. */
  lemma {:induction false} ShrDiv(w: nat, j: nat)
    ensures Shr(w, j) == w / Pow2(j)
    decreases j
  {
    if j > 0 {
      ShrDiv(w / 2, j - 1);
      ModHalf(w, Pow2(j - 1));
    }
  }

  /** Only the low `m` bits of a word count in a span of `m`. */
  lemma {:induction false} SpanLow(e: Packed, base: nat, w: nat, m: nat)
    requires Shaped(e)
    ensures Span(e, base, w % Pow2(m), m) == Span(e, base, w, m)
    decreases m
  {
    if m > 0 {
      ModHalf(w, Pow2(m - 1));
      SpanLow(e, base + 1, w / 2, m - 1);
    }
  }

  lemma {:induction false} SpanZero(e: Packed, base: nat, m: nat)
    requires Shaped(e)
    ensures Span(e, base, 0, m) == 0.0
    decreases m
  {
    if m > 0 {
      SpanZero(e, base + 1, m - 1);
    }
  }

  /** A span of `a + c` bits is the span of the low `a` bits and the span of the rest, shifted. */
  lemma {:induction false} SpanSplit(e: Packed, base: nat, w: nat, a: nat, c: nat)
    requires Shaped(e)
    ensures Span(e, base, w, a + c) == Span(e, base, w, a) + Span(e, base + a, Shr(w, a), c)
    decreases a
  {
    if a > 0 {
      SpanSplit(e, base + 1, w / 2, a - 1, c);
    }
  }

  /** Where `u | v` has no bit among the low `m`, neither has `u ^ v`. */
  lemma {:induction false} LowZeroMix(u: nat, v: nat, m: nat)
    requires BitOr(u, v) % Pow2(m) == 0
    ensures BitXor(u, v) % Pow2(m) == 0
  {
    if m > 0 {
      var q := Pow2(m - 1);
      ModHalf(BitOr(u, v), q);
      ModHalf(BitXor(u, v), q);
      MixedHalves(Or, u, v);
      MixedHalves(Xor, u, v);
      LowZeroMix(u / 2, v / 2, m - 1);
    }
  }

  // From word sums to branch sums.

  /** The lengths of the set bits among the low `j` bits of `w`, summed from the high end. */
  function Head(e: Packed, base: nat, w: nat, j: nat): real
    requires Shaped(e)
  {
    if j == 0 then 0.0 else Head(e, base, w, j - 1) + (if BitAt(w, j - 1) then Weight(e, base + j - 1) else 0.0)
  }

  lemma {:induction false} HeadUnfold(e: Packed, base: nat, w: nat, m: nat)
    requires Shaped(e) && m > 0
    ensures Head(e, base, w, m) == (if w % 2 == 1 then Weight(e, base) else 0.0) + Head(e, base + 1, w / 2, m - 1)
  {
    if m > 1 {
      HeadUnfold(e, base, w, m - 1);
    }
  }

  /** Reading a word from the low end or from the high end gives the same sum. */
  lemma {:induction false} SpanIsHead(e: Packed, base: nat, w: nat, m: nat)
    requires Shaped(e)
    ensures Span(e, base, w, m) == Head(e, base, w, m)
    decreases m
  {
    if m > 0 {
      HeadUnfold(e, base, w, m);
      SpanIsHead(e, base + 1, w / 2, m - 1);
    }
  }

  /** The low `j` bits of word `el` of a pair add the branches among them that hold. */
  lemma {:induction false} WordHeads(e: Packed, m: Mix, k: nat, l: nat, el: nat, j: nat)
    requires Shaped(e) && k < e.nSamples && l < e.nSamples && el < FilledEls(e.filledEmbs)
    ensures Head(e, el * 64, Combined(e, m, k, l, el), j) == BitsSum(e, m, k, l, el, j)
  {
    if j > 0 {
      WordHeads(e, m, k, l, el, j - 1);
      MixedBit(m, Word(e, k, el), Word(e, l, el), j - 1);
    }
  }

  /** The span of a whole word of a pair is the sum of its branches that hold. */
  lemma WordSpan(e: Packed, m: Mix, k: nat, l: nat, el: nat)
    requires Shaped(e) && k < e.nSamples && l < e.nSamples && el < FilledEls(e.filledEmbs)
    ensures Span(e, el * 64, Combined(e, m, k, l, el), WordBits) == BitsSum(e, m, k, l, el, WordBits)
  {
    SpanIsHead(e, el * 64, Combined(e, m, k, l, el), WordBits);
    WordHeads(e, m, k, l, el, WordBits);
  }

  /** Summing whole words through their spans, as the kernels do, is the brute-force sum over branches. */
  lemma {:induction false} WordsSumIsBranchSum(e: Packed, m: Mix, k: nat, l: nat, upto: nat)
    requires Shaped(e) && k < e.nSamples && l < e.nSamples && upto <= FilledEls(e.filledEmbs)
    ensures WordsSum(e, m, k, l, upto) == BranchSum(e, m, k, l, upto)
  {
    if upto > 0 {
      var el := upto - 1;
      WordsSumIsBranchSum(e, m, k, l, el);
      WordSpan(e, m, k, l, el);
      assert WordsSum(e, m, k, l, upto) == WordsSum(e, m, k, l, el) + Span(e, el * 64, Combined(e, m, k, l, el), WordBits);
      assert BranchSum(e, m, k, l, upto) == BranchSum(e, m, k, l, el) + BitsSum(e, m, k, l, el, WordBits);
    }
  }

  /** A sample with no bit set has no branch. */
  lemma ZeroAbsent(e: Packed, k: nat, el: nat, j: nat)
    requires Shaped(e) && k < e.nSamples && el < FilledEls(e.filledEmbs) && ZeroSample(e, k)
    ensures !Present(e, k, el, j)
  {
    ShrZero(j);
  }

  /** Against a sample with no branch, the unique and the total lengths of a word are the other sample's. */
  lemma {:induction false} BitsAgainstZero(e: Packed, m: Mix, k: nat, l: nat, el: nat, j: nat)
    requires Shaped(e) && k < e.nSamples && l < e.nSamples && el < FilledEls(e.filledEmbs) && m != Alone
    requires ZeroSample(e, k)
    ensures BitsSum(e, m, k, l, el, j) == BitsSum(e, Alone, l, l, el, j)
    ensures BitsSum(e, m, l, k, el, j) == BitsSum(e, Alone, l, l, el, j)
  {
    if j > 0 {
      BitsAgainstZero(e, m, k, l, el, j - 1);
      ZeroAbsent(e, k, el, j - 1);
    }
  }

  /** Against a sample with no branch, the unique and the total lengths are both the other sample's length. */
  lemma {:induction false} BranchSumAgainstZero(e: Packed, m: Mix, k: nat, l: nat, upto: nat)
    requires Shaped(e) && k < e.nSamples && l < e.nSamples && upto <= FilledEls(e.filledEmbs) && m != Alone
    requires ZeroSample(e, k)
    ensures BranchSum(e, m, k, l, upto) == BranchSum(e, Alone, l, l, upto)
    ensures BranchSum(e, m, l, k, upto) == BranchSum(e, Alone, l, l, upto)
  {
    if upto > 0 {
      BranchSumAgainstZero(e, m, k, l, upto - 1);
      BitsAgainstZero(e, m, k, l, upto - 1, WordBits);
    }
  }

  lemma {:induction false} BitsOfZero(e: Packed, k: nat, el: nat, j: nat)
    requires Shaped(e) && k < e.nSamples && el < FilledEls(e.filledEmbs) && ZeroSample(e, k)
    ensures BitsSum(e, Alone, k, k, el, j) == 0.0
  {
    if j > 0 {
      BitsOfZero(e, k, el, j - 1);
      ZeroAbsent(e, k, el, j - 1);
    }
  }

  /** A sample with no branch has no length. */
  lemma {:induction false} BranchSumOfZero(e: Packed, k: nat, upto: nat)
    requires Shaped(e) && k < e.nSamples && upto <= FilledEls(e.filledEmbs) && ZeroSample(e, k)
    ensures BranchSum(e, Alone, k, k, upto) == 0.0
  {
    if upto > 0 {
      BranchSumOfZero(e, k, upto - 1);
      BitsOfZero(e, k, upto - 1, WordBits);
    }
  }

  lemma Pow2Byte()
    ensures Pow2(ByteBits) == 256
  {
    assert Pow2(8) == 256;
  }

  /** Only the low byte of a word counts in a span of one byte: `(uint8_t)o`. */
  lemma SpanByte(e: Packed, base: nat, o: nat)
    requires Shaped(e)
    ensures Span(e, base, o % 256, ByteBits) == Span(e, base, o, ByteBits)
  {
    Pow2Byte();
    SpanLow(e, base, o, ByteBits);
  }

  /** A byte has no bit at or above bit 8. */
  lemma ShrByteHigh(b: nat, d: nat)
    requires b < 256 && d >= ByteBits
    ensures Shr(b, d) == 0
  {
    ShrSum(b, ByteBits, d - ByteBits);
    ShrDiv(b, ByteBits);
    Pow2Byte();
    ShrZero(d - ByteBits);
  }

  /** Where a byte of `u | v` is zero, so is the same byte of `u ^ v`. */
  lemma PairByteSkip(u: nat, v: nat, s: nat)
    requires Shr(BitOr(u, v), s) % 256 == 0
    ensures Shr(BitXor(u, v), s) % 256 == 0
  {
    ShrMixed(Or, u, v, s);
    ShrMixed(Xor, u, v, s);
    Pow2Byte();
    LowZeroMix(Shr(u, s), Shr(v, s), ByteBits);
  }
}
