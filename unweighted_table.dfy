/**
 * The lookup table of the unweighted kernels in src/unifrac_task_impl.hpp
 * (`sums` in `run_UnweightedTask_T` and `run_UnnormalizedUnweightedTask_T`)
 * and the byte-wise lookups that read it.
 *
 * Entry `(emb8 << 8) + b` holds the lengths of branches
 * `emb8 * 8 + j`, `j < 8`, whose bit `j` is set in the byte `b`, so that
 * the set bits of a packed word are summed with eight lookups, one per
 * byte: byte `i` of word `el` is looked up at `el * 0x800 + i * 0x100`.
 * Branches at or past `filled_embs` have no length.
 */
module UnweightedTable {
  import opened Arith
  import opened UnweightedBits

  /** The value the table holds at position `slot`: the span of byte `slot % 256` of group `slot / 256`. */
  function Entry(e: Packed, slot: nat): real
    requires Shaped(e)
  {
    Span(e, (slot / 256) * 8, slot % 256, ByteBits)
  }

  /** The first `n` positions of `t` hold their entries. */
  ghost predicate TableUpTo(e: Packed, t: seq<real>, n: nat)
    requires Shaped(e)
  {
    n <= |t| && forall s | 0 <= s < n :: t[s] == Entry(e, s)
  }

  /** The table covers the 8 byte groups of every filled word: `filled_embs_els_round * 0x800` entries. */
  ghost predicate TableOk(e: Packed, t: seq<real>)
    requires Shaped(e)
  {
    TableUpTo(e, t, FilledEls(e.filledEmbs) * 2048)
  }

  /** `((b >> j) & 1)` as a length factor. */
  function Factor(b: nat, j: nat): (r: real)
    ensures r == if BitAt(b, j) then 1.0 else 0.0
  {
    (Shr(b, j) % 2) as real
  }

  lemma SlotEntry(e: Packed, emb8: nat, b: nat)
    requires Shaped(e) && b < 256
    ensures Entry(e, emb8 * 256 + b) == Span(e, emb8 * 8, b, ByteBits)
  {
    ModUnique(emb8 * 256 + b, 256, emb8, b);
  }

  lemma TableNext(e: Packed, t: seq<real>, t': seq<real>, n: nat)
    requires Shaped(e) && TableUpTo(e, t, n) && n < |t|
    requires t' == t[n := Entry(e, n)]
    ensures TableUpTo(e, t', n + 1)
  {
  }

  /** The full-block expression of the table builder, `v`, is the span of byte `b` of eight filled branches. */
  lemma EightTerms(e: Packed, base: nat, b: nat, v: real)
    requires Shaped(e) && base + 8 <= e.filledEmbs
    requires v == Factor(b, 0) * e.lengths[base] + Factor(b, 1) * e.lengths[base + 1]
                 + Factor(b, 2) * e.lengths[base + 2] + Factor(b, 3) * e.lengths[base + 3]
                 + Factor(b, 4) * e.lengths[base + 4] + Factor(b, 5) * e.lengths[base + 5]
                 + Factor(b, 6) * e.lengths[base + 6] + Factor(b, 7) * e.lengths[base + 7]
    ensures v == Span(e, base, b, ByteBits)
  {
    SpanIsHead(e, base, b, ByteBits);
    assert Head(e, base, b, ByteBits) == Head(e, base, b, 8);
    assert Head(e, base, b, 1) == Factor(b, 0) * e.lengths[base];
    assert Head(e, base, b, 2) == Head(e, base, b, 1) + Factor(b, 1) * e.lengths[base + 1];
    assert Head(e, base, b, 3) == Head(e, base, b, 2) + Factor(b, 2) * e.lengths[base + 2];
    assert Head(e, base, b, 4) == Head(e, base, b, 3) + Factor(b, 3) * e.lengths[base + 3];
    assert Head(e, base, b, 5) == Head(e, base, b, 4) + Factor(b, 4) * e.lengths[base + 4];
    assert Head(e, base, b, 6) == Head(e, base, b, 5) + Factor(b, 5) * e.lengths[base + 5];
    assert Head(e, base, b, 7) == Head(e, base, b, 6) + Factor(b, 6) * e.lengths[base + 6];
    assert Head(e, base, b, 8) == Head(e, base, b, 7) + Factor(b, 7) * e.lengths[base + 7];
  }

  /** Past `filled_embs`, or past the eighth bit of a byte, a sum of bits adds nothing more. */
  lemma {:induction false} HeadPast(e: Packed, base: nat, w: nat, d: nat, n: nat)
    requires Shaped(e) && d <= n
    requires base + d >= e.filledEmbs || (w < 256 && d >= ByteBits)
    ensures Head(e, base, w, n) == Head(e, base, w, d)
    decreases n
  {
    if n > d {
      HeadPast(e, base, w, d, n - 1);
      if base + d < e.filledEmbs {
        ShrByteHigh(w, n - 1);
      }
    }
  }

  /**
   * The remainder block's entry for byte `b` of group `emb8`: the loop
   * over `emb8 * 8 <= li < filled_embs`, which may read past the byte
   * (those bits are zero) or not run at all.
   */
  method RemainderEntry(e: Packed, emb8: nat, b: nat) returns (val: real)
    requires Shaped(e) && b < 256
    ensures val == Span(e, emb8 * 8, b, ByteBits)
  {
    var base := emb8 * 8;
    val := 0.0;
    var li := base;
    while li < e.filledEmbs
      invariant base <= li && (li <= e.filledEmbs || li == base)
      invariant val == Head(e, base, b, li - base)
    {
      val := val + Factor(b, li - base) * e.lengths[li];
      li := li + 1;
    }
    SpanIsHead(e, base, b, ByteBits);
    if li - base <= ByteBits {
      HeadPast(e, base, b, li - base, ByteBits);
    } else {
      HeadPast(e, base, b, ByteBits, li - base);
    }
  }

  /** One group of eight filled branches: the 256 entries from the eight-term expression. */
  method FullBlock(sums: array<real>, e: Packed, emb8: nat)
    requires Shaped(e) && emb8 * 8 + 8 <= e.filledEmbs && emb8 * 256 + 256 <= sums.Length
    requires TableUpTo(e, sums[..], emb8 * 256)
    modifies sums
    ensures TableUpTo(e, sums[..], emb8 * 256 + 256)
    ensures forall i | emb8 * 256 + 256 <= i < sums.Length :: sums[i] == old(sums[i])
  {
    var base := emb8 * 8;
    for b := 0 to 256
      invariant TableUpTo(e, sums[..], emb8 * 256 + b)
      invariant forall i | emb8 * 256 + 256 <= i < sums.Length :: sums[i] == old(sums[i])
    {
      var v :=
        Factor(b, 0) * e.lengths[base] + Factor(b, 1) * e.lengths[base + 1]
        + Factor(b, 2) * e.lengths[base + 2] + Factor(b, 3) * e.lengths[base + 3]
        + Factor(b, 4) * e.lengths[base + 4] + Factor(b, 5) * e.lengths[base + 5]
        + Factor(b, 6) * e.lengths[base + 6] + Factor(b, 7) * e.lengths[base + 7];
      EightTerms(e, base, b, v);
      SlotEntry(e, emb8, b);
      ghost var before := sums[..];
      sums[emb8 * 256 + b] := v;
      TableNext(e, before, sums[..], emb8 * 256 + b);
    }
  }

  /** One group of the last, partly filled word: the 256 entries from the remainder loop. */
  method RemainderBlock(sums: array<real>, e: Packed, emb8: nat)
    requires Shaped(e) && emb8 * 256 + 256 <= sums.Length
    requires TableUpTo(e, sums[..], emb8 * 256)
    modifies sums
    ensures TableUpTo(e, sums[..], emb8 * 256 + 256)
    ensures forall i | emb8 * 256 + 256 <= i < sums.Length :: sums[i] == old(sums[i])
  {
    for b := 0 to 256
      invariant TableUpTo(e, sums[..], emb8 * 256 + b)
      invariant forall i | emb8 * 256 + 256 <= i < sums.Length :: sums[i] == old(sums[i])
    {
      var val := RemainderEntry(e, emb8, b);
      SlotEntry(e, emb8, b);
      ghost var before := sums[..];
      sums[emb8 * 256 + b] := val;
      TableNext(e, before, sums[..], emb8 * 256 + b);
    }
  }

  /** The eight groups of full word `el`. */
  method FullWord(sums: array<real>, e: Packed, el: nat)
    requires Shaped(e) && el * 64 + 64 <= e.filledEmbs && el * 2048 + 2048 <= sums.Length
    requires TableUpTo(e, sums[..], el * 2048)
    modifies sums
    ensures TableUpTo(e, sums[..], el * 2048 + 2048)
    ensures forall i | el * 2048 + 2048 <= i < sums.Length :: sums[i] == old(sums[i])
  {
    for sub8 := 0 to 8
      invariant TableUpTo(e, sums[..], el * 2048 + sub8 * 256)
      invariant forall i | el * 2048 + 2048 <= i < sums.Length :: sums[i] == old(sums[i])
    {
      var emb8 := el * 8 + sub8;
      FullBlock(sums, e, emb8);
    }
  }

  /** The eight groups of the last, partly filled word `el`. */
  method RemainderWord(sums: array<real>, e: Packed, el: nat)
    requires Shaped(e) && el * 2048 + 2048 <= sums.Length
    requires TableUpTo(e, sums[..], el * 2048)
    modifies sums
    ensures TableUpTo(e, sums[..], el * 2048 + 2048)
    ensures forall i | el * 2048 + 2048 <= i < sums.Length :: sums[i] == old(sums[i])
  {
    for sub8 := 0 to 8
      invariant TableUpTo(e, sums[..], el * 2048 + sub8 * 256)
      invariant forall i | el * 2048 + 2048 <= i < sums.Length :: sums[i] == old(sums[i])
    {
      var emb8 := el * 8 + sub8;
      RemainderBlock(sums, e, emb8);
    }
  }

  /** Word `el` below `filled_embs / 64` is full, and its groups lie inside the table. */
  lemma WordBounds(f: nat, el: nat)
    requires el <= f / 64
    ensures el < f / 64 ==> el * 64 + 64 <= f
    ensures el * 2048 <= FilledEls(f) * 2048
    ensures el < f / 64 ==> el * 2048 + 2048 <= FilledEls(f) * 2048
    ensures el == f / 64 && f % 64 > 0 ==> el * 2048 + 2048 == FilledEls(f) * 2048
    ensures el == f / 64 && f % 64 == 0 ==> el * 2048 == FilledEls(f) * 2048
  {
  }

  /**
   * The table builder: the `filled_embs / 64` full words, then, when
   * `filled_embs % 64 > 0`, the last word, summing only the branches
   * below `filled_embs`.
   */
  method BuildTable(sums: array<real>, e: Packed)
    requires Shaped(e) && FilledEls(e.filledEmbs) * 2048 <= sums.Length
    modifies sums
    ensures TableOk(e, sums[..])
    ensures forall i | FilledEls(e.filledEmbs) * 2048 <= i < sums.Length :: sums[i] == old(sums[i])
  {
    var els := e.filledEmbs / 64;
    var rem := e.filledEmbs % 64;
    ghost var top := FilledEls(e.filledEmbs) * 2048;
    for el := 0 to els
      invariant TableUpTo(e, sums[..], el * 2048)
      invariant forall i | top <= i < sums.Length :: sums[i] == old(sums[i])
    {
      WordBounds(e.filledEmbs, el);
      FullWord(sums, e, el);
    }
    WordBounds(e.filledEmbs, els);
    if rem > 0 {
      RemainderWord(sums, e, els);
    }
  }

  /**
   * Byte group `g` read through the table: the entry at `g * 0x100 + (uint8_t)o`
   * is the span of the low byte of `o` on branches `g * 8` onwards.
   */
  lemma TableAt(e: Packed, t: seq<real>, g: nat, p: nat, base: nat, o: nat)
    requires Shaped(e) && TableOk(e, t) && g < FilledEls(e.filledEmbs) * 8
    requires p == g * 256 && base == g * 8
    ensures p + o % 256 < |t|
    ensures t[p + o % 256] == Span(e, base, o, ByteBits)
  {
    SlotEntry(e, g, o % 256);
    SpanByte(e, g * 8, o);
  }

  /**
   * With `o` a word shifted right by `a` bits, the span of its low byte
   * extends the span of the low `a` bits, and the next shift by 8 is the
   * shift by `a + 8`. A zero byte spans nothing.
   */
  lemma ByteStep(e: Packed, base: nat, a: nat, w: nat, o: nat)
    requires Shaped(e)
    requires o == Shr(w, a)
    ensures Span(e, base, w, a + ByteBits) == Span(e, base, w, a) + Span(e, base + a, o, ByteBits)
    ensures Shr(o, ByteBits) == Shr(w, a + ByteBits)
    ensures o % 256 == 0 ==> Span(e, base + a, o, ByteBits) == 0.0
  {
    SpanSplit(e, base, w, a, ByteBits);
    ShrSum(w, a, ByteBits);
    if o % 256 == 0 {
      SpanByte(e, base + a, o);
      SpanZero(e, base + a, ByteBits);
    }
  }

  /** The table has room for the eight byte groups of every filled word. */
  lemma TableRoom(e: Packed, t: seq<real>, el: nat)
    requires Shaped(e) && TableOk(e, t) && el < FilledEls(e.filledEmbs)
    ensures el * 2048 + 2048 <= |t| && el * 8 + 8 <= FilledEls(e.filledEmbs) * 8
  {
    MulLe(2048, el + 1, FilledEls(e.filledEmbs));
  }

  /** A byte loop has summed the low `bit` bits of `w` on top of `acc`, and `o` is what is left of `w`. */
  ghost predicate BytesDone(e: Packed, base: nat, w: nat, bit: nat, o: nat, acc: real, r: real)
    requires Shaped(e)
  {
    o == Shr(w, bit) && r == acc + Span(e, base, w, bit)
  }

  /** One pass of a byte loop: adding the entry of the low byte of `o` extends the span by one byte. */
  lemma ByteAdded(e: Packed, t: seq<real>, g: nat, p: nat, base: nat, bit: nat, w: nat, o: nat,
                  acc: real, r: real, r': real)
    requires Shaped(e) && TableOk(e, t) && g < FilledEls(e.filledEmbs) * 8
    requires p == g * 256 && base + bit == g * 8
    requires BytesDone(e, base, w, bit, o, acc, r)
    requires p + o % 256 < |t| ==> r' == r + t[p + o % 256]
    ensures p + o % 256 < |t|
    ensures BytesDone(e, base, w, bit + ByteBits, Shr(o, ByteBits), acc, r')
  {
    TableAt(e, t, g, p, base + bit, o);
    ByteStep(e, base, bit, w, o);
  }

  /** One pass of a byte loop: skipping a zero byte leaves the sum as the span of one more byte. */
  lemma ByteSkipped(e: Packed, base: nat, bit: nat, w: nat, o: nat, acc: real, r: real)
    requires Shaped(e) && o % 256 == 0
    requires BytesDone(e, base, w, bit, o, acc, r)
    ensures BytesDone(e, base, w, bit + ByteBits, Shr(o, ByteBits), acc, r)
  {
    ByteStep(e, base, bit, w, o);
  }

  /** One pass of the byte loop of `UnweightedOneSide`, whichever branch it takes. */
  lemma OneByte(e: Packed, t: seq<real>, g: nat, p: nat, base: nat, bit: nat, w: nat, o: nat,
                acc: real, r: real)
    requires Shaped(e) && TableOk(e, t) && g < FilledEls(e.filledEmbs) * 8
    requires p == g * 256 && base + bit == g * 8
    requires BytesDone(e, base, w, bit, o, acc, r)
    ensures p + o % 256 < |t|
    ensures BytesDone(e, base, w, bit + ByteBits, Shr(o, ByteBits), acc,
                      if o % 256 != 0 then r + t[p + o % 256] else r)
  {
    if o % 256 != 0 {
      ByteAdded(e, t, g, p, base, bit, w, o, acc, r, r + t[p + o % 256]);
    } else {
      TableAt(e, t, g, p, base + bit, o);
      ByteSkipped(e, base, bit, w, o, acc, r);
    }
  }

  /**
   * One pass of the byte loop of `Unweighted1`: a zero byte of `u | v` is
   * a zero byte of `u ^ v`, so skipping it keeps both sums.
   */
  lemma PairByte(e: Packed, t: seq<real>, g: nat, p: nat, base: nat, bit: nat, u: nat, v: nat,
                 computeTotal: bool, o1: nat, x1: nat, stripe0: real, total0: real, stripe: real, total: real)
    requires Shaped(e) && TableOk(e, t) && g < FilledEls(e.filledEmbs) * 8
    requires p == g * 256 && base + bit == g * 8
    requires BytesDone(e, base, BitXor(u, v), bit, x1, stripe0, stripe)
    requires o1 == Shr(BitOr(u, v), bit)
    requires computeTotal ==> BytesDone(e, base, BitOr(u, v), bit, o1, total0, total)
    ensures p + o1 % 256 < |t| && p + x1 % 256 < |t|
    ensures Shr(o1, ByteBits) == Shr(BitOr(u, v), bit + ByteBits)
    ensures BytesDone(e, base, BitXor(u, v), bit + ByteBits, Shr(x1, ByteBits), stripe0,
                      if o1 % 256 != 0 then stripe + t[p + x1 % 256] else stripe)
    ensures computeTotal ==>
              BytesDone(e, base, BitOr(u, v), bit + ByteBits, Shr(o1, ByteBits), total0,
                        if o1 % 256 != 0 then total + t[p + o1 % 256] else total)
  {
    TableAt(e, t, g, p, base + bit, o1);
    TableAt(e, t, g, p, base + bit, x1);
    ByteStep(e, base, bit, BitOr(u, v), o1);
    if o1 % 256 != 0 {
      if computeTotal {
        ByteAdded(e, t, g, p, base, bit, BitOr(u, v), o1, total0, total, total + t[p + o1 % 256]);
      }
      ByteAdded(e, t, g, p, base, bit, BitXor(u, v), x1, stripe0, stripe, stripe + t[p + x1 % 256]);
    } else {
      PairByteSkip(u, v, bit);
      if computeTotal {
        ByteSkipped(e, base, bit, BitOr(u, v), o1, total0, total);
      }
      ByteSkipped(e, base, bit, BitXor(u, v), x1, stripe0, stripe);
    }
  }

  /**
   * The byte loop of `UnweightedOneSide` on word `w` of word index `el`:
   * adds the table entry of every non-zero byte to `acc`, which adds the
   * lengths of the word's set bits.
   */
  method OneSideWord(t: seq<real>, e: Packed, el: nat, w: nat, acc: real) returns (r: real)
    requires Shaped(e) && TableOk(e, t) && el < FilledEls(e.filledEmbs)
    ensures r == acc + Span(e, el * 64, w, WordBits)
  {
    r := acc;
    var o := w;
    var p := el * 2048;
    ghost var base, bit := el * 64, 0;
    TableRoom(e, t, el);
    for i := 0 to 8
      invariant bit == 8 * i && p == el * 2048 + i * 256
      invariant BytesDone(e, base, w, bit, o, acc, r)
    {
      OneByte(e, t, el * 8 + i, p, base, bit, w, o, acc, r);
      var o8 := o % 256;
      if o8 != 0 {
        r := r + t[p + o8];
      }
      o := Shr(o, ByteBits);
      p := p + 256;
      bit := bit + ByteBits;
    }
  }

  /** The body of the byte loop of `Unweighted1`: both sums grow only on a non-zero byte of `u | v`. */
  method PairByteAdd(t: seq<real>, ghost e: Packed, ghost g: nat, p: nat, ghost base: nat, ghost bit: nat,
                     ghost u: nat, ghost v: nat, computeTotal: bool, o1: nat, x1: nat,
                     ghost stripe0: real, ghost total0: real, stripe: real, total: real)
    returns (stripe': real, total': real)
    requires Shaped(e) && TableOk(e, t) && g < FilledEls(e.filledEmbs) * 8
    requires p == g * 256 && base + bit == g * 8
    requires BytesDone(e, base, BitXor(u, v), bit, x1, stripe0, stripe)
    requires o1 == Shr(BitOr(u, v), bit)
    requires computeTotal ==> BytesDone(e, base, BitOr(u, v), bit, o1, total0, total)
    requires !computeTotal ==> total == total0
    ensures Shr(o1, ByteBits) == Shr(BitOr(u, v), bit + ByteBits)
    ensures BytesDone(e, base, BitXor(u, v), bit + ByteBits, Shr(x1, ByteBits), stripe0, stripe')
    ensures computeTotal ==> BytesDone(e, base, BitOr(u, v), bit + ByteBits, Shr(o1, ByteBits), total0, total')
    ensures !computeTotal ==> total' == total0
  {
    PairByte(e, t, g, p, base, bit, u, v, computeTotal, o1, x1, stripe0, total0, stripe, total);
    stripe', total' := stripe, total;
    var o8 := o1 % 256;
    if o8 != 0 {
      if computeTotal {
        total' := total + t[p + o8];
      }
      stripe' := stripe + t[p + x1 % 256];
    }
  }

  /**
   * The byte loop of `Unweighted1` on words `u`, `v` of word index `el`:
   * for every non-zero byte of `u | v`, the entry of that byte is added to
   * the total (when it is computed) and the entry of the same byte of
   * `u ^ v` to the stripe. Skipping the zero bytes of `u | v` loses nothing
   * of `u ^ v`.
   */
  method PairWord(t: seq<real>, e: Packed, el: nat, u: nat, v: nat, computeTotal: bool,
                  stripe0: real, total0: real) returns (stripe: real, total: real)
    requires Shaped(e) && TableOk(e, t) && el < FilledEls(e.filledEmbs)
    ensures stripe == stripe0 + Span(e, el * 64, BitXor(u, v), WordBits)
    ensures total == if computeTotal then total0 + Span(e, el * 64, BitOr(u, v), WordBits) else total0
  {
    stripe, total := stripe0, total0;
    var o1 := BitOr(u, v);
    var x1 := BitXor(u, v);
    var p := el * 2048;
    ghost var base, bit := el * 64, 0;
    TableRoom(e, t, el);
    for i := 0 to 8
      invariant bit == 8 * i && p == el * 2048 + i * 256
      invariant BytesDone(e, base, BitXor(u, v), bit, x1, stripe0, stripe)
      invariant o1 == Shr(BitOr(u, v), bit)
      invariant computeTotal ==> BytesDone(e, base, BitOr(u, v), bit, o1, total0, total)
      invariant !computeTotal ==> total == total0
    {
      stripe, total := PairByteAdd(t, e, el * 8 + i, p, base, bit, u, v, computeTotal, o1, x1,
                                   stripe0, total0, stripe, total);
      o1 := Shr(o1, ByteBits);
      x1 := Shr(x1, ByteBits);
      p := p + 256;
      bit := bit + ByteBits;
    }
  }
}
