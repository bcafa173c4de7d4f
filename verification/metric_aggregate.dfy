/** The reduction of per-processor counter samples into the single 64-bit
    value a performance query reports. `count[p][c]` is the sample of
    channel c on multiprocessor p. The matrix has 33 rows of 4 words: rows
    at or beyond the number of processors read are never filled, and row 32
    lies one past the end of the source's 32-row array, so both hold
    whatever the caller passes there; the averaging reductions as written
    read the row just past the last processor (see `MpUsedAsWritten`). */
module MetricAggregate {
  import opened Words
  import opened PmConfig

  /** At most this many multiprocessors are read back. */
  const MaxMp: nat := 32
  /** Largest 32-bit word. */
  const MAX32: nat := 0xFFFF_FFFF

  type Counts = seq<seq<U32>>

  predicate WellShaped(count: Counts) {
    |count| == MaxMp + 1 && forall p :: 0 <= p < |count| ==> |count[p]| == 4
  }

  /* ---------------------------------------------------------------- sums */

  /** Exact sum of column c over processors 0 .. p-1. */
  function ColSum(count: Counts, c: nat, p: nat): (r: nat)
    requires WellShaped(count) && c < 4 && p <= MaxMp + 1
    ensures r <= p * 0xFFFF_FFFF
  {
    if p == 0 then 0 else ColSum(count, c, p - 1) + count[p - 1][c]
  }

  /** Exact sum of columns 0 .. k-1 over processors 0 .. mp-1. */
  function Total(count: Counts, k: nat, mp: nat): (r: nat)
    requires WellShaped(count) && k <= 4 && mp <= MaxMp
    ensures r <= k * (MaxMp * 0xFFFF_FFFF)
  {
    if k == 0 then 0 else Total(count, k - 1, mp) + ColSum(count, k - 1, mp)
  }

  /** The source's `uint64_t` running sum of column c over processors
      0 .. p-1: it never wraps, so it is the exact sum. */
  function ColSum64(count: Counts, c: nat, p: nat): (r: U64)
    requires WellShaped(count) && c < 4 && p <= MaxMp + 1
    ensures r == ColSum(count, c, p)
  {
    if p == 0 then 0 else Wrap64(ColSum64(count, c, p - 1) + count[p - 1][c])
  }

  /** The `uint64_t` accumulation of the SUM reduction, channel by channel:
      again the exact total. */
  function Total64(count: Counts, k: nat, mp: nat): (r: U64)
    requires WellShaped(count) && k <= 4 && mp <= MaxMp
    ensures r == Total(count, k, mp)
  {
    if k == 0 then 0 else Wrap64(Total64(count, k - 1, mp) + ColSum64(count, k - 1, mp))
  }

  lemma MulBound(a: nat, b: nat, x: nat, y: nat)
    requires a <= x && b <= y
    ensures a * b <= x * y
  {
    calc {
      a * b;
    <= { assert a * b <= a * y by { assert a * (y - b) >= 0; } }
      a * y;
    <= { assert (x - a) * y >= 0; }
      x * y;
    }
  }

  /** Integer division: the largest r with r * y <= x. */
  function Quot(x: nat, y: nat): (r: nat)
    requires y >= 1
    ensures r <= x && r * y <= x < r * y + y
  {
    DivAtMost(x, y);
    DivFloor(x, y);
    x / y
  }

  lemma DivFloor(x: nat, y: nat)
    requires y >= 1
    ensures (x / y) * y <= x < (x / y) * y + y
  {
    assert x == (x / y) * y + x % y;
  }

  lemma DivAtMost(x: nat, d: nat)
    requires d >= 1
    ensures x / d <= x
  {
  }

  /** A quotient stays below any bound its dividend stays below. */
  lemma DivBelow(x: nat, d: nat, bound: nat)
    requires d >= 1 && x < bound
    ensures x / d < bound
  {
    DivAtMost(x, d);
  }

  /* --------------------------------------------------- bitwise reductions */

  /** Every bit set in x is set in y. */
  predicate Within(x: bv32, y: bv32) {
    x | y == y
  }

  /** Column c of the first mp rows, as 32-bit words. */
  function Column(count: Counts, c: nat, mp: nat): (col: seq<bv32>)
    requires WellShaped(count) && c < 4 && mp <= MaxMp
    ensures |col| == mp
  {
    seq(mp, q requires 0 <= q < mp => count[q][c] as bv32)
  }

  /** `v |= s[q]` for every q in order. */
  function OrFold(s: seq<bv32>, v: bv32): bv32 {
    if |s| == 0 then v else OrFold(s[..|s| - 1], v) | s[|s| - 1]
  }

  /** `v &= s[q]` for every q in order. */
  function AndFold(s: seq<bv32>, v: bv32): bv32 {
    if |s| == 0 then v else AndFold(s[..|s| - 1], v) & s[|s| - 1]
  }

  /** The OR reduction: columns 0 .. k-1 folded from zero. */
  function OrAll(count: Counts, k: nat, mp: nat): bv32
    requires WellShaped(count) && k <= 4 && mp <= MaxMp
  {
    if k == 0 then 0 else OrFold(Column(count, k - 1, mp), OrAll(count, k - 1, mp))
  }

  /** The AND reduction: columns 0 .. k-1 folded from all ones. */
  function AndAll(count: Counts, k: nat, mp: nat): bv32
    requires WellShaped(count) && k <= 4 && mp <= MaxMp
  {
    if k == 0 then 0xFFFF_FFFF else AndFold(Column(count, k - 1, mp), AndAll(count, k - 1, mp))
  }

  /** w has every bit of every sample among columns < k, processors < mp. */
  predicate AboveAll(count: Counts, k: nat, mp: nat, w: bv32)
    requires WellShaped(count) && k <= 4 && mp <= MaxMp
  {
    forall c, q :: 0 <= c < k && 0 <= q < mp ==> Within(Column(count, c, mp)[q], w)
  }

  /** w has only bits that every sample among columns < k, processors < mp has. */
  predicate BelowAll(count: Counts, k: nat, mp: nat, w: bv32)
    requires WellShaped(count) && k <= 4 && mp <= MaxMp
  {
    forall c, q :: 0 <= c < k && 0 <= q < mp ==> Within(w, Column(count, c, mp)[q])
  }

  /** The OR fold holds the bits of its start value and of every word. */
  lemma {:induction false} OrFoldUpper(s: seq<bv32>, v: bv32)
    ensures Within(v, OrFold(s, v))
    ensures forall q :: 0 <= q < |s| ==> Within(s[q], OrFold(s, v))
  {
    if |s| > 0 {
      var s' := s[..|s| - 1];
      OrFoldUpper(s', v);
      forall q | 0 <= q < |s|
        ensures Within(s[q], OrFold(s, v))
      {
        if q < |s| - 1 {
          assert s[q] == s'[q];
        }
      }
    }
  }

  /** ... and no other bits. */
  lemma {:induction false} OrFoldLeast(s: seq<bv32>, v: bv32, w: bv32)
    requires Within(v, w) && forall q :: 0 <= q < |s| ==> Within(s[q], w)
    ensures Within(OrFold(s, v), w)
  {
    if |s| > 0 {
      OrFoldLeast(s[..|s| - 1], v, w);
    }
  }

  /** The AND fold keeps only bits of its start value and of every word. */
  lemma {:induction false} AndFoldLower(s: seq<bv32>, v: bv32)
    ensures Within(AndFold(s, v), v)
    ensures forall q :: 0 <= q < |s| ==> Within(AndFold(s, v), s[q])
  {
    if |s| > 0 {
      var s' := s[..|s| - 1];
      var prev := AndFold(s', v);
      var last := s[|s| - 1];
      AndFoldLower(s', v);
      assert AndFold(s, v) == prev & last;
      AndWithin(prev, last, v);
      forall q | 0 <= q < |s|
        ensures Within(prev & last, s[q])
      {
        if q < |s| - 1 {
          assert s[q] == s'[q];
          AndWithin(prev, last, s[q]);
        } else {
          AndWithin(last, prev, last);
          assert last & prev == prev & last;
        }
      }
    }
  }

  /** Clearing bits keeps a word within any word it was within. */
  lemma AndWithin(x: bv32, y: bv32, z: bv32)
    requires Within(x, z)
    ensures Within(x & y, z)
  {
  }

  /** ... and keeps every bit they all share. */
  lemma {:induction false} AndFoldGreatest(s: seq<bv32>, v: bv32, w: bv32)
    requires Within(w, v) && forall q :: 0 <= q < |s| ==> Within(w, s[q])
    ensures Within(w, AndFold(s, v))
  {
    if |s| > 0 {
      AndFoldGreatest(s[..|s| - 1], v, w);
    }
  }

  /** The OR reduction has every bit of every sample. */
  lemma {:induction false} OrAllUpper(count: Counts, k: nat, mp: nat)
    requires WellShaped(count) && k <= 4 && mp <= MaxMp
    ensures AboveAll(count, k, mp, OrAll(count, k, mp))
  {
    if k > 0 {
      var prev := OrAll(count, k - 1, mp);
      var r := OrAll(count, k, mp);
      OrAllUpper(count, k - 1, mp);
      OrFoldUpper(Column(count, k - 1, mp), prev);
      forall c, q | 0 <= c < k && 0 <= q < mp
        ensures Within(Column(count, c, mp)[q], r)
      {
        if c < k - 1 {
          assert Within(Column(count, c, mp)[q], prev);
        }
      }
    }
  }

  /** ... and only bits some sample has: it lies within every word that
      has the bits of all samples. */
  lemma {:induction false} OrAllLeast(count: Counts, k: nat, mp: nat, w: bv32)
    requires WellShaped(count) && k <= 4 && mp <= MaxMp
    requires AboveAll(count, k, mp, w)
    ensures Within(OrAll(count, k, mp), w)
  {
    if k > 0 {
      assert AboveAll(count, k - 1, mp, w);
      OrAllLeast(count, k - 1, mp, w);
      var col := Column(count, k - 1, mp);
      assert forall q :: 0 <= q < |col| ==> Within(col[q], w);
      OrFoldLeast(col, OrAll(count, k - 1, mp), w);
    }
  }

  /** The AND reduction has only bits every sample has. */
  lemma {:induction false} AndAllLower(count: Counts, k: nat, mp: nat)
    requires WellShaped(count) && k <= 4 && mp <= MaxMp
    ensures BelowAll(count, k, mp, AndAll(count, k, mp))
  {
    if k > 0 {
      var prev := AndAll(count, k - 1, mp);
      var r := AndAll(count, k, mp);
      AndAllLower(count, k - 1, mp);
      AndFoldLower(Column(count, k - 1, mp), prev);
      forall c, q | 0 <= c < k && 0 <= q < mp
        ensures Within(r, Column(count, c, mp)[q])
      {
        if c < k - 1 {
          assert Within(prev, Column(count, c, mp)[q]);
        }
      }
    }
  }

  /** ... and every bit all samples share. */
  lemma {:induction false} AndAllGreatest(count: Counts, k: nat, mp: nat, w: bv32)
    requires WellShaped(count) && k <= 4 && mp <= MaxMp
    requires BelowAll(count, k, mp, w)
    ensures Within(w, AndAll(count, k, mp))
  {
    if k > 0 {
      assert BelowAll(count, k - 1, mp, w);
      AndAllGreatest(count, k - 1, mp, w);
      var col := Column(count, k - 1, mp);
      assert forall q :: 0 <= q < |col| ==> Within(w, col[q]);
      AndFoldGreatest(col, AndAll(count, k - 1, mp), w);
    }
  }

  /* --------------------------------------------------------- averaging */

  /** Sum over processors 0 .. p-1 whose denominator sample (column 1) is
      nonzero of `count[q][0] * num / count[q][1]`, the product taken in
      32-bit arithmetic as the source's `uint32_t` operands make it. */
  function AvgSum(count: Counts, num: U8, p: nat): (r: nat)
    requires WellShaped(count) && p <= MaxMp
    ensures r <= p * 0xFFFF_FFFF
  {
    if p == 0 then 0
    else
      var rest := AvgSum(count, num, p - 1);
      if count[p - 1][1] != 0 then
        DivAtMost(Wrap32(count[p - 1][0] * num), count[p - 1][1]);
        rest + Wrap32(count[p - 1][0] * num) / count[p - 1][1]
      else rest
  }

  function NonZero(x: U32): nat { if x != 0 then 1 else 0 }

  /** The processor count of the averaging reductions, as the source's
      comma-increment computes it: the increment runs after `++p`, so it
      tests rows 1 .. mp, not 0 .. mp-1. */
  function MpUsedAsWritten(count: Counts, mp: nat): (u: nat)
    requires WellShaped(count) && mp <= MaxMp
    ensures u <= mp
  {
    if mp == 0 then 0 else MpUsedAsWritten(count, mp - 1) + NonZero(count[mp][0])
  }

  /** The number of processors used, as the averaging reductions mean it:
      those among 0 .. mp-1 with a nonzero numerator sample. */
  function MpUsed(count: Counts, mp: nat): (u: nat)
    requires WellShaped(count) && mp <= MaxMp
    ensures u <= mp
  {
    if mp == 0 then 0 else MpUsed(count, mp - 1) + NonZero(count[mp - 1][0])
  }

  /** The used count is zero exactly when no processor read has a nonzero
      sample, and the number read exactly when all have. */
  lemma {:induction false} MpUsedCounts(count: Counts, mp: nat)
    requires WellShaped(count) && mp <= MaxMp
    ensures MpUsed(count, mp) == 0 <==> forall p :: 0 <= p < mp ==> count[p][0] == 0
    ensures MpUsed(count, mp) == mp <==> forall p :: 0 <= p < mp ==> count[p][0] != 0
  {
    if mp > 0 {
      MpUsedCounts(count, mp - 1);
    }
  }

  /** The window as written is shifted by one row: row 0 is never looked at
      and row mp, past the processors read, is. */
  lemma {:induction false} MpUsedShifted(count: Counts, mp: nat)
    requires WellShaped(count) && 1 <= mp <= MaxMp
    ensures MpUsedAsWritten(count, mp) + NonZero(count[0][0]) == MpUsed(count, mp) + NonZero(count[mp][0])
  {
    if mp > 1 {
      MpUsedShifted(count, mp - 1);
    }
  }

  /** A single processor with a nonzero sample is not counted as used by
      the code as written: the one row it looks at is the one past it. */
  lemma MpUsedMissesProcessorZero(count: Counts)
    requires WellShaped(count) && count[0][0] != 0 && count[1][0] == 0
    ensures MpUsedAsWritten(count, 1) == 0 && MpUsed(count, 1) == 1
  {
  }

  /* ---------------------------------------------------------- reduction */

  /** SUM: the exact total of the samples scaled by num/den; the `uint64_t`
      arithmetic never wraps. */
  function SumOp(count: Counts, k: nat, mp: nat, num: U8, den: U8): (r: U64)
    requires WellShaped(count) && k <= 4 && mp <= MaxMp && den != 0
    ensures r == Total(count, k, mp) * num / den
  {
    var v := Total64(count, k, mp);
    MulBound(v, num, 4 * (MaxMp * MAX32), 255);
    DivAtMost(v * num, den);
    Wrap64(v * num) / den
  }

  /** OR / AND: the folded 32-bit word scaled by num/den, the product taken
      modulo 2^32 as the source's `uint32_t` operand makes it. */
  function BitwiseOp(v: U32, num: U8, den: U8): (r: U64)
    requires den != 0
    ensures v * num < TWO_32 ==> r == v * num / den
    ensures r < TWO_32
  {
    DivAtMost(Wrap32(v * num), den);
    Wrap32(v * num) / den
  }

  /** `(a - b) * n / (a * d)`, for b <= a, is a fraction of at most n/d. */
  lemma RatioBound(a: nat, b: nat, n: nat, d: nat)
    requires 0 < a && b <= a && 0 < d
    ensures (a - b) * n / (a * d) * d <= n
  {
    var x := (a - b) * n;
    var q := x / (a * d);
    MulBound(1, 1, a, d);
    assert q * (a * d) <= x;
    MulBound(a - b, n, a, n);
    assert a * (q * d) <= a * n;
  }

  /** REL_SUM_MM: `(v0 - v1) * num / (v0 * den)` over the column sums,
      zero when the first column sums to zero; the difference is a
      `uint64_t` one and wraps when v1 exceeds v0. When it does not, the
      result is the exact ratio, at most num/den. */
  function RelSumMM(count: Counts, mp: nat, num: U8, den: U8): (r: U64)
    requires WellShaped(count) && mp <= MaxMp && den != 0
    ensures ColSum(count, 0, mp) == 0 ==> r == 0
    ensures 0 < ColSum(count, 0, mp) && ColSum(count, 1, mp) <= ColSum(count, 0, mp) ==>
      r == (ColSum(count, 0, mp) - ColSum(count, 1, mp)) * num / (ColSum(count, 0, mp) * den)
      && r * den <= num
  {
    var v0 := ColSum64(count, 0, mp);
    var v1 := ColSum64(count, 1, mp);
    if v0 == 0 then 0 else RelRatio(v0, v1, num, den)
  }

  /** `(v0 - v1) * num / (v0 * den)` in `uint64_t` arithmetic, for column
      sums of at most 32 samples. */
  function RelRatio(v0: nat, v1: nat, num: U8, den: U8): (r: U64)
    requires 0 < v0 <= MaxMp * MAX32 && v1 <= MaxMp * MAX32 && den != 0
    ensures v1 <= v0 ==> r == (v0 - v1) * num / (v0 * den) && r * den <= num
  {
    MulBound(v0, den, MaxMp * MAX32, 255);
    MulBound(1, 1, v0, den);
    DivAtMost(Wrap64(Sub64(v0, v1) * num), v0 * den);
    if v1 <= v0 then
      RelSumExact(v0, v1, num, den);
      Wrap64(Sub64(v0, v1) * num) / Wrap64(v0 * den)
    else
      Wrap64(Sub64(v0, v1) * num) / Wrap64(v0 * den)
  }

  /** Without wrap-around the 64-bit REL_SUM_MM arithmetic is exact. */
  lemma RelSumExact(v0: nat, v1: nat, num: U8, den: U8)
    requires 0 < v0 <= MaxMp * MAX32 && v1 <= v0 && den != 0
    ensures Wrap64(Sub64(v0, v1) * num) / Wrap64(v0 * den) == (v0 - v1) * num / (v0 * den)
    ensures (v0 - v1) * num / (v0 * den) * den <= num
  {
    MulBound(v0, den, MaxMp * MAX32, 255);
    MulBound(v0 - v1, num, MaxMp * MAX32, 255);
    assert Sub64(v0, v1) == v0 - v1;
    assert Wrap64((v0 - v1) * num) == (v0 - v1) * num;
    assert Wrap64(v0 * den) == v0 * den;
    RatioBound(v0, v1, num, den);
  }

  /** A divisor as the source computes it: the product of `uint32_t` and
      `uint8_t` operands, taken modulo 2^32 step by step, which is the
      full product modulo 2^32. */
  function Divisor32(d: nat): U32 {
    Wrap32(d)
  }

  /** DIV_SUM_M0: the first column's sum scaled by num over processor 0's
      second sample times den, zero when that sample is zero. The divisor
      is the 32-bit product, and a product that wraps to zero traps
      (None). */
  function DivSumM0(count: Counts, mp: nat, num: U8, den: U8): (r: Option<U64>)
    requires WellShaped(count) && mp <= MaxMp && den != 0
    ensures count[0][1] == 0 ==> r == Some(0)
    ensures r.None? <==> count[0][1] != 0 && Divisor32(count[0][1] * den) == 0
    ensures r.Some? && count[0][1] != 0 ==> var d := Divisor32(count[0][1] * den);
      r.value * d <= ColSum(count, 0, mp) * num < r.value * d + d
    ensures den == 1 ==> r.Some?
  {
    var v := ColSum64(count, 0, mp);
    if count[0][1] == 0 then Some(0)
    else
      var d := Divisor32(count[0][1] * den);
      if d == 0 then None
      else
        MulBound(v, num, MaxMp * MAX32, 255);
        DivBelow(v * num, d, TWO_64);
        Some(Quot(v * num, d))
  }

  /** AVG_DIV_MM with `used` processors counted as used: the per-processor
      ratios summed, divided by `used` times den, or the bare sum when
      `used` is zero. The divisor is at most 32 * 255 and cannot wrap. */
  function AvgDivMM(count: Counts, mp: nat, used: nat, num: U8, den: U8): (r: U64)
    requires WellShaped(count) && used <= mp <= MaxMp && den != 0
    ensures used == 0 ==> r == AvgSum(count, num, mp)
    ensures used != 0 ==> r * (used * den) <= AvgSum(count, num, mp) < r * (used * den) + used * den
  {
    var v := AvgSum(count, num, mp);
    if used != 0 then
      MulBound(1, 1, used, den);
      Quot(v, used * den)
    else v
  }

  /** AVG_DIV_M0 as written, with `used` processors counted as used: the
      first column's sum scaled by num, over processor 0's second sample
      times `used` times den; zero when either factor is zero. The divisor
      is the 32-bit product, and a product that wraps to zero traps
      (None). */
  function AvgDivM0AsWritten(count: Counts, mp: nat, used: nat, num: U8, den: U8): (r: Option<U64>)
    requires WellShaped(count) && used <= mp <= MaxMp && den != 0
    ensures count[0][1] == 0 || used == 0 ==> r == Some(0)
    ensures r.None? <==> count[0][1] != 0 && used != 0 && Divisor32(count[0][1] * used * den) == 0
    ensures r.Some? && count[0][1] != 0 && used != 0 ==> var d := Divisor32(count[0][1] * used * den);
      r.value * d <= ColSum(count, 0, mp) * num < r.value * d + d
  {
    var v := ColSum64(count, 0, mp);
    if count[0][1] != 0 && used != 0 then
      var d := Divisor32(count[0][1] * used * den);
      if d == 0 then None
      else
        MulBound(v, num, MaxMp * MAX32, 255);
        DivBelow(v * num, d, TWO_64);
        Some(Quot(v * num, d))
    else Some(0)
  }

  /** AVG_DIV_M0 corrected: the same quotient with the divisor taken
      exactly, so it never traps. */
  function AvgDivM0(count: Counts, mp: nat, used: nat, num: U8, den: U8): (r: U64)
    requires WellShaped(count) && used <= mp <= MaxMp && den != 0
    ensures count[0][1] == 0 || used == 0 ==> r == 0
    ensures count[0][1] != 0 && used != 0 ==> var d := count[0][1] * used * den;
      r * d <= ColSum(count, 0, mp) * num < r * d + d
  {
    var v := ColSum64(count, 0, mp);
    if count[0][1] != 0 && used != 0 then
      MulBound(v, num, MaxMp * MAX32, 255);
      MulBound(1, 1, count[0][1], used);
      MulBound(1, 1, count[0][1] * used, den);
      DivBelow(v * num, count[0][1] * used * den, TWO_64);
      Quot(v * num, count[0][1] * used * den)
    else 0
  }

  /** While the divisor fits in 32 bits the code as written agrees with
      the corrected reduction. */
  lemma AvgDivM0AgreesWithoutWrap(count: Counts, mp: nat, used: nat, num: U8, den: U8)
    requires WellShaped(count) && used <= mp <= MaxMp && den != 0
    requires count[0][1] * used * den < TWO_32
    ensures AvgDivM0AsWritten(count, mp, used, num, den) == Some(AvgDivM0(count, mp, used, num, den))
  {
    if count[0][1] != 0 && used != 0 {
      MulBound(1, 1, count[0][1] * used, den);
      MulBound(1, 1, count[0][1], used);
    }
  }

  /* ---------------------------------------------------------- reduction */

  /** The metric value of configuration cfg over mp processors, as the
      source computes it: the averaging reductions count the processors
      used over rows 1 .. mp (`MpUsedAsWritten`), and the 32-bit divisors
      of DIV_SUM_M0 and AVG_DIV_M0 trap (None) when they wrap to zero. */
  function Aggregate(cfg: Config, count: Counts, mp: nat): (r: Option<U64>)
    requires ValidConfig(cfg) && WellShaped(count) && mp <= MaxMp
    ensures cfg.op == OpSum ==> r == Some(Total(count, |cfg.channels|, mp) * cfg.normNum / cfg.normDen)
    ensures r.None? <==>
      || (cfg.op == OpDivSumM0 && count[0][1] != 0 && Divisor32(count[0][1] * cfg.normDen) == 0)
      || (cfg.op == OpAvgDivM0 && count[0][1] != 0 && MpUsedAsWritten(count, mp) != 0
          && Divisor32(count[0][1] * MpUsedAsWritten(count, mp) * cfg.normDen) == 0)
    ensures cfg.op == OpRelSumMM && ColSum(count, 0, mp) == 0 ==> r == Some(0)
    ensures cfg.op in {OpDivSumM0, OpAvgDivM0} && count[0][1] == 0 ==> r == Some(0)
    ensures cfg.op == OpAvgDivMM && MpUsedAsWritten(count, mp) == 0 ==> r == Some(AvgSum(count, cfg.normNum, mp))
  {
    var n := cfg.normNum;
    var d := cfg.normDen;
    var k := |cfg.channels|;
    match cfg.op
      case OpSum => Some(SumOp(count, k, mp, n, d))
      case OpOr => Some(BitwiseOp(OrAll(count, k, mp) as nat, n, d))
      case OpAnd => Some(BitwiseOp(AndAll(count, k, mp) as nat, n, d))
      case OpRelSumMM => Some(RelSumMM(count, mp, n, d))
      case OpDivSumM0 => DivSumM0(count, mp, n, d)
      case OpAvgDivMM => Some(AvgDivMM(count, mp, MpUsedAsWritten(count, mp), n, d))
      case OpAvgDivM0 => AvgDivM0AsWritten(count, mp, MpUsedAsWritten(count, mp), n, d)
  }

  /** The metric value as the averaging reductions mean it: processors
      0 .. mp-1 counted as used (`MpUsed`), and the AVG_DIV_M0 divisor
      taken exactly. Only DIV_SUM_M0's divisor can still trap, and no
      configuration of the table lets it. */
  function AggregateCorrected(cfg: Config, count: Counts, mp: nat): (r: Option<U64>)
    requires ValidConfig(cfg) && WellShaped(count) && mp <= MaxMp
    ensures r.None? <==> cfg.op == OpDivSumM0 && count[0][1] != 0 && Divisor32(count[0][1] * cfg.normDen) == 0
    ensures cfg.op == OpAvgDivMM && MpUsed(count, mp) != 0 ==> var d := MpUsed(count, mp) * cfg.normDen;
      r.value * d <= AvgSum(count, cfg.normNum, mp) < r.value * d + d
    ensures cfg.op == OpAvgDivM0 && count[0][1] != 0 && MpUsed(count, mp) != 0 ==>
      var d := count[0][1] * MpUsed(count, mp) * cfg.normDen;
      r.value * d <= ColSum(count, 0, mp) * cfg.normNum < r.value * d + d
  {
    var n := cfg.normNum;
    var d := cfg.normDen;
    match cfg.op
      case OpAvgDivMM => Some(AvgDivMM(count, mp, MpUsed(count, mp), n, d))
      case OpAvgDivM0 => Some(AvgDivM0(count, mp, MpUsed(count, mp), n, d))
      case _ => Aggregate(cfg, count, mp)
  }

  /** The two reductions agree on every configuration that does not
      average; on the averaging ones they agree whenever row 0 and the row
      past the processors read are alike in being zero (so both counts
      are equal) and the AVG_DIV_M0 divisor fits in 32 bits. */
  lemma AggregateAgrees(cfg: Config, count: Counts, mp: nat)
    requires ValidConfig(cfg) && WellShaped(count) && mp <= MaxMp
    ensures cfg.op !in {OpAvgDivMM, OpAvgDivM0} ==> Aggregate(cfg, count, mp) == AggregateCorrected(cfg, count, mp)
    ensures (mp == 0 || (count[0][0] == 0 <==> count[mp][0] == 0))
            && (cfg.op == OpAvgDivM0 ==> count[0][1] * MpUsed(count, mp) * cfg.normDen < TWO_32) ==>
      Aggregate(cfg, count, mp) == AggregateCorrected(cfg, count, mp)
  {
    if mp == 0 || (count[0][0] == 0 <==> count[mp][0] == 0) {
      if mp > 0 {
        MpUsedShifted(count, mp);
      }
      assert MpUsedAsWritten(count, mp) == MpUsed(count, mp);
      if cfg.op == OpAvgDivM0 && count[0][1] * MpUsed(count, mp) * cfg.normDen < TWO_32 {
        AvgDivM0AgreesWithoutWrap(count, mp, MpUsed(count, mp), cfg.normNum, cfg.normDen);
      }
    }
  }

  /** Achieved occupancy (table entry 35, AVG_DIV_MM with 200/64) on one
      processor with samples (1, 1): as written no processor is counted,
      so the bare ratio 200 is reported; counting processor 0 gives
      200 / 64 = 3. */
  lemma OccupancyOnOneProcessor()
    ensures var count := seq(MaxMp + 1, p => if p == 0 then [1, 1, 0, 0] else [0, 0, 0, 0]);
      && WellShaped(count)
      && Aggregate(PmQueryConfig(35), count, 1) == Some(200)
      && AggregateCorrected(PmQueryConfig(35), count, 1) == Some(3)
  {
    var count := seq(MaxMp + 1, p => if p == 0 then [1, 1, 0, 0] else [0, 0, 0, 0]);
    assert count[0] == [1, 1, 0, 0] && count[1] == [0, 0, 0, 0];
    assert MpUsedAsWritten(count, 1) == 0;
    assert MpUsed(count, 1) == 1;
    assert AvgSum(count, 200, 1) == 200;
  }

  /** Three processors, processor 0's clock sample 2^31, every first
      sample nonzero and the row past them zero: as written two processors
      are counted, the 32-bit divisor 2^31 * 2 wraps to zero, and
      sm_efficiency (table entry 36, AVG_DIV_M0 with 100/1) divides by
      zero where the corrected reduction yields a value. */
  lemma AvgDivM0DivisorWraps()
    ensures var count := seq(MaxMp + 1, p => if p == 0 then [1, 0x8000_0000, 0, 0] else if p < 3 then [1, 0, 0, 0] else [0, 0, 0, 0]);
      && WellShaped(count)
      && MpUsedAsWritten(count, 3) == 2
      && AvgDivM0AsWritten(count, 3, MpUsedAsWritten(count, 3), 100, 1).None?
      && Aggregate(PmQueryConfig(36), count, 3).None?
      && AggregateCorrected(PmQueryConfig(36), count, 3).Some?
  {
    var count := seq(MaxMp + 1, p => if p == 0 then [1, 0x8000_0000, 0, 0] else if p < 3 then [1, 0, 0, 0] else [0, 0, 0, 0]);
    assert count[0][1] == 0x8000_0000;
    assert count[1][0] == 1 && count[2][0] == 1 && count[3][0] == 0;
    assert MpUsedAsWritten(count, 1) == 1;
    assert MpUsedAsWritten(count, 2) == 2;
    assert MpUsedAsWritten(count, 3) == 2;
    assert 0x8000_0000 * 2 * 1 == TWO_32;
  }

  /** Metric-sm_efficiency is the configuration using AVG_DIV_M0, with
      num/den = 100/1; the divisor-wrap example applies to it. */
  lemma AvgDivM0InTable()
    ensures PmQueryConfig(36).op == OpAvgDivM0
    ensures PmQueryConfig(36).normNum == 100 && PmQueryConfig(36).normDen == 1
  {
  }

  /** The only DIV_SUM_M0 configuration has denominator 1, so its 32-bit
      divisor `count[0][1] * norm[1]` never wraps to zero, and both
      reductions give a value for every configuration but AVG_DIV_M0. */
  lemma DivSumM0DenominatorOne(n: nat, count: Counts, mp: nat)
    requires n < PmQueryCount && WellShaped(count) && mp <= MaxMp
    ensures PmQueryConfig(n).op == OpDivSumM0 ==> PmQueryConfig(n).normDen == 1
    ensures AggregateCorrected(PmQueryConfig(n), count, mp).Some?
    ensures PmQueryConfig(n).op != OpAvgDivM0 ==> Aggregate(PmQueryConfig(n), count, mp).Some?
  {
  }

  /* -------------------------------------------------------- the readback */

  /** Word `12p + 10` of the record is processor p's copy of the sequence
      number: the readback for processor p has landed when it matches. */
  predicate Landed(record: seq<U32>, sequence: U32, mp: nat)
    requires |record| >= 12 * mp
  {
    forall p :: 0 <= p < mp ==> record[12 * p + 10] == sequence
  }

  /** The sample matrix: row p < mp, column c < k is word `12p + ctr[c]` of
      the record; every other entry is never written and keeps whatever
      `stale` holds. */
  function Samples(record: seq<U32>, ctr: seq<int>, k: nat, mp: nat, stale: Counts): (count: Counts)
    requires WellShaped(stale) && k <= 4 && mp <= MaxMp && |record| >= 12 * mp
    requires |ctr| == 4 && forall c :: 0 <= c < k ==> 0 <= ctr[c] < 12
    ensures WellShaped(count)
    ensures forall p, c :: 0 <= p < mp && 0 <= c < k ==> count[p][c] == record[12 * p + ctr[c]]
    ensures forall p, c :: 0 <= p < |count| && 0 <= c < 4 && !(p < mp && c < k) ==> count[p][c] == stale[p][c]
  {
    seq(MaxMp + 1, p requires 0 <= p <= MaxMp =>
      seq(4, c requires 0 <= c < 4 =>
        if p < mp && c < k then record[12 * p + ctr[c]] else stale[p][c]))
  }

  /** What asking for a performance result gives: not yet (the call
      fails), the value, or a division by zero. */
  datatype Outcome = NotReady | Value(v: U64) | DivideByZero

  /** The number of processors read: the compute processor count capped
      at 32. */
  function MpRead(mpCountCompute: nat): (mp: nat)
    ensures mp <= MaxMp && (mp == mpCountCompute || mp == MaxMp)
  {
    if mpCountCompute < MaxMp then mpCountCompute else MaxMp
  }

  /** The result of a performance query. When some processor's sequence
      word does not match, a non-blocking call fails and a blocking one
      waits for the buffer, failing if the wait fails; otherwise the
      samples are reduced as the source does. */
  function PmResult(cfg: Config, record: seq<U32>, sequence: U32, ctr: seq<int>, mpCountCompute: nat,
                    stale: Counts, wait: bool, boWaitFails: bool): (r: Outcome)
    requires ValidConfig(cfg) && WellShaped(stale)
    requires |record| >= 12 * MpRead(mpCountCompute)
    requires |ctr| == 4 && forall c :: 0 <= c < |cfg.channels| ==> 0 <= ctr[c] < 12
    ensures var mp := MpRead(mpCountCompute);
      var value := Aggregate(cfg, Samples(record, ctr, |cfg.channels|, mp, stale), mp);
      && (r.NotReady? <==> !Landed(record, sequence, mp) && (!wait || boWaitFails))
      && (r.Value? ==> value == Some(r.v))
      && (r.DivideByZero? <==> !r.NotReady? && value.None?)
  {
    var mp := MpRead(mpCountCompute);
    if !Landed(record, sequence, mp) && (!wait || boWaitFails) then NotReady
    else match Aggregate(cfg, Samples(record, ctr, |cfg.channels|, mp, stale), mp)
      case Some(v) => Value(v)
      case None => DivideByZero
  }
}
