/** The packed count-min sketch: sixteen 4-bit counters per 64-bit word, four counters per
    hash, halved periodically. */
module FrequencySketch {
  import opened Common

  const U32_MOD: nat := 0x1_0000_0000
  const U64_MOD: nat := 0x1_0000_0000_0000_0000
  const ONE_MASK: bv64 := 0x1111_1111_1111_1111
  const RESET_MASK: bv64 := 0x7777_7777_7777_7777

  // ----- one word -----------------------------------------------------------------------

  /** Counter `k` (0..15) of a word. */
  function Counter(w: bv64, k: bv64): bv64
    requires k < 16
  {
    (w >> (4 * k)) & 0xF
  }

  /** A counter saturates at 15. */
  function Bump(c: bv64): bv64 {
    if c < 15 then c + 1 else c
  }

  function Half(c: bv64): bv64 {
    c >> 1
  }

  predicate IsOdd(c: bv64) {
    c & 1 == 1
  }

  /** The guard of `increment_at` tests one counter. */
  lemma MaskTestsCounter(w: bv64, k: bv64)
    requires k < 16
    ensures w & (0xF << (4 * k)) != (0xF << (4 * k)) <==> Counter(w, k) < 15
  {
  }

  /** Adding 1 at a counter below 15 bumps it and carries into no neighbour. */
  lemma AddBumpsOne(w: bv64, k: bv64, j: bv64)
    requires k < 16 && j < 16 && Counter(w, k) < 15
    ensures Counter(w + (1 << (4 * k)), j) == if j == k then Bump(Counter(w, j)) else Counter(w, j)
  {
  }

  /** Shift and mask halve every counter of the word. */
  lemma ShiftHalvesAll(w: bv64, k: bv64)
    requires k < 16
    ensures Counter(HalvedWord(w), k) == Half(Counter(w, k))
  {
  }

  function Bit(c: bv64, i: bv64): nat
    requires i < 4
  {
    if (c >> i) & 1 == 1 then 1 else 0
  }

  /** Number of ones among the four bits of counter `k`. */
  function Ones(w: bv64, k: bv64): nat
    requires k < 16
  {
    Bit(Counter(w, k), 0) + Bit(Counter(w, k), 1) + Bit(Counter(w, k), 2) + Bit(Counter(w, k), 3)
  }

  /** `u64::count_ones`, summed four bits at a time. */
  function CountOnes(w: bv64): nat {
    Ones(w, 0) + Ones(w, 1) + Ones(w, 2) + Ones(w, 3) + Ones(w, 4) + Ones(w, 5) + Ones(w, 6) + Ones(w, 7)
    + Ones(w, 8) + Ones(w, 9) + Ones(w, 10) + Ones(w, 11) + Ones(w, 12) + Ones(w, 13) + Ones(w, 14) + Ones(w, 15)
  }

  function Odd(w: bv64, k: bv64): nat
    requires k < 16
  {
    if IsOdd(Counter(w, k)) then 1 else 0
  }

  /** Number of odd counters among the sixteen. */
  function OddCounters(w: bv64): (n: nat)
    ensures n <= 16
  {
    Odd(w, 0) + Odd(w, 1) + Odd(w, 2) + Odd(w, 3) + Odd(w, 4) + Odd(w, 5) + Odd(w, 6) + Odd(w, 7)
    + Odd(w, 8) + Odd(w, 9) + Odd(w, 10) + Odd(w, 11) + Odd(w, 12) + Odd(w, 13) + Odd(w, 14) + Odd(w, 15)
  }

  lemma MaskedOnes(w: bv64, k: bv64)
    requires k < 16
    ensures Ones(w & ONE_MASK, k) == Odd(w, k)
  {
  }

  /** Masking with ones at the low bits and counting ones counts the odd counters. */
  lemma MaskCountsOdd(w: bv64)
    ensures CountOnes(w & ONE_MASK) == OddCounters(w)
  {
    MaskedOnes(w, 0); MaskedOnes(w, 1); MaskedOnes(w, 2); MaskedOnes(w, 3);
    MaskedOnes(w, 4); MaskedOnes(w, 5); MaskedOnes(w, 6); MaskedOnes(w, 7);
    MaskedOnes(w, 8); MaskedOnes(w, 9); MaskedOnes(w, 10); MaskedOnes(w, 11);
    MaskedOnes(w, 12); MaskedOnes(w, 13); MaskedOnes(w, 14); MaskedOnes(w, 15);
  }

  // ----- which counters a hash uses ------------------------------------------------------

  function Seed(depth: nat): nat
    requires depth < 4
  {
    if depth == 0 then 0xc3a5_c85c_97cb_3127
    else if depth == 1 then 0xb492_b66f_be98_f273
    else if depth == 2 then 0x9ae1_6a3b_2f90_404f
    else 0xcbf2_9ce4_8422_2325
  }

  /** `index_of` in wrapping 64-bit arithmetic; masking with a power of two minus one is
      taking the remainder. */
  function IndexOf(hash: nat, depth: nat, len: nat): (x: nat)
    requires depth < 4 && len > 0
    ensures x < len
  {
    var h := ((hash + Seed(depth)) * Seed(depth)) % U64_MOD;
    ((h + h / 0x1_0000_0000) % U64_MOD) % len
  }

  /** Which of the sixteen counters: `((hash & 3) << 2) + depth`. */
  function SlotOf(hash: nat, depth: nat): (k: bv64)
    requires depth < 4
    ensures k < 16
  {
    Start(hash) + (if depth == 0 then 0 else if depth == 1 then 1 else if depth == 2 then 2 else 3)
  }

  function Start(hash: nat): (k: bv64)
    ensures k == 0 || k == 4 || k == 8 || k == 12
  {
    if hash % 4 == 0 then 0 else if hash % 4 == 1 then 4 else if hash % 4 == 2 then 8 else 12
  }

  /** Counter (x, k) is one of the first `n` counters of `hash`. */
  ghost predicate Hit(hash: nat, n: nat, len: nat, x: nat, k: bv64)
    requires n <= 4 && len > 0
  {
    exists i :: 0 <= i < n && x == IndexOf(hash, i, len) && k == SlotOf(hash, i)
  }

  // ----- tables ---------------------------------------------------------------------------

  /** `t'` is `t` with exactly the first `n` counters of `hash` bumped. */
  ghost predicate Bumped(t: seq<bv64>, t': seq<bv64>, hash: nat, n: nat)
    requires n <= 4
  {
    && |t'| == |t| > 0
    && forall x, k: bv64 :: 0 <= x < |t| && k < 16 ==>
         Counter(t'[x], k) == if Hit(hash, n, |t|, x, k) then Bump(Counter(t[x], k)) else Counter(t[x], k)
  }

  /** `t'` is `t` with every counter halved. */
  ghost predicate Halved(t: seq<bv64>, t': seq<bv64>) {
    && |t'| == |t|
    && forall x, k: bv64 :: 0 <= x < |t| && k < 16 ==> Counter(t'[x], k) == Half(Counter(t[x], k))
  }

  /** The guard of `increment_at`. */
  predicate CanBump(w: bv64, k: bv64)
    requires k < 16
  {
    w & (0xF << (4 * k)) != (0xF << (4 * k))
  }

  function PlusOne(w: bv64, k: bv64): bv64
    requires k < 16
  {
    w + (1 << (4 * k))
  }

  function Bumps(w: bv64, k: bv64): bv64
    requires k < 16
  {
    if CanBump(w, k) then PlusOne(w, k) else w
  }

  lemma BumpsOne(w: bv64, k: bv64, j: bv64)
    requires k < 16 && j < 16
    ensures Counter(Bumps(w, k), j) == if j == k then Bump(Counter(w, j)) else Counter(w, j)
  {
    MaskTestsCounter(w, k);
    if Counter(w, k) < 15 { AddBumpsOne(w, k, j); }
  }

  lemma BumpNext(t: seq<bv64>, t1: seq<bv64>, hash: nat, n: nat)
    requires n < 4 && Bumped(t, t1, hash, n)
    ensures var x, k := IndexOf(hash, n, |t|), SlotOf(hash, n);
            Bumped(t, t1[x := Bumps(t1[x], k)], hash, n + 1)
  {
    var len := |t|;
    var x, k := IndexOf(hash, n, len), SlotOf(hash, n);
    var t2 := t1[x := Bumps(t1[x], k)];
    forall y, j: bv64 | 0 <= y < len && j < 16
      ensures Counter(t2[y], j) == if Hit(hash, n + 1, len, y, j) then Bump(Counter(t[y], j)) else Counter(t[y], j)
    {
      BumpsOne(t1[x], k, j);
      HitNext(hash, n, len, y, j);
      if y == x && j == k { NotHitTwice(hash, n, len); }
    }
  }

  /** The table after the first `n` of the four counters of `hash` have had their turn. */
  function BumpTo(t: seq<bv64>, hash: nat, n: nat): (r: seq<bv64>)
    requires |t| > 0 && n <= 4
    ensures |r| == |t|
  {
    if n == 0 then t
    else
      var r, x := BumpTo(t, hash, n - 1), IndexOf(hash, n - 1, |t|);
      r[x := Bumps(r[x], SlotOf(hash, n - 1))]
  }

  lemma {:induction false} BumpToBumps(t: seq<bv64>, hash: nat, n: nat)
    requires |t| > 0 && n <= 4
    ensures Bumped(t, BumpTo(t, hash, n), hash, n)
  {
    hide Counter, IndexOf, SlotOf, Bumps, Bump;
    if n > 0 {
      BumpToBumps(t, hash, n - 1);
      BumpNext(t, BumpTo(t, hash, n - 1), hash, n - 1);
    }
  }

  lemma HitNext(hash: nat, n: nat, len: nat, y: nat, j: bv64)
    requires n < 4 && len > 0
    ensures Hit(hash, n + 1, len, y, j) <==>
      Hit(hash, n, len, y, j) || (y == IndexOf(hash, n, len) && j == SlotOf(hash, n))
  {
  }

  lemma NotHitTwice(hash: nat, n: nat, len: nat)
    requires n < 4 && len > 0
    ensures !Hit(hash, n, len, IndexOf(hash, n, len), SlotOf(hash, n))
  {
  }

  // ----- estimates never fall below the true count -------------------------------------------

  /** Saturating, halving count of each hash; absent means 0. */
  type Exact = map<nat, bv64>

  function ExactOf(e: Exact, h: nat): bv64 {
    if h in e then e[h] else 0
  }

  function HalvedExact(e: Exact): Exact {
    map h | h in e :: Half(e[h])
  }

  /** The counter of `hash` at depth `i`. */
  function CounterAt(t: seq<bv64>, hash: nat, i: nat): bv64
    requires i < 4 && |t| > 0
  {
    Counter(t[IndexOf(hash, i, |t|)], SlotOf(hash, i))
  }

  /** Every counter of every hash is at least the exact count of that hash. */
  ghost predicate Overestimates(t: seq<bv64>, e: Exact) {
    forall h: nat, i: nat :: i < 4 && |t| > 0 ==> ExactOf(e, h) <= CounterAt(t, h, i)
  }

  lemma CounterFits(w: bv64, k: bv64)
    requires k < 16
    ensures Counter(w, k) <= 15
  {
  }

  lemma CounterStillBounds(t: seq<bv64>, t': seq<bv64>, hash: nat, x: nat, k: bv64, a: bv64, mine: bool)
    requires Bumped(t, t', hash, 4) && x < |t| && k < 16 && a <= Counter(t[x], k)
    requires mine ==> Hit(hash, 4, |t|, x, k)
    ensures (if mine then Bump(a) else a) <= Counter(t'[x], k)
  {
  }

  lemma ExactAfter(e: Exact, hash: nat, h: nat)
    ensures ExactOf(e[hash := Bump(ExactOf(e, hash))], h)
         == if h == hash then Bump(ExactOf(e, h)) else ExactOf(e, h)
  {
  }

  lemma OwnHit(hash: nat, i: nat, len: nat)
    requires i < 4 && len > 0
    ensures Hit(hash, 4, len, IndexOf(hash, i, len), SlotOf(hash, i))
  {
  }

  lemma IncrementBounds(t: seq<bv64>, t': seq<bv64>, hash: nat, e: Exact, h: nat, i: nat)
    requires i < 4 && Bumped(t, t', hash, 4) && ExactOf(e, h) <= CounterAt(t, h, i)
    ensures ExactOf(e[hash := Bump(ExactOf(e, hash))], h) <= CounterAt(t', h, i)
  {
    assert |t'| == |t|;
    hide Counter, IndexOf, SlotOf, Bump, Bumped, Hit, ExactOf;
    OwnHit(h, i, |t|);
    ExactAfter(e, hash, h);
    CounterStillBounds(t, t', hash, IndexOf(h, i, |t|), SlotOf(h, i), ExactOf(e, h), h == hash);
  }

  lemma IncrementOverestimates(t: seq<bv64>, t': seq<bv64>, hash: nat, e: Exact)
    requires Bumped(t, t', hash, 4) && Overestimates(t, e)
    ensures Overestimates(t', e[hash := Bump(ExactOf(e, hash))])
  {
    hide CounterAt, Bump, ExactOf;
    forall h: nat, i: nat | i < 4 && |t'| > 0
      ensures ExactOf(e[hash := Bump(ExactOf(e, hash))], h) <= CounterAt(t', h, i)
    {
      IncrementBounds(t, t', hash, e, h, i);
    }
  }

  lemma HalvingBounds(t: seq<bv64>, t': seq<bv64>, e: Exact, h: nat, i: nat)
    requires i < 4 && |t| > 0 && Halved(t, t') && ExactOf(e, h) <= CounterAt(t, h, i)
    ensures ExactOf(HalvedExact(e), h) <= CounterAt(t', h, i)
  {
  }

  lemma HalvingOverestimates(t: seq<bv64>, t': seq<bv64>, e: Exact)
    requires Halved(t, t') && Overestimates(t, e)
    ensures Overestimates(t', HalvedExact(e))
  {
    hide CounterAt, ExactOf, HalvedExact;
    forall h: nat, i: nat | i < 4 && |t'| > 0
      ensures ExactOf(HalvedExact(e), h) <= CounterAt(t', h, i)
    {
      HalvingBounds(t, t', e, h, i);
    }
  }

  lemma EstimateBounds(t: seq<bv64>, e: Exact, hash: nat, i: nat)
    requires i < 4 && |t| > 0 && Overestimates(t, e)
    ensures ExactOf(e, hash) <= CounterAt(t, hash, i) <= 15
  {
  }

  // ----- aging arithmetic ------------------------------------------------------------------

  /** Odd counters in the first `n` words. */
  function OddTotal(t: seq<bv64>): (c: nat)
    ensures c <= 16 * |t|
  {
    if t == [] then 0 else OddTotal(t[..|t| - 1]) + OddCounters(t[|t| - 1])
  }

  /** `(size >> 1) - (count >> 2)` in 32-bit arithmetic (a debug build panics where this
      wraps). */
  function AgedSize(size: nat, odd: nat): nat {
    (size / 2 - (odd % U32_MOD) / 4) % U32_MOD
  }

  /** The sampling period covers the counters: the condition under which aging is safe. */
  predicate Safe(len: nat, sampleSize: nat) {
    8 * len <= sampleSize < U32_MOD && len <= 0x800_0000
  }

  lemma AgedSizeIsExact(t: seq<bv64>, sampleSize: nat)
    requires Safe(|t|, sampleSize)
    ensures OddTotal(t) < U32_MOD
    ensures sampleSize / 2 - OddTotal(t) / 4 >= 0
    ensures AgedSize(sampleSize, OddTotal(t)) == sampleSize / 2 - OddTotal(t) / 4 <= sampleSize / 2
  {
    AgedArithmetic(OddTotal(t), |t|, sampleSize);
  }

  lemma AgedArithmetic(odd: nat, len: nat, sampleSize: nat)
    requires Safe(len, sampleSize) && odd <= 16 * len
    ensures odd < U32_MOD
    ensures sampleSize / 2 - odd / 4 >= 0
    ensures AgedSize(sampleSize, odd) == sampleSize / 2 - odd / 4 <= sampleSize / 2
  {
  }

  function AllOdd(len: nat): seq<bv64> {
    if len == 0 then [] else AllOdd(len - 1) + [ONE_MASK]
  }

  lemma {:induction false} AllOddTotal(len: nat)
    ensures |AllOdd(len)| == len && OddTotal(AllOdd(len)) == 16 * len
  {
    if len > 0 {
      AllOddTotal(len - 1);
      assert AllOdd(len)[..len - 1] == AllOdd(len - 1);
      assert OddCounters(ONE_MASK) == 16;
    }
  }

  /** The subtraction stays non-negative for every content of the table exactly when the
      table has at most an eighth as many words as the sampling period. */
  lemma ResetSafeIff(len: nat, sampleSize: nat)
    ensures (forall t: seq<bv64> :: |t| == len ==> sampleSize / 2 - OddTotal(t) / 4 >= 0)
            <==> 8 * len <= sampleSize
  {
    hide OddTotal, AllOdd;
    AllOddTotal(len);
    if 8 * len <= sampleSize {
      forall t: seq<bv64> | |t| == len ensures sampleSize / 2 - OddTotal(t) / 4 >= 0 {
        assert OddTotal(t) <= 16 * |t|;
      }
    } else {
      assert OddTotal(AllOdd(len)) / 4 == 4 * len;
      assert sampleSize / 2 - OddTotal(AllOdd(len)) / 4 < 0;
    }
  }

  // ----- capacities ------------------------------------------------------------------------

  /** The first power of two, counting up from `p`, that is at least `n`. */
  function PowerFrom(p: nat, n: nat): (r: nat)
    requires p > 0
    ensures r >= n && r >= p
    ensures r < 2 * n || r == p
    decreases n - p
  {
    if p >= n then p else PowerFrom(2 * p, n)
  }

  lemma {:induction false} PowerFromMonotone(p: nat, a: nat, b: nat)
    requires p > 0 && a <= b
    ensures PowerFrom(p, a) <= PowerFrom(p, b)
    decreases b - p
  {
    if p < a { PowerFromMonotone(2 * p, a, b); }
  }

  function Maximum(cap: nat): nat {
    if cap < 0x4000_0000 then cap else 0x4000_0000
  }

  function TableSize(cap: nat): nat {
    if Maximum(cap) == 0 then 1 else PowerFrom(1, Maximum(cap))
  }

  function SampleSize(cap: nat): nat {
    if cap == 0 then 10
    else if Maximum(cap) * 10 < 0x7FFF_FFFF then Maximum(cap) * 10 else 0x7FFF_FFFF
  }

  /** The condition for every capacity: the table must not be more than 5/4 of the capacity, nor
      longer than 2^27. */
  lemma CapacitySafeIff(cap: nat)
    ensures 8 * TableSize(cap) <= SampleSize(cap) <==>
      cap == 0 || (4 * TableSize(cap) <= 5 * Maximum(cap) && TableSize(cap) <= 0x800_0000)
  {
    hide PowerFrom;
    if cap > 0 { TableIsPower(cap); }
  }

  lemma {:induction false} PowerBetween(e: nat, f: nat, n: nat)
    requires e <= f + 1 && Pow2(f) < n <= Pow2(f + 1)
    ensures PowerFrom(Pow2(e), n) == Pow2(f + 1)
    decreases f + 1 - e
  {
    if e <= f {
      Pow2Monotone(e, f);
      PowerBetween(e + 1, f, n);
    }
  }

  lemma LargePowers()
    ensures Pow2(26) == 0x400_0000 && Pow2(27) == 0x800_0000 && Pow2(28) == 0x1000_0000
  {
    Pow2Sum(13, 13); Pow2Sum(14, 13); Pow2Sum(14, 14);
    assert Pow2(13) == 0x2000 && Pow2(14) == 0x4000;
  }

  /** No table length lies strictly between 2^27 and 2^28. */
  lemma TableIsPower(cap: nat)
    ensures TableSize(cap) <= 0x800_0000 || TableSize(cap) >= 0x1000_0000
  {
    hide Pow2, PowerFrom;
    LargePowers();
    PowerOne();
    if Maximum(cap) > 0x800_0000 {
      PowerGap(0, Maximum(cap));
    } else {
      PowerBetween(0, 26, 0x800_0000);
      PowerFromMonotone(1, Maximum(cap), 0x800_0000);
    }
  }

  lemma PowerOne()
    ensures Pow2(0) == 1
  {
  }

  /** The cache asks for at least 128; the first capacities beyond that are unsafe. */
  lemma CapacitiesFrom129AreUnsafe(cap: nat)
    requires 128 <= cap <= 256
    ensures 8 * TableSize(cap) <= SampleSize(cap) <==> cap == 128 || cap >= 205
  {
    hide PowerFrom;
    assert Pow2(0) == 1 && Pow2(6) == 64 && Pow2(7) == 128 && Pow2(8) == 256;
    if cap == 128 { PowerBetween(0, 6, cap); } else { PowerBetween(0, 7, cap); }
  }

  /** For a power-of-two capacity the sampling period covers the table exactly up to 2^27. */
  lemma PowerOfTwoCapacitySafeIff(cap: nat)
    requires 0 < cap <= 0x4000_0000 && TableSize(cap) == cap
    ensures Safe(TableSize(cap), SampleSize(cap)) <==> cap <= 0x800_0000
    ensures 8 * TableSize(cap) <= SampleSize(cap) <==> cap <= 0x800_0000
  {
    CapacitySafeIff(cap);
  }

  /** No power of two lies strictly between 2^27 and 2^28. */
  lemma {:induction false} PowerGap(e: nat, n: nat)
    requires e <= 28 && Pow2(27) < n
    ensures PowerFrom(Pow2(e), n) >= Pow2(28)
    decreases 28 - e
  {
    if e < 28 {
      Pow2Monotone(e, 27);
      PowerGap(e + 1, n);
    }
  }

  /** A larger table never comes with a shorter sampling period. */
  lemma GrowingKeepsSample(a: nat, b: nat)
    requires TableSize(a) < TableSize(b)
    ensures SampleSize(a) <= SampleSize(b)
  {
    if Maximum(b) < Maximum(a) && Maximum(b) > 0 { PowerFromMonotone(1, Maximum(b), Maximum(a)); }
  }

  // ----- the sketch -------------------------------------------------------------------------

  class Sketch {
    var sampleSize: nat
    var table: array<bv64>
    var size: nat
    ghost var exact: Exact    // what the counters approximate
    ghost var capacity: nat   // the capacity the table was made for

    constructor ()
      ensures Valid() && Aging() && table.Length == 0 && fresh(table)
    {
      sampleSize, size, table := 0, 0, new bv64[0];
      exact, capacity := map[], 0;
    }

    ghost predicate Valid()
      reads this, table
    {
      && Overestimates(table[..], exact) && size < U32_MOD
      && (table.Length > 0 ==> table.Length == TableSize(capacity) && sampleSize == SampleSize(capacity))
    }

    /** The event counter is below the sampling period. */
    ghost predicate Aging()
      reads this
    {
      if table.Length == 0 then size == 0 else size < sampleSize
    }

    method EnsureCapacity(cap: nat)
      requires Valid() && cap < U32_MOD
      modifies this
      ensures Valid() && (old(Aging()) ==> Aging())
      ensures table.Length >= TableSize(cap) && size == old(size)
      ensures old(table.Length) >= TableSize(cap) ==>
        table == old(table) && sampleSize == old(sampleSize) && exact == old(exact)
      ensures old(table.Length) < TableSize(cap) ==>
        && fresh(table) && table.Length == TableSize(cap) && sampleSize == SampleSize(cap)
        && exact == map[] && forall x :: 0 <= x < table.Length ==> table[x] == 0
    {
      if table.Length >= TableSize(cap) {
        return;
      }
      if table.Length > 0 { GrowingKeepsSample(capacity, cap); }
      table := new bv64[TableSize(cap)](_ => 0);
      sampleSize := SampleSize(cap);
      exact, capacity := map[], cap;
    }

    /** Estimated number of occurrences: the least of the four counters, hence never below
        the exact count. */
    method Frequency(hash: nat) returns (f: bv64)
      requires Valid()
      ensures table.Length == 0 ==> f == 0
      ensures table.Length > 0 ==>
        && ExactOf(exact, hash) <= f <= 15
        && (forall i :: 0 <= i < 4 ==> f <= CounterAt(table[..], hash, i))
        && (exists i :: 0 <= i < 4 && f == CounterAt(table[..], hash, i))
    {
      hide Counter, IndexOf, SlotOf, Overestimates, ExactOf;
      if table.Length == 0 {
        return 0;
      }
      f := 255;
      ghost var at := 0;
      for i := 0 to 4
        invariant i == 0 ==> f == 255
        invariant i > 0 ==> 0 <= at < i && f == CounterAt(table[..], hash, at)
        invariant forall j :: 0 <= j < i ==> f <= CounterAt(table[..], hash, j)
      {
        var count := Counter(table[IndexOf(hash, i, table.Length)], SlotOf(hash, i));
        CounterFits(table[IndexOf(hash, i, table.Length)], SlotOf(hash, i));
        assert count == CounterAt(table[..], hash, i);
        if count < f {
          f, at := count, i;
        }
      }
      EstimateBounds(table[..], exact, hash, at);
    }

    /** `increment_at`: bumps one counter unless it is at its maximum. */
    method IncrementAt(x: nat, k: bv64) returns (added: bool)
      requires x < table.Length && k < 16
      modifies table
      ensures table[..] == old(table[..])[x := Bumps(old(table[x]), k)]
      ensures added == CanBump(old(table[x]), k)
    {
      hide CanBump, PlusOne;
      added := CanBump(table[x], k);
      if added {
        table[x] := PlusOne(table[x], k);
      }
    }

    /** The four counters of `hash`, one after the other. */
    method BumpAll(hash: nat) returns (added: bool)
      requires table.Length > 0
      modifies table
      ensures table[..] == BumpTo(old(table[..]), hash, 4)
      ensures Bumped(old(table[..]), table[..], hash, 4)
      ensures added <==> !AllFull(old(table[..]), hash, 4)
    {
      hide Bumped, Counter, CounterAt, IndexOf, SlotOf, CanBump, Bumps;
      added := false;
      for i := 0 to 4
        invariant table[..] == BumpTo(old(table[..]), hash, i)
        invariant added <==> !AllFull(old(table[..]), hash, i)
      {
        ghost var t := table[..];
        var x, k := IndexOf(hash, i, table.Length), SlotOf(hash, i);
        BumpToBumps(old(table[..]), hash, i);
        NextCounter(old(table[..]), t, hash, i);
        CanBumpIff(t[x], k);
        var one := IncrementAt(x, k);
        added := added || one;
      }
      BumpToBumps(old(table[..]), hash, 4);
    }

    /** Halves every counter, and the event counter corrected by the odd counters. */
    method Reset()
      modifies this`size, table
      ensures Halved(old(table[..]), table[..])
      ensures size == AgedSize(old(size), OddTotal(old(table[..])))
    {
      hide HalvedWord, OddCounters, Counter;
      var count := 0;
      var x := 0;
      while x < table.Length
        invariant 0 <= x <= table.Length && size == old(size)
        invariant count == OddTotal(old(table[..])[..x]) % U32_MOD
        invariant forall y :: x <= y < table.Length ==> table[y] == old(table[y])
        invariant forall y :: 0 <= y < x ==> table[y] == HalvedWord(old(table[y]))
      {
        var odd := CountOdd(table[x]);
        OddTotalNext(old(table[..]), x);
        ModAdd(OddTotal(old(table[..])[..x]), odd);
        count := (count + odd) % U32_MOD;
        table[x] := HalvedWord(table[x]);
        x := x + 1;
      }
      assert old(table[..])[..x] == old(table[..]);
      HalvedByWord(old(table[..]), table[..]);
      size := (size / 2 - count / 4) % U32_MOD;
    }

    /** Records one occurrence.  `mid` is the table after the four counters are bumped; when
        the sampling period is over, `aged`, everything is halved. */
    method Increment(hash: nat) returns (ghost mid: seq<bv64>, ghost aged: bool)
      requires Valid()
      modifies this`size, this`exact, table
      ensures Valid()
      ensures old(table.Length) == 0 ==> table[..] == old(table[..]) && size == old(size) && !aged
      ensures table.Length > 0 ==> Bumped(old(table[..]), mid, hash, 4) && mid == BumpTo(old(table[..]), hash, 4)
      ensures table.Length > 0 ==>
        var events := (old(size) + if AllFull(old(table[..]), hash, 4) then 0 else 1) % U32_MOD;
        && (aged <==> !AllFull(old(table[..]), hash, 4) && events >= sampleSize)
        && (!aged ==> table[..] == mid && size == events)
        && (aged ==> Halved(mid, table[..]) && size == AgedSize(events, OddTotal(mid)))
      ensures table.Length > 0 ==>
        var bumped := old(exact)[hash := Bump(ExactOf(old(exact), hash))];
        exact == if aged then HalvedExact(bumped) else bumped
      ensures old(Aging()) && Safe(table.Length, sampleSize) ==>
        && Aging() && (aged ==> old(size) + 1 == sampleSize)
        && (aged ==> size == sampleSize / 2 - OddTotal(mid) / 4 <= sampleSize / 2)
    {
      hide Bumped, BumpTo, Halved, Overestimates, OddTotal, Bump, HalvedExact, AllFull, AgedSize, TableSize, SampleSize;
      mid, aged := table[..], false;
      if table.Length == 0 {
        return;
      }
      var added := BumpAll(hash);
      mid := table[..];
      IncrementOverestimates(old(table[..]), mid, hash, exact);
      exact := exact[hash := Bump(ExactOf(exact, hash))];
      if added {
        aged := CountEvent();
      }
    }

    /** Counts an event, and ages the sketch when the sampling period is over. */
    method CountEvent() returns (ghost aged: bool)
      requires Valid() && table.Length > 0
      modifies this`size, this`exact, table
      ensures Valid()
      ensures aged <==> (old(size) + 1) % U32_MOD >= sampleSize
      ensures !aged ==> table[..] == old(table[..]) && exact == old(exact) && size == (old(size) + 1) % U32_MOD
      ensures aged ==>
        && Halved(old(table[..]), table[..]) && exact == HalvedExact(old(exact))
        && size == AgedSize((old(size) + 1) % U32_MOD, OddTotal(old(table[..])))
      ensures old(Aging()) && Safe(table.Length, sampleSize) ==>
        && Aging() && (aged ==> old(size) + 1 == sampleSize)
        && (aged ==> size == sampleSize / 2 - OddTotal(old(table[..])) / 4 <= sampleSize / 2)
    {
      hide Halved, Overestimates, OddTotal, HalvedExact, TableSize, SampleSize;
      aged := false;
      size := (size + 1) % U32_MOD;
      if size >= sampleSize {
        aged := true;
        ghost var t := table[..];
        if Safe(table.Length, sampleSize) { AgedSizeIsExact(t, sampleSize); }
        Reset();
        HalvingOverestimates(t, table[..], exact);
        exact := HalvedExact(exact);
      }
    }
  }

  function HalvedWord(w: bv64): bv64 {
    (w >> 1) & RESET_MASK
  }

  /** `(entry & ONE_MASK).count_ones()`. */
  method CountOdd(w: bv64) returns (n: nat)
    ensures n == OddCounters(w)
  {
    MaskCountsOdd(w);
    n := CountOnes(w & ONE_MASK);
  }

  lemma ModAdd(a: nat, c: nat)
    ensures (a % U32_MOD + c) % U32_MOD == (a + c) % U32_MOD
  {
  }

  /** The first `n` counters of `hash` are at their maximum. */
  ghost predicate AllFull(t: seq<bv64>, hash: nat, n: nat)
    requires |t| > 0 && n <= 4
  {
    forall i :: 0 <= i < n ==> CounterAt(t, hash, i) >= 15
  }

  /** The counter about to be bumped is still as it was. */
  lemma NextCounter(t: seq<bv64>, t1: seq<bv64>, hash: nat, i: nat)
    requires i < 4 && Bumped(t, t1, hash, i)
    ensures Counter(t1[IndexOf(hash, i, |t|)], SlotOf(hash, i)) == CounterAt(t, hash, i)
  {
  }

  lemma CanBumpIff(w: bv64, k: bv64)
    requires k < 16
    ensures CanBump(w, k) <==> Counter(w, k) < 15
  {
  }

  lemma OddTotalNext(t: seq<bv64>, x: nat)
    requires x < |t|
    ensures OddTotal(t[..x + 1]) == OddTotal(t[..x]) + OddCounters(t[x])
  {
    assert t[..x + 1][..x] == t[..x];
  }

  lemma HalvedByWord(t: seq<bv64>, t': seq<bv64>)
    requires |t| == |t'| && forall x :: 0 <= x < |t| ==> t'[x] == HalvedWord(t[x])
    ensures Halved(t, t')
  {
  }
}
