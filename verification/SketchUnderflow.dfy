/** When aging subtracts more than it has: for every capacity whose sampling period is ten times the
    capacity, some run of increments reaches it exactly when the table is too long for the period.
    The run uses hashes that differ by multiples of 2^32: they share all counters among them. */
module SketchUnderflow {
  import opened Common
  import opened Modular
  import opened FrequencySketch

  const WORD: nat := 0x1_0000_0000

  // ----- hashes that differ in the high half -------------------------------------------------------

  /** Adding `c * 2^32` before reduction adds `c` to the high half, modulo 2^32, and nothing else. */
  lemma HighShift(p: nat, c: nat)
    ensures var h, h' := p % U64_MOD, (p + c * WORD) % U64_MOD;
      Multiple(h' - h - c * WORD, U64_MOD) && Multiple(h' / WORD - h / WORD - c, WORD)
      && h' - h == WORD * (h' / WORD - h / WORD)
  {
    var h, h' := p % U64_MOD, (p + c * WORD) % U64_MOD;
    ModIsCongruent(p, U64_MOD);
    ModIsCongruent(p + c * WORD, U64_MOD);
    MultipleAdd(p - h, p + c * WORD - h', U64_MOD);
    assert Multiple((p - h) - (p + c * WORD - h'), U64_MOD);
    assert (p - h) - (p + c * WORD - h') == h' - h - c * WORD;
    var q: int :| Times(h' - h - c * WORD, U64_MOD, q);
    assert h' == h + WORD * (c + q * WORD);
    HighPart(h, h', c + q * WORD);
    assert Times(h' / WORD - h / WORD - c, WORD, q);
  }

  lemma HighPart(h: nat, h': nat, t: int)
    requires h' == h + WORD * t
    ensures h' / WORD == h / WORD + t
  {
  }

  /** What `index_of` does with the product. */
  function Mix(h: nat, len: nat): nat
    requires len > 0
  {
    ((h + h / WORD) % U64_MOD) % len
  }

  lemma MixIsSum(h: nat, len: nat)
    requires len > 0 && Multiple(WORD, len)
    ensures Multiple(Mix(h, len) - h - h / WORD, len)
  {
    var s := h + h / WORD;
    ModIsCongruent(s, U64_MOD);
    MultipleOf(WORD, WORD);
    MultipleOfMultiple(U64_MOD, WORD, len);
    MultipleOfMultiple(s - s % U64_MOD, U64_MOD, len);
    ModIsCongruent(s % U64_MOD, len);
    MultipleAdd(s - s % U64_MOD, s % U64_MOD - Mix(h, len), len);
    MultipleScale(s - Mix(h, len), len, -1);
    assert (s - Mix(h, len)) * -1 == Mix(h, len) - h - h / WORD;
  }

  lemma MixShift(p: nat, c: nat, len: nat)
    requires len > 0 && Multiple(WORD, len)
    ensures Multiple(Mix((p + c * WORD) % U64_MOD, len) - Mix(p % U64_MOD, len) - c, len)
  {
    var h, h' := p % U64_MOD, (p + c * WORD) % U64_MOD;
    HighShift(p, c);
    var d := h' / WORD - h / WORD;
    MixIsSum(h, len);
    MixIsSum(h', len);
    MultipleScale(WORD, len, d);
    MultipleOfMultiple(d - c, WORD, len);
    MultipleAdd(Mix(h', len) - h' - h' / WORD, Mix(h, len) - h - h / WORD, len);
    var x := (Mix(h', len) - h' - h' / WORD) - (Mix(h, len) - h - h / WORD);
    MultipleAdd(x, WORD * d, len);
    MultipleAdd(x + WORD * d, d - c, len);
    assert x + WORD * d + (d - c) == Mix(h', len) - Mix(h, len) - c;
  }

  /** The index moves by `k` times the seed. */
  lemma IndexShift(hash: nat, k: nat, depth: nat, len: nat)
    requires depth < 4 && len > 0 && Multiple(WORD, len)
    ensures Multiple(IndexOf(hash + k * WORD, depth, len) - IndexOf(hash, depth, len) - k * Seed(depth), len)
  {
    var seed := Seed(depth);
    assert (hash + k * WORD + seed) * seed == (hash + seed) * seed + (k * seed) * WORD by {
      assert (hash + seed + k * WORD) * seed == (hash + seed) * seed + (k * WORD) * seed;
      assert (k * WORD) * seed == (k * seed) * WORD;
    }
    hide Seed;
    MixShift((hash + seed) * seed, k * seed, len);
  }

  lemma SeedsAreOdd(depth: nat)
    requires depth < 4
    ensures Seed(depth) % 2 == 1
  {
  }

  /** For a table of 2^e words, every word is the `depth`-th one of exactly one of the hashes
      `r + k * 2^32`, `k < 2^e`. */
  lemma SomeShiftHits(e: nat, r: nat, depth: nat, x: nat) returns (k: nat)
    requires e <= 32 && depth < 4 && x < Pow2(e)
    ensures k < Pow2(e) && IndexOf(r + k * WORD, depth, Pow2(e)) == x
  {
    hide IndexOf, Pow2, Seed;
    var len, seed := Pow2(e), Seed(depth);
    WordDivides(e);
    SeedsAreOdd(depth);
    var u := OddInverse(e, seed);
    var i := IndexOf(r, depth, len);
    k := ((x - i) * u) % len;
    IndexShift(r, k, depth, len);
    ShiftSolves(x - i, u, seed, k, len);
    var j := IndexOf(r + k * WORD, depth, len);
    MultipleAdd(j - i - k * seed, k * seed - (x - i), len);
    assert (j - i - k * seed) + (k * seed - (x - i)) == j - x;
    SmallMultiple(j - x, len);
  }

  lemma WordDivides(e: nat)
    requires e <= 32
    ensures Multiple(WORD, Pow2(e))
  {
    hide Pow2;
    PowerDivides(e, 32);
    WordIsPower();
  }

  lemma WordIsPower()
    ensures Pow2(32) == WORD
  {
    ByteIsPower();
    hide Pow2;
    Pow2Sum(8, 8);
    Pow2Sum(16, 16);
  }

  lemma ByteIsPower()
    ensures Pow2(8) == 256
  {
  }

  /** `k == d * u` solves `k * seed == d` when `u` is the inverse of `seed`. */
  lemma ShiftSolves(d: int, u: int, seed: int, k: int, len: nat)
    requires len > 0 && k == (d * u) % len && Multiple(u * seed - 1, len)
    ensures Multiple(k * seed - d, len)
  {
    ModIsCongruent(d * u, len);
    MultipleScale(d * u - k, len, seed);
    MultipleScale(u * seed - 1, len, d);
    MultipleAdd((u * seed - 1) * d, (d * u - k) * seed, len);
    assert (u * seed - 1) * d - (d * u - k) * seed == k * seed - d by {
      assert (u * seed - 1) * d == u * seed * d - d;
      assert (d * u - k) * seed == d * u * seed - k * seed;
      assert u * seed * d == d * u * seed;
    }
  }

  lemma OneShiftHits(e: nat, r: nat, depth: nat, k: nat, k': nat)
    requires e <= 32 && depth < 4 && k < Pow2(e) && k' < Pow2(e)
    requires IndexOf(r + k * WORD, depth, Pow2(e)) == IndexOf(r + k' * WORD, depth, Pow2(e))
    ensures k == k'
  {
    hide IndexOf, Pow2, Seed;
    var len, seed := Pow2(e), Seed(depth);
    WordDivides(e);
    SeedsAreOdd(depth);
    var u := OddInverse(e, seed);
    var i, j := IndexOf(r, depth, len), IndexOf(r + k * WORD, depth, len);
    IndexShift(r, k, depth, len);
    IndexShift(r, k', depth, len);
    MultipleAdd(j - i - k * seed, j - i - k' * seed, len);
    assert (j - i - k * seed) - (j - i - k' * seed) == (k' - k) * seed;
    Cancels(k' - k, u, seed, len);
    SmallMultiple(k' - k, len);
  }

  lemma Cancels(d: int, u: int, seed: int, len: nat)
    requires Multiple(d * seed, len) && Multiple(u * seed - 1, len)
    ensures Multiple(d, len)
  {
    MultipleScale(d * seed, len, u);
    MultipleScale(u * seed - 1, len, d);
    MultipleAdd(d * seed * u, (u * seed - 1) * d, len);
    assert d * seed * u - (u * seed - 1) * d == d by {
      assert (u * seed - 1) * d == u * seed * d - d;
      assert u * seed * d == d * seed * u;
    }
  }

  // ----- who owns which counter ------------------------------------------------------------------------

  /** Hash number `j` of the run. */
  function HashAt(j: nat): nat {
    j % 4 + (j / 4) * WORD
  }

  /** The group and the depth of a slot. */
  function Group(k: bv64): (r: nat)
    ensures r < 4
  {
    if k < 4 then 0 else if k < 8 then 1 else if k < 12 then 2 else 3
  }

  function Depth(k: bv64): (d: nat)
    ensures d < 4
  {
    if k & 3 == 0 then 0 else if k & 3 == 1 then 1 else if k & 3 == 2 then 2 else 3
  }

  lemma SlotIs(hash: nat, d: nat, k: bv64)
    requires d < 4 && k < 16
    ensures k == SlotOf(hash, d) <==> Group(k) == hash % 4 && Depth(k) == d
  {
  }

  lemma GroupOfHash(j: nat)
    ensures HashAt(j) % 4 == j % 4
  {
    assert WORD == 4 * 0x4000_0000;
    assert HashAt(j) == j % 4 + 4 * ((j / 4) * 0x4000_0000);
  }

  ghost predicate ShiftHits(e: nat, r: nat, d: nat, x: nat, i: nat)
    requires d < 4
  {
    i < Pow2(e) && IndexOf(r + i * WORD, d, Pow2(e)) == x
  }

  lemma ShiftExists(e: nat, r: nat, d: nat, x: nat)
    requires e <= 32 && d < 4 && x < Pow2(e)
    ensures exists i: nat :: ShiftHits(e, r, d, x, i)
  {
    hide IndexOf, Pow2;
    var i := SomeShiftHits(e, r, d, x);
    assert ShiftHits(e, r, d, x, i);
  }

  /** The number of the hash that counter `k` of word `x` belongs to. */
  ghost function Owner(e: nat, x: nat, k: bv64): (j: nat)
    requires e <= 32 && x < Pow2(e) && k < 16
  {
    ShiftExists(e, Group(k), Depth(k), x);
    var i: nat :| ShiftHits(e, Group(k), Depth(k), x, i);
    4 * i + Group(k)
  }

  lemma OwnerOwns(e: nat, x: nat, k: bv64)
    requires e <= 32 && x < Pow2(e) && k < 16
    ensures var j := Owner(e, x, k);
      j < 4 * Pow2(e) && j % 4 == Group(k) && IndexOf(HashAt(j), Depth(k), Pow2(e)) == x
  {
    hide IndexOf, Pow2, Group, Depth;
    ShiftExists(e, Group(k), Depth(k), x);
    var i := Owner(e, x, k) / 4;
    assert ShiftHits(e, Group(k), Depth(k), x, i);
    assert HashAt(4 * i + Group(k)) == Group(k) + i * WORD;
  }

  /** A hash bumps exactly the counters it owns. */
  lemma HitsOwn(e: nat, j: nat, x: nat, k: bv64)
    requires e <= 32 && j < 4 * Pow2(e) && x < Pow2(e) && k < 16
    ensures Hit(HashAt(j), 4, Pow2(e), x, k) <==> Owner(e, x, k) == j
  {
    hide IndexOf, Owner, HashAt, SlotOf, Pow2, Group, Depth;
    GroupOfHash(j);
    OwnerOwns(e, x, k);
    forall d | 0 <= d < 4 ensures k == SlotOf(HashAt(j), d) <==> Group(k) == j % 4 && Depth(k) == d {
      SlotIs(HashAt(j), d, k);
    }
    if Hit(HashAt(j), 4, Pow2(e), x, k) {
      SameOwner(e, j, Owner(e, x, k), Depth(k));
    }
    if Owner(e, x, k) == j {
      assert x == IndexOf(HashAt(j), Depth(k), Pow2(e)) && k == SlotOf(HashAt(j), Depth(k));
    }
  }

  lemma SameOwner(e: nat, j: nat, j': nat, d: nat)
    requires e <= 32 && d < 4 && j < 4 * Pow2(e) && j' < 4 * Pow2(e) && j % 4 == j' % 4
    requires IndexOf(HashAt(j), d, Pow2(e)) == IndexOf(HashAt(j'), d, Pow2(e))
    ensures j == j'
  {
    hide IndexOf, Pow2;
    OneShiftHits(e, j % 4, d, j / 4, j' / 4);
  }

  // ----- runs ------------------------------------------------------------------------------------------

  /** What a run of increments does to a new table before the first aging. */
  datatype Tally = Tally(table: seq<bv64>, events: nat)

  function NewTable(len: nat): (t: seq<bv64>)
    ensures |t| == len && forall x :: 0 <= x < len ==> t[x] == 0
  {
    seq(len, _ => 0)
  }

  ghost function TallyAfter(len: nat, hashes: seq<nat>): (p: Tally)
    requires len > 0
    ensures |p.table| == len
  {
    if hashes == [] then Tally(NewTable(len), 0)
    else
      var p, hash := TallyAfter(len, hashes[..|hashes| - 1]), hashes[|hashes| - 1];
      Tally(BumpTo(p.table, hash, 4), p.events + if AllFull(p.table, hash, 4) then 0 else 1)
  }

  /** The last increment is the one that completes the sampling period. */
  ghost predicate Ages(len: nat, sample: nat, hashes: seq<nat>)
    requires len > 0
  {
    && hashes != [] && (forall hash :: hash in hashes ==> hash < U64_MOD)
    && TallyAfter(len, hashes).events == sample
    && TallyAfter(len, hashes[..|hashes| - 1]).events == sample - 1
  }

  /** That aging subtracts more than it has. */
  ghost predicate Underflows(len: nat, sample: nat, hashes: seq<nat>)
    requires len > 0
  {
    Ages(len, sample, hashes) && sample / 2 - OddTotal(TallyAfter(len, hashes).table) / 4 < 0
  }

  // ----- the run that leaves all counters odd --------------------------------------------------------------

  /** Event `i`: each of the `4 * len` hashes once, then the first few twice more. */
  function EventAt(len: nat, i: nat): nat {
    if i < 4 * len then i else (i - 4 * len) / 2
  }

  function RunHashes(len: nat, n: nat): (hs: seq<nat>)
    ensures |hs| == n && forall i :: 0 <= i < n ==> hs[i] == HashAt(EventAt(len, i))
  {
    seq(n, i requires 0 <= i < n => HashAt(EventAt(len, i)))
  }

  /** How often hash `j` has occurred before event `i`. */
  function CountAt(len: nat, i: nat, j: nat): nat {
    (if j < i then 1 else 0)
    + if i >= 4 * len + 2 * j + 2 then 2 else if i == 4 * len + 2 * j + 1 then 1 else 0
  }

  function Small(n: nat): bv64 {
    if n == 0 then 0 else if n == 1 then 1 else if n == 2 then 2 else 3
  }

  /** Every counter holds the number of occurrences of its owner. */
  ghost predicate Counts(e: nat, t: seq<bv64>, i: nat)
    requires e <= 32
  {
    && |t| == Pow2(e)
    && forall x, k: bv64 :: 0 <= x < |t| && k < 16 ==>
         Counter(t[x], k) == Small(CountAt(|t|, i, Owner(e, x, k)))
  }

  lemma CountNext(len: nat, i: nat, j: nat)
    requires i <= 12 * len && j < 4 * len
    ensures Small(CountAt(len, i + 1, j))
         == if EventAt(len, i) == j then Bump(Small(CountAt(len, i, j))) else Small(CountAt(len, i, j))
  {
  }

  lemma CountsNext(e: nat, t: seq<bv64>, i: nat)
    requires e <= 32 && Counts(e, t, i) && i < 12 * Pow2(e)
    ensures Counts(e, BumpTo(t, HashAt(EventAt(Pow2(e), i)), 4), i + 1)
  {
    hide Owner, Hit, Counter, EventAt, CountAt, HashAt, Small, Bump, BumpTo, Pow2;
    var len, j := |t|, EventAt(Pow2(e), i);
    EventInRange(len, i);
    BumpToBumps(t, HashAt(j), 4);
    var t' := BumpTo(t, HashAt(j), 4);
    forall x, k: bv64 | 0 <= x < len && k < 16
      ensures Counter(t'[x], k) == Small(CountAt(len, i + 1, Owner(e, x, k)))
    {
      HitsOwn(e, j, x, k);
      OwnerOwns(e, x, k);
      CountNext(len, i, Owner(e, x, k));
    }
  }

  lemma EventInRange(len: nat, i: nat)
    requires i < 12 * len
    ensures EventAt(len, i) < 4 * len
  {
  }

  lemma NeverFull(e: nat, t: seq<bv64>, i: nat, hash: nat)
    requires e <= 32 && Counts(e, t, i)
    ensures !AllFull(t, hash, 4)
  {
    hide Owner, Counter, CountAt;
    assert CounterAt(t, hash, 0) <= 3;
  }

  lemma NoneCounted(e: nat)
    requires e <= 32
    ensures Counts(e, NewTable(Pow2(e)), 0)
  {
    var t := NewTable(Pow2(e));
    forall x, k: bv64 | 0 <= x < |t| && k < 16 ensures Counter(t[x], k) == 0 { ZeroCounter(k); }
    hide Owner, Counter;
  }

  lemma ZeroCounter(k: bv64)
    requires k < 16
    ensures Counter(0, k) == 0
  {
  }

  /** Every event of the run is counted, and the counters are as computed. */
  lemma {:induction false} RunCounts(e: nat, n: nat)
    requires e <= 32 && n <= 12 * Pow2(e)
    ensures var p := TallyAfter(Pow2(e), RunHashes(Pow2(e), n)); p.events == n && Counts(e, p.table, n)
  {
    hide Counts, BumpTo, AllFull, EventAt, HashAt, Pow2;
    if n == 0 {
      NoneCounted(e);
    } else {
      RunCounts(e, n - 1);
      var hs := RunHashes(Pow2(e), n);
      assert hs[..n - 1] == RunHashes(Pow2(e), n - 1);
      var p := TallyAfter(Pow2(e), hs[..n - 1]);
      CountsNext(e, p.table, n - 1);
      NeverFull(e, p.table, n - 1, hs[n - 1]);
    }
  }

  // ----- all counters are odd at the end --------------------------------------------------------------------

  lemma OddAtTheEnd(len: nat, n: nat, j: nat)
    requires 4 * len <= n && n % 2 == 0 && j < 4 * len
    ensures IsOdd(Small(CountAt(len, n, j)))
  {
  }

  lemma WordAllOdd(e: nat, t: seq<bv64>, n: nat, x: nat)
    requires e <= 32 && Counts(e, t, n) && 4 * Pow2(e) <= n && n % 2 == 0 && x < |t|
    ensures OddCounters(t[x]) == 16
  {
    hide Owner, Counter, CountAt, Small, IsOdd, Pow2;
    forall k: bv64 | k < 16 ensures Odd(t[x], k) == 1 {
      OwnerOwns(e, x, k);
      OddAtTheEnd(|t|, n, Owner(e, x, k));
    }
  }

  lemma {:induction false} AllOddUpTo(e: nat, t: seq<bv64>, n: nat, x: nat)
    requires e <= 32 && Counts(e, t, n) && 4 * Pow2(e) <= n && n % 2 == 0 && x <= |t|
    ensures OddTotal(t[..x]) == 16 * x
  {
    hide Counts, OddCounters, Pow2;
    if x > 0 {
      AllOddUpTo(e, t, n, x - 1);
      WordAllOdd(e, t, n, x - 1);
      OddTotalNext(t, x - 1);
    }
  }

  // ----- for every capacity --------------------------------------------------------------------------------

  /** The sampling period is ten times the capacity up to here. */
  const LAST_TENFOLD: nat := 214_748_364

  lemma {:induction false} PowerFromExponent(e: nat, n: nat) returns (f: nat)
    requires e <= 28 && n <= Pow2(28)
    ensures f <= 28 && PowerFrom(Pow2(e), n) == Pow2(f)
    decreases 28 - e
  {
    if Pow2(e) >= n { f := e; } else { f := PowerFromExponent(e + 1, n); }
  }

  lemma TableExponent(cap: nat) returns (e: nat)
    requires 0 < cap <= LAST_TENFOLD
    ensures e <= 28 && TableSize(cap) == Pow2(e) && SampleSize(cap) == 10 * cap && cap <= TableSize(cap) < 2 * cap + 1
  {
    hide Pow2, PowerFrom;
    LargePowers();
    PowerOne();
    e := PowerFromExponent(0, cap);
  }

  /** If the table is too long for the period, the run of all hashes underflows. */
  lemma RunUnderflows(e: nat, n: nat)
    requires e <= 32 && 4 * Pow2(e) <= n <= 12 * Pow2(e) && n % 2 == 0 && 8 * Pow2(e) > n
    ensures Underflows(Pow2(e), n, RunHashes(Pow2(e), n))
  {
    hide Pow2, TallyAfter, Counts, OddTotal, RunHashes;
    var len := Pow2(e);
    RunCounts(e, n);
    RunCounts(e, n - 1);
    RunPrefix(len, n);
    RunFits(e);
    RunIsValid(len, n);
    var t := TallyAfter(len, RunHashes(len, n)).table;
    AllOddUpTo(e, t, n, len);
    assert t[..len] == t;
    assert OddTotal(t) / 4 == 4 * len;
  }

  lemma RunFits(e: nat)
    requires e <= 32
    ensures Pow2(e) <= WORD
  {
    hide Pow2;
    Pow2Monotone(e, 32);
    WordIsPower();
  }

  lemma RunIsValid(len: nat, n: nat)
    requires 0 < n <= 12 * len && len <= WORD
    ensures RunHashes(len, n) != [] && forall hash :: hash in RunHashes(len, n) ==> hash < U64_MOD
  {
    hide EventAt, HashAt;
    var hs := RunHashes(len, n);
    forall i | 0 <= i < n ensures hs[i] < U64_MOD {
      EventInRange(len, i);
      HashFits(EventAt(len, i));
    }
  }

  lemma HashFits(j: nat)
    requires j < 4 * WORD
    ensures HashAt(j) < U64_MOD
  {
  }

  lemma UnsafeRunUnderflows(cap: nat)
    requires 0 < cap <= LAST_TENFOLD && 8 * TableSize(cap) > SampleSize(cap)
    ensures Underflows(TableSize(cap), SampleSize(cap), RunHashes(TableSize(cap), SampleSize(cap)))
  {
    hide Pow2, TableSize, SampleSize, Underflows, RunHashes;
    var e := TableExponent(cap);
    RunUnderflows(e, SampleSize(cap));
  }

  lemma RunPrefix(len: nat, n: nat)
    requires n > 0
    ensures RunHashes(len, n)[..n - 1] == RunHashes(len, n - 1)
  {
  }

  /** Some run of increments makes aging subtract more than it has if and only if the table has more
      than an eighth as many words as the sampling period. */
  lemma UnderflowIff(cap: nat)
    requires 0 < cap <= LAST_TENFOLD
    ensures TableSize(cap) > 0
    ensures (exists hashes :: Underflows(TableSize(cap), SampleSize(cap), hashes))
       <==> 8 * TableSize(cap) > SampleSize(cap)
  {
    var e := TableExponent(cap);
    hide Pow2, PowerFrom, TableSize, SampleSize, Ages, OddTotal;
    var len, n := TableSize(cap), SampleSize(cap);
    if 8 * len > n {
      UnsafeRunUnderflows(cap);
    } else {
      forall hashes ensures !Underflows(len, n, hashes) {
        assert OddTotal(TallyAfter(len, hashes).table) <= 16 * len;
      }
    }
  }

  /** Among the capacities a cache asks for first, exactly 129 to 204 can underflow. */
  lemma FirstCapacitiesThatUnderflow(cap: nat)
    requires 128 <= cap <= 256
    ensures TableSize(cap) > 0
    ensures (exists hashes :: Underflows(TableSize(cap), SampleSize(cap), hashes)) <==> 129 <= cap <= 204
  {
    hide TableSize, SampleSize, Underflows;
    UnderflowIff(cap);
    CapacitiesFrom129AreUnsafe(cap);
  }

  /** One increment before the sampling period is over. */
  method Feed(sk: Sketch, hash: nat, ghost p: Tally)
    requires sk.Valid() && sk.table.Length > 0 && sk.table[..] == p.table && sk.size == p.events
    requires p.events + 1 < sk.sampleSize || AllFull(p.table, hash, 4)
    requires sk.sampleSize < U32_MOD
    modifies sk, sk.table
    ensures sk.Valid() && sk.table == old(sk.table) && sk.sampleSize == old(sk.sampleSize)
    ensures sk.table[..] == BumpTo(p.table, hash, 4)
    ensures sk.size == p.events + if AllFull(p.table, hash, 4) then 0 else 1
  {
    hide BumpTo, AllFull, Overestimates, OddTotal, AgedSize, TableSize, SampleSize, Halved, HalvedExact, Bumped;
    ghost var mid, aged := sk.Increment(hash);
  }

  /** The increment that completes it. */
  method FeedLast(sk: Sketch, hash: nat, ghost p: Tally)
    requires sk.Valid() && sk.table.Length > 0 && sk.table[..] == p.table && sk.size == p.events
    requires p.events + 1 == sk.sampleSize < U32_MOD && !AllFull(p.table, hash, 4)
    modifies sk, sk.table
    ensures sk.size == AgedSize(sk.sampleSize, OddTotal(BumpTo(p.table, hash, 4)))
    ensures sk.sampleSize == old(sk.sampleSize)
  {
    hide BumpTo, AllFull, Overestimates, OddTotal, AgedSize, TableSize, SampleSize, Halved, HalvedExact, Bumped;
    ghost var mid, aged := sk.Increment(hash);
  }

  lemma TallyNext(len: nat, hashes: seq<nat>, i: nat)
    requires len > 0 && i < |hashes|
    ensures var p := TallyAfter(len, hashes[..i]);
      TallyAfter(len, hashes[..i + 1])
      == Tally(BumpTo(p.table, hashes[i], 4), p.events + if AllFull(p.table, hashes[i], 4) then 0 else 1)
  {
    hide BumpTo, AllFull;
    assert hashes[..i + 1][..i] == hashes[..i];
  }

  lemma {:induction false} EventsGrow(len: nat, hashes: seq<nat>, i: nat, n: nat)
    requires len > 0 && i <= n <= |hashes|
    ensures TallyAfter(len, hashes[..i]).events <= TallyAfter(len, hashes[..n]).events
  {
    hide TallyAfter, BumpTo, AllFull;
    if i < n {
      EventsGrow(len, hashes, i, n - 1);
      TallyNext(len, hashes, n - 1);
    }
  }

  lemma SampleFits(cap: nat)
    ensures SampleSize(cap) < U32_MOD
  {
  }

  /** The sketch itself, made for `cap` and given such a run: its size after the last increment is what
      the subtraction leaves in 32 bits, so it wraps around if the run underflows. */
  method Replay(cap: nat, hashes: seq<nat>) returns (size: nat)
    requires 0 < cap < U32_MOD && TableSize(cap) > 0 && Ages(TableSize(cap), SampleSize(cap), hashes)
    ensures size == AgedSize(SampleSize(cap), OddTotal(TallyAfter(TableSize(cap), hashes).table))
  {
    hide BumpTo, AllFull, Overestimates, OddTotal, AgedSize, TableSize, SampleSize;
    ghost var len := TableSize(cap);
    SampleFits(cap);
    var sk := new Sketch();
    sk.EnsureCapacity(cap);
    var last := |hashes| - 1;
    assert hashes[..0] == [] && sk.table[..] == NewTable(len) && hashes[..last + 1] == hashes;
    assert sk.size == 0 && sk.table[..] == TallyAfter(len, []).table;
    hide TallyAfter;
    for i := 0 to last
      invariant fresh(sk) && fresh(sk.table) && sk.Valid() && sk.table.Length == len && sk.sampleSize == SampleSize(cap)
      invariant sk.table[..] == TallyAfter(len, hashes[..i]).table && sk.size == TallyAfter(len, hashes[..i]).events
    {
      TallyNext(len, hashes, i);
      EventsGrow(len, hashes, i + 1, last);
      Feed(sk, hashes[i], TallyAfter(len, hashes[..i]));
    }
    TallyNext(len, hashes, last);
    FeedLast(sk, hashes[last], TallyAfter(len, hashes[..last]));
    size := sk.size;
  }
}
