/** Iterating over a cache that is being changed: keys are partitioned over segments by the high
    bits of their hashes, the iterator snapshots one segment's keys at a time. */
module Iteration {
  import opened Common

  // ----- segments ----------------------------------------------------------------------------

  /** The exponent of `n.next_power_of_two()`. */
  function SegmentBits(n: nat): (e: nat)
    requires n > 0
    ensures Pow2(e) >= n && (e > 0 ==> Pow2(e - 1) < n)
  {
    BitsFrom(n, 0)
  }

  function BitsFrom(n: nat, e: nat): (r: nat)
    requires n > 0 && (e > 0 ==> Pow2(e - 1) < n)
    ensures Pow2(r) >= n && (r > 0 ==> Pow2(r - 1) < n)
    decreases SatSub(n, Pow2(e))
  {
    if Pow2(e) >= n then e else BitsFrom(n, e + 1)
  }

  /** `hash >> shift`. */
  function ShiftRight(hash: nat, shift: nat): nat {
    if shift == 0 then hash else ShiftRight(hash / 2, shift - 1)
  }

  lemma {:induction false} ShiftIsRange(hash: nat, shift: nat)
    ensures var q := ShiftRight(hash, shift); q * Pow2(shift) <= hash < (q + 1) * Pow2(shift)
  {
    if shift > 0 {
      ShiftIsRange(hash / 2, shift - 1);
      Doubled(hash, ShiftRight(hash, shift), Pow2(shift - 1));
    }
  }

  lemma Doubled(hash: nat, q: nat, half: nat)
    requires q * half <= hash / 2 < (q + 1) * half
    ensures q * (2 * half) <= hash < (q + 1) * (2 * half)
  {
  }

  /** `segment_index_from_hash` for a table of `2^bits` segments and hashes of `width` bits (64
      in the source): the shift is `width - bits`. */
  function SegmentIndex(width: nat, bits: nat, hash: nat): nat
    requires bits <= width
  {
    var shift := width - bits;
    if shift == width then 0 else ShiftRight(hash, shift)
  }

  /** Every hash has a segment, and a segment is a contiguous range of hashes. */
  lemma SegmentIsRange(width: nat, bits: nat, hash: nat)
    requires bits <= width && hash < Pow2(width)
    ensures var q, span := SegmentIndex(width, bits, hash), Pow2(width - bits);
      q < Pow2(bits) && q * span <= hash < (q + 1) * span
  {
    var q, span := SegmentIndex(width, bits, hash), Pow2(width - bits);
    Pow2Sum(bits, width - bits);
    if bits > 0 {
      ShiftIsRange(hash, width - bits);
      if q >= Pow2(bits) { MulMonotone(Pow2(bits), q, span); }
    }
  }

  type Key = nat

  // ----- the changing cache ------------------------------------------------------------------

  /** The cache as the iterator meets it.  Accesses are numbered by a clock, and anything may
      happen to the cache between two of them: `present(t)` are the keys in the tables at access
      `t`, `list` the order in which a segment hands them out, `get` what a lookup returns. */
  datatype World<V> = World(
    hashWidth: nat,
    cacheBits: nat,              // a segmented cache has 2^cacheBits caches
    chtBits: seq<nat>,           // and cache `c` a table of 2^chtBits[c] segments
    hash: Key -> nat,
    present: nat -> iset<Key>,
    list: (nat, nat, nat) -> seq<Key>,
    get: (nat, nat, Key) -> Option<V>)

  ghost predicate Shaped<V>(w: World<V>) {
    && w.cacheBits <= w.hashWidth && |w.chtBits| == Pow2(w.cacheBits)
    && (forall c :: 0 <= c < |w.chtBits| ==> w.chtBits[c] <= w.hashWidth)
    && (forall k :: w.hash(k) < Pow2(w.hashWidth))
  }

  ghost function CacheOf<V>(w: World<V>, k: Key): (c: nat)
    requires Shaped(w)
    ensures c < |w.chtBits|
  {
    SegmentIsRange(w.hashWidth, w.cacheBits, w.hash(k));
    SegmentIndex(w.hashWidth, w.cacheBits, w.hash(k))
  }

  ghost function SegmentOf<V>(w: World<V>, k: Key): (i: nat)
    requires Shaped(w)
    ensures i < Pow2(w.chtBits[CacheOf(w, k)])
  {
    SegmentIsRange(w.hashWidth, w.chtBits[CacheOf(w, k)], w.hash(k));
    SegmentIndex(w.hashWidth, w.chtBits[CacheOf(w, k)], w.hash(k))
  }

  /** A segment lists each of its present keys once, and no others. */
  ghost predicate Lists<V>(w: World<V>, t: nat, c: nat, i: nat)
    requires Shaped(w)
  {
    && Distinct(w.list(t, c, i))
    && forall k :: k in w.list(t, c, i) <==> k in w.present(t) && CacheOf(w, k) == c && SegmentOf(w, k) == i
  }

  ghost predicate WorldOk<V>(w: World<V>) {
    Shaped(w) && forall t: nat, c: nat, i: nat :: Lists(w, t, c, i)
  }

  /** Present and valid whenever the iterator looks. */
  ghost predicate Stays<V>(w: World<V>, k: Key)
    requires Shaped(w)
  {
    forall t: nat :: k in w.present(t) && w.get(t, CacheOf(w, k), k).Some?
  }

  /** Key `k` was in the tables at some access before `t`. */
  ghost predicate SeenBefore<V>(w: World<V>, k: Key, t: nat) {
    exists u: nat :: u < t && k in w.present(u)
  }

  /** Access `t` looked the key up in its own cache and found this value, after the key had been
      listed. */
  ghost predicate FoundAt<V>(w: World<V>, kv: (Key, V), t: nat)
    requires Shaped(w)
  {
    w.get(t, CacheOf(w, kv.0), kv.0) == Some(kv.1) && SeenBefore(w, kv.0, t)
  }

  /** One of the accesses from `from` on and before `to` did. */
  ghost predicate FoundBetween<V>(w: World<V>, kv: (Key, V), from: nat, to: nat)
    requires Shaped(w)
  {
    exists t: nat :: from <= t < to && FoundAt(w, kv, t)
  }

  // ----- how far the iteration has come ------------------------------------------------------

  /** The next segment to list is `(c, i)`, `keys` are left of the last one listed. */
  datatype Progress = Progress(c: nat, i: nat, keys: seq<Key>, returned: seq<Key>)

  ghost predicate Behind<V>(w: World<V>, p: Progress, k: Key)
    requires Shaped(w)
  {
    CacheOf(w, k) < p.c || (CacheOf(w, k) == p.c && SegmentOf(w, k) < p.i)
  }

  /** Keys are never lost and never repeated. */
  ghost predicate OnTrack<V>(w: World<V>, p: Progress) {
    && WorldOk(w)
    && Distinct(p.keys) && Distinct(p.returned)
    && (forall k :: k in p.keys ==> CacheOf(w, k) == p.c && SegmentOf(w, k) == p.i - 1 && k !in p.returned)
    && (forall k :: k in p.returned ==> Behind(w, p, k))
    && (forall k :: Stays(w, k) && Behind(w, p, k) ==> k in p.returned || k in p.keys)
  }

  lemma Starts<V>(w: World<V>)
    requires WorldOk(w)
    ensures OnTrack(w, Progress(0, 0, [], [])) && |w.chtBits| > 0
  {
  }

  lemma Fetches<V>(w: World<V>, p: Progress, t: nat)
    requires OnTrack(w, p) && p.keys == []
    ensures OnTrack(w, p.(i := p.i + 1, keys := w.list(t, p.c, p.i)))
  {
    var p' := p.(i := p.i + 1, keys := w.list(t, p.c, p.i));
    assert Lists(w, t, p.c, p.i);
    hide SegmentIndex, Distinct, Pow2;
    forall k | Stays(w, k) && Behind(w, p', k) ensures k in p'.returned || k in p'.keys {
      assert Behind(w, p, k) || (CacheOf(w, k) == p.c && SegmentOf(w, k) == p.i);
      assert k in w.present(t);
    }
  }

  /** The last segment of a cache has been listed: nothing is skipped by going to the next cache. */
  lemma NextCache<V>(w: World<V>, p: Progress)
    requires OnTrack(w, p) && p.keys == [] && p.c < |w.chtBits| && p.i >= Pow2(w.chtBits[p.c])
    ensures OnTrack(w, p.(c := p.c + 1, i := 0))
  {
  }

  /** The last key listed is looked up, and returned if it is still there and valid. */
  lemma Pops<V>(w: World<V>, p: Progress, t: nat)
    requires OnTrack(w, p) && p.keys != []
    ensures p.keys[|p.keys| - 1] !in p.returned
    ensures var n := |p.keys| - 1;
      OnTrack(w, p.(keys := p.keys[..n],
                    returned := if w.get(t, p.c, p.keys[n]).Some? then p.returned + [p.keys[n]] else p.returned))
  {
  }

  lemma ListedIsSeen<V>(w: World<V>, p: Progress, t: nat)
    requires OnTrack(w, p)
    ensures forall k :: k in w.list(t, p.c, p.i) ==> SeenBefore(w, k, t + 1)
  {
    assert Lists(w, t, p.c, p.i);
  }

  lemma SeenLater<V>(w: World<V>, k: Key, t: nat, u: nat)
    requires SeenBefore(w, k, t) && t <= u
    ensures SeenBefore(w, k, u)
  {
  }

  lemma Ends<V>(w: World<V>, p: Progress)
    requires OnTrack(w, p) && p.c >= |w.chtBits| && p.keys == []
    ensures Distinct(p.returned) && forall k :: Stays(w, k) ==> k in p.returned
  {
  }

  // ----- the iterator ------------------------------------------------------------------------

  predicate Later(here: (nat, nat), there: (nat, nat)) {
    here.0 < there.0 || (here.0 == there.0 && here.1 < there.1)
  }

  class Iter<V> {
    const w: World<V>
    var keys: seq<Key>          // empty also stands for "no keys yet"
    var numChtSegments: nat
    var cacheSegIndex: nat
    var chtSegIndex: nat
    var isDone: bool
    var clock: nat              // accesses made so far
    ghost var returned: seq<Key>

    ghost function Here(): (nat, nat)
      reads this
    {
      (cacheSegIndex, chtSegIndex)
    }

    ghost function Done(): Progress
      reads this
    {
      Progress(cacheSegIndex, chtSegIndex, keys, returned)
    }

    ghost predicate Sound()
      reads this
    {
      && OnTrack(w, Done())
      && |w.chtBits| > 0 && cacheSegIndex <= |w.chtBits|
      && chtSegIndex <= numChtSegments
      && (cacheSegIndex < |w.chtBits| ==> numChtSegments == Pow2(w.chtBits[cacheSegIndex]))
      && (cacheSegIndex == |w.chtBits| ==> keys == [])
      && (forall k :: k in keys ==> SeenBefore(w, k, clock))
    }

    ghost predicate Valid()
      reads this
    {
      Sound() && (isDone <==> cacheSegIndex == |w.chtBits|)
    }

    constructor (w: World<V>)
      requires WorldOk(w)
      ensures Valid() && this.w == w && returned == [] && !isDone
    {
      Starts(w);
      this.w := w;
      keys, cacheSegIndex, chtSegIndex, isDone, clock := [], 0, 0, false, 0;
      numChtSegments := Pow2(w.chtBits[0]);
      returned := [];
    }

    /** Lists the next segment, or finds that no cache is left. */
    method ListNext() returns (some: bool)
      requires Valid() && !isDone && keys == []
      modifies this
      ensures Sound() && !isDone && returned == old(returned) && Later(old(Here()), Here())
      ensures clock >= old(clock) && (some <==> cacheSegIndex < |w.chtBits|)
    {
      hide OnTrack, Pow2, Shaped;
      if chtSegIndex >= numChtSegments {
        NextCache(w, Done());
        cacheSegIndex := cacheSegIndex + 1;
        chtSegIndex := 0;
        if cacheSegIndex >= |w.chtBits| {
          return false;
        }
      }
      Fetches(w, Done(), clock);
      ListedIsSeen(w, Done(), clock);
      hide WorldOk;
      keys := w.list(clock, cacheSegIndex, chtSegIndex);
      numChtSegments := Pow2(w.chtBits[cacheSegIndex]);
      chtSegIndex := chtSegIndex + 1;
      clock := clock + 1;
      some := true;
    }

    /** `current_keys`: lists segments until one has any key, or none is left. */
    method CurrentKeys() returns (some: bool)
      requires Valid() && !isDone
      modifies this
      ensures returned == old(returned) && clock >= old(clock) && (some <==> keys != [])
      ensures Sound() && !isDone && (some <==> cacheSegIndex < |w.chtBits|)
      ensures old(keys) != [] ==> Here() == old(Here()) && keys == old(keys)
      ensures old(keys) == [] ==> Later(old(Here()), Here())
    {
      hide OnTrack, Pow2, WorldOk, Shaped;
      while keys == []
        invariant Valid() && !isDone && returned == old(returned) && clock >= old(clock)
        invariant (Here() == old(Here()) && keys == old(keys)) || (Later(old(Here()), Here()) && old(keys) == [])
        decreases |w.chtBits| - cacheSegIndex, numChtSegments - chtSegIndex
      {
        var more := ListNext();
        if !more {
          return false;
        }
      }
      return true;
    }

    /** Takes the last key listed, and returns it, with the value found, if a lookup still finds it. */
    method TakeKey() returns (r: Option<(Key, V)>)
      requires Valid() && !isDone && keys != []
      modifies this
      ensures Valid() && !isDone && Here() == old(Here()) && keys == old(keys)[..|old(keys)| - 1]
      ensures returned == old(returned) + (if r.Some? then [r.value.0] else [])
      ensures r.Some? ==> r.value.0 !in old(returned)
      ensures clock == old(clock) + 1
      ensures var key := old(keys)[|old(keys)| - 1]; var found := w.get(old(clock), CacheOf(w, key), key);
        && (r.Some? <==> found.Some?)
        && (r.Some? ==> r.value == (key, found.value) && FoundAt(w, r.value, old(clock)))
    {
      assert CacheOf(w, keys[|keys| - 1]) == cacheSegIndex;
      assert keys[|keys| - 1] in keys;
      hide OnTrack, Pow2, WorldOk, Shaped, SeenBefore;
      Pops(w, Done(), clock);
      var key := keys[|keys| - 1];
      ghost var before := clock;
      keys := keys[..|keys| - 1];
      var v := w.get(clock, cacheSegIndex, key);
      clock := clock + 1;
      forall k | k in keys ensures SeenBefore(w, k, clock) { SeenLater(w, k, before, clock); }
      r := None;
      if v.Some? {
        returned := returned + [key];
        r := Some((key, v.value));
      }
    }

    /** `next`: the next key that is still there and valid, with the value one of the lookups of this
        call found for it.  `None` is final, and by then every key that stayed throughout has been
        returned, once. */
    method Next() returns (r: Option<(Key, V)>)
      requires Valid()
      modifies this
      ensures Valid() && (r.None? ==> isDone)
      ensures returned == old(returned) + (if r.Some? then [r.value.0] else [])
      ensures r.Some? ==> r.value.0 !in old(returned)
      ensures clock >= old(clock) && (r.Some? ==> FoundBetween(w, r.value, old(clock), clock))
      ensures old(isDone) ==> r.None?
      ensures r.Some? ==> Later(old(Here()), Here()) || (Here() == old(Here()) && |keys| < old(|keys|))
      ensures isDone ==> forall k :: Stays(w, k) ==> k in returned
    {
      hide OnTrack, Pow2, Stays, Distinct, WorldOk, Shaped, SeenBefore, FoundAt;
      r := None;
      while !isDone
        invariant Valid() && returned == old(returned) && r.None? && clock >= old(clock)
        invariant Later(old(Here()), Here()) || (Here() == old(Here()) && |keys| <= old(|keys|))
        decreases |w.chtBits| - cacheSegIndex, numChtSegments - chtSegIndex, |keys|
      {
        var some := CurrentKeys();
        if !some {
          isDone := true;
        } else {
          r := TakeKey();
          if r.Some? { return; }
        }
      }
      Ends(w, Done());
    }
  }

  function KeysOf<V>(kvs: seq<(Key, V)>): (ks: seq<Key>)
    ensures |ks| == |kvs| && forall i :: 0 <= i < |kvs| ==> ks[i] == kvs[i].0
  {
    seq(|kvs|, i requires 0 <= i < |kvs| => kvs[i].0)
  }

  /** A whole iteration: it ends, repeats no key, misses none that stayed throughout, and returns
      every key after it had been listed, with a value that one of its `accesses` found. */
  method Collect<V>(w: World<V>) returns (kvs: seq<(Key, V)>, accesses: nat)
    requires WorldOk(w)
    ensures Distinct(KeysOf(kvs)) && forall k :: Stays(w, k) ==> k in KeysOf(kvs)
    ensures forall i :: 0 <= i < |kvs| ==> FoundBetween(w, kvs[i], 0, accesses)
  {
    assert Shaped(w);
    hide Stays, Distinct, SeenBefore, FoundAt, OnTrack, WorldOk, Shaped, Pow2;
    var it := new Iter(w);
    kvs := [];
    assert KeysOf(kvs) == [];
    while !it.isDone
      invariant it.Valid() && it.w == w && KeysOf(kvs) == it.returned
      invariant forall i :: 0 <= i < |kvs| ==> FoundBetween(w, kvs[i], 0, it.clock)
      decreases |w.chtBits| - it.cacheSegIndex, it.numChtSegments - it.chtSegIndex, |it.keys|, !it.isDone
    {
      ghost var before := kvs;
      var r := it.Next();
      if r.Some? {
        kvs := kvs + [r.value];
        assert KeysOf(kvs) == KeysOf(before) + [r.value.0];
      }
    }
    accesses := it.clock;
    Ends(w, it.Done());
  }
}
