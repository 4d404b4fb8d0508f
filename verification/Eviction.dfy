/** Size eviction: batches of `evict_lru_entries` inside the maintenance loop, proved to remove
    exactly the shortest least-recently-used prefix whose weight is over the limit. */
module Eviction {
  import opened Common
  import opened PolicyRecord
  import opened Admission
  import opened EvictionState

  // ----- what removing a prefix leaves -------------------------------------------------------

  ghost function Kept(table: map<Key, Id>, out: seq<Id>): map<Key, Id> {
    map k | k in table && table[k] !in out :: table[k]
  }

  ghost function Released(infos: map<Id, EntryInfo>, out: seq<Id>): map<Id, EntryInfo> {
    map id | id in infos :: if id in out then infos[id].(retired := true, admitted := false) else infos[id]
  }

  lemma ReleasedTwice(table: map<Key, Id>, infos: map<Id, EntryInfo>, a: seq<Id>, b: seq<Id>)
    ensures Kept(Kept(table, a), b) == Kept(table, a + b)
    ensures Released(Released(infos, a), b) == Released(infos, a + b)
  {
  }

  /** The state once the `n` least recently used entries, and nothing else, are gone. */
  ghost function AfterFront(st: State, n: nat): State
    requires n <= |st.deq| && Load(st, st.deq[..n]) <= st.weightedSize
  {
    var out := st.deq[..n];
    State(Kept(st.table, out), Released(st.infos, out), st.deq[n..],
          st.entryCount - n,
          st.weightedSize - Load(st, out),
          st.evictionCount + n)
  }

  ghost predicate FrontGone(st: State, st': State, n: nat) {
    && n <= |st.deq| && Load(st, st.deq[..n]) <= st.weightedSize
    && st' == AfterFront(st, n)
  }

  lemma NothingRemoved(st: State)
    ensures FrontGone(st, st, 0)
  {
  }

  /** Nodes that stay keep their share. */
  lemma SharesKept(st: State, st': State, n: nat)
    requires Consistent(st) && Consistent(st') && FrontGone(st, st', n)
    ensures forall id :: id in st'.deq ==> Share(st', id) == Share(st, id)
  {
  }

  /** Removing `n` and then `m` is removing `n + m`. */
  lemma FrontThenFront(st: State, mid: State, st': State, n: nat, m: nat)
    requires Consistent(st) && Consistent(mid) && FrontGone(st, mid, n) && FrontGone(mid, st', m)
    ensures FrontGone(st, st', n + m)
    ensures Load(st, st.deq[..n + m]) == Load(st, st.deq[..n]) + Load(mid, mid.deq[..m])
  {
    hide Consistent, Load, Share, Kept, Released;
    SharesKept(st, mid, n);
    var a, b := st.deq[..n], mid.deq[..m];
    assert st.deq[..n + m] == a + b && st'.deq == st.deq[n + m..];
    LoadConcat(st, a, b);
    LoadSame(st, mid, b);
    ReleasedTwice(st.table, st.infos, a, b);
  }

  lemma PeekKept(st: State, cur: State, n: nat, id: Id)
    requires Consistent(st) && Consistent(cur) && FrontGone(st, cur, n)
    requires id in cur.deq && Clean(Peek(st, id))
    ensures Peek(cur, id) == Peek(st, id)
  {
  }

  lemma FrontGoneQuiet(st: State, cur: State, k: nat)
    requires Quiet(st) && Consistent(cur) && FrontGone(st, cur, k)
    ensures Quiet(cur)
  {
    hide Load, Peek, Consistent, Kept, Released;
    forall id | id in cur.deq ensures Clean(Peek(cur, id)) && Peek(cur, id).lastAccessed.Some? {
      PeekKept(st, cur, k, id);
    }
    SharesKept(st, cur, k);
    LoadSame(st, cur, cur.deq);
    LoadConcat(st, st.deq[..k], cur.deq);
    assert st.deq == st.deq[..k] + cur.deq;
  }

  lemma EvictReleases(st: State, key: Key)
    requires TableOk(st) && DequeOk(st) && key in st.table && st.table[key] in st.deq
    ensures Evict(st, key).table == Kept(st.table, [st.table[key]])
    ensures Evict(st, key).infos == Released(st.infos, [st.table[key]])
  {
  }

  lemma EvictFields(st: State)
    requires Consistent(st) && st.deq != [] && Clean(Peek(st, st.deq[0]))
    ensures var key := st.infos[st.deq[0]].key; key in st.table && st.table[key] == st.deq[0]
    ensures var st' := Evict(st, st.infos[st.deq[0]].key);
      st'.deq == st.deq[1..] && st'.entryCount == st.entryCount - 1 && st'.evictionCount == st.evictionCount + 1
  {
    hide Load;
    FrontClean(st);
    assert st.deq[0] in st.deq;
  }

  lemma FrontGoneByFields(st: State, st': State)
    requires st.deq != [] && Share(st, st.deq[0]) <= st.weightedSize
    requires st'.table == Kept(st.table, [st.deq[0]]) && st'.infos == Released(st.infos, [st.deq[0]])
    requires st'.deq == st.deq[1..] && st'.entryCount == st.entryCount - 1 && st'.evictionCount == st.evictionCount + 1
    requires st'.weightedSize == st.weightedSize - Share(st, st.deq[0])
    ensures FrontGone(st, st', 1)
  {
    hide Load, Share, Kept, Released;
    OneLoad(st);
    assert st.deq[..1] == [st.deq[0]];
  }

  lemma EvictIsFront(st: State)
    requires Consistent(st) && st.deq != [] && Clean(Peek(st, st.deq[0]))
    ensures var i := st.infos[st.deq[0]];
      i.key in st.table && FrontGone(st, Evict(st, i.key), 1) && Consistent(Evict(st, i.key))
  {
    EvictFields(st);
    FrontNumbers(st);
    hide *;
    var key := st.infos[st.deq[0]].key;
    EvictConsistent(st, key);
    EvictReleases(st, key);
    FrontGoneByFields(st, Evict(st, key));
  }

  lemma FrontNumbers(st: State)
    requires Consistent(st) && st.deq != [] && Clean(Peek(st, st.deq[0]))
    ensures TableOk(st) && DequeOk(st) && !IsDirty(st.infos[st.deq[0]]) && st.deq[0] in st.deq
    ensures Share(st, st.deq[0]) <= st.weightedSize
  {
    hide Load;
    assert st.deq[0] in st.deq;
    LoadFirst(st, st.deq);
  }

  lemma OneLoad(st: State)
    requires st.deq != []
    ensures Load(st, st.deq[..1]) == Share(st, st.deq[0])
  {
  }

  // ----- one batch ---------------------------------------------------------------------------

  /** `skip_updated_entry_ao`. */
  function SkipUpdated(st: State, key: Key): State {
    if key in st.table then
      if st.table[key] in st.deq then st.(deq := ToBack(st.deq, PositionOf(st.deq, st.table[key]))) else st
    else if st.deq != [] then st.(deq := ToBack(st.deq, 0)) else st
  }

  /** Skipping moves one node to the back: that of the entry the table now holds under the key, which need
      not be the one in front; or the one in front, if the table holds none.  Nothing else changes. */
  lemma SkipMovesOne(st: State, key: Key)
    requires Distinct(st.deq)
    ensures var st' := SkipUpdated(st, key);
      && st' == st.(deq := st'.deq)
      && st'.deq ==
         if key in st.table then
           (if st.table[key] in st.deq then Without(st.deq, st.table[key]) + [st.table[key]] else st.deq)
         else if st.deq != [] then st.deq[1..] + [st.deq[0]] else []
  {
    hide PositionOf;
    if key !in st.table && st.deq != [] { assert st.deq[..0] + st.deq[1..] == st.deq[1..]; }
  }

  lemma ReorderConsistent(st: State, deq: seq<Id>)
    requires Consistent(st) && Rearranged(st.deq, deq)
    ensures Consistent(st.(deq := deq)) && Load(st.(deq := deq), deq) == Load(st, st.deq)
    ensures forall id :: Peek(st.(deq := deq), id) == Peek(st, id)
  {
    LoadRearranged(st, st.deq, deq);
    LoadSame(st, st.(deq := deq), deq);
  }

  lemma SkipConsistent(st: State, key: Key)
    requires Consistent(st)
    ensures Consistent(SkipUpdated(st, key))
  {
    var st' := SkipUpdated(st, key);
    if st'.deq != st.deq {
      var j := if key in st.table then PositionOf(st.deq, st.table[key]) else 0;
      MoveRearranges(st.deq, st.deq, j);
      hide Distinct, ToBack, Rearranged, TableOk, Load;
      ReorderConsistent(st, st'.deq);
    }
  }

  /** Removes the entry under `key` if it was last accessed at `ts`; otherwise skips the node. */
  function EvictOrSkip(st: State, key: Key, ts: nat): (State, Option<nat>)
    requires TableOk(st)
  {
    if key in st.table && st.infos[st.table[key]].lastAccessed == Some(ts)
    then (Evict(st, key), Some(st.infos[st.table[key]].weight))
    else (SkipUpdated(st, key), None)
  }

  /** An entry is evicted only if it was last accessed at the time read before: one that has been used or
      replaced since is skipped. */
  lemma UsedSinceIsSpared(st: State, key: Key, ts: nat)
    requires TableOk(st)
    ensures var (st', w) := EvictOrSkip(st, key, ts);
      && (w.Some? <==> key in st.table && st.infos[st.table[key]].lastAccessed == Some(ts))
      && (w.None? ==> st' == SkipUpdated(st, key))
      && (w.Some? ==> w.value == st.infos[st.table[key]].weight && st'.table == st.table - {key})
  {
  }

  lemma FrontClean(st: State)
    requires Consistent(st) && st.deq != []
    ensures st.deq[0] in st.infos
    ensures var i := st.infos[st.deq[0]]; !IsDirty(i) ==> i.key in st.table && st.table[i.key] == st.deq[0]
  {
  }

  /** One round of the batch at the front node: the new state, the weight evicted, and whether
      the batch may go on asking for more. */
  function Round(st: State): (State, nat, bool)
    requires Consistent(st) && st.deq != []
  {
    assert st.deq[0] in st.deq;
    var i := st.infos[st.deq[0]];
    if IsDirty(i) || i.lastAccessed.None? then
      (SkipUpdated(st, i.key), 0, false)
    else
      var (st', w) := EvictOrSkip(st, i.key, i.lastAccessed.value);
      if w.Some? then (st', w.value, true) else (st', 0, false)
  }

  lemma RoundConsistent(st: State)
    requires Consistent(st) && st.deq != []
    ensures var (st', w, go) := Round(st);
      && Consistent(st') && st'.weightedSize + w == st.weightedSize
      && |st'.table| == |st.table| - (if go then 1 else 0)
      && st'.evictionCount == st.evictionCount + (if go then 1 else 0)
  {
    FrontClean(st);
    var x := st.deq[0];
    var i := st.infos[x];
    assert x in st.deq && !i.retired ==> Share(st, x) == if IsDirty(i) then 0 else i.weight;
    assert TableOk(st);
    hide Consistent, DequeOk, TableOk, ToBack, Without;
    if IsDirty(i) || i.lastAccessed.None? {
      SkipConsistent(st, i.key);
    } else {
      EvictConsistent(st, i.key);
    }
  }
}
