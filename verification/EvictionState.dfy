/** The policy state a maintenance run works on, and the arithmetic of removing entries from the
    least-recently-used end of its access-order deque. */
module EvictionState {
  import opened Common
  import opened PolicyRecord
  import opened Admission

  datatype State = State(
    table: map<Key, Id>,
    infos: map<Id, EntryInfo>,
    deq: seq<Id>,            // `deques.probation`, least recently used first
    entryCount: int,
    weightedSize: nat,
    evictionCount: nat)

  /** What a visit to node `id` reads when nobody else runs. */
  function Peek(st: State, id: Id): Glimpse {
    if id !in st.infos then Glimpse(true, false, None, None)
    else
      var i := st.infos[id];
      Glimpse(IsDirty(i), !i.retired, i.lastAccessed,
              if i.key in st.table && st.table[i.key] in st.infos
              then Some(st.infos[st.table[i.key]].weight) else None)
  }

  /** The part of the weighted size that a node is known to stand for: all of it if the node is
      clean, and nothing certain while an operation on it is pending. */
  function Share(st: State, id: Id): nat {
    var g := Peek(st, id);
    if Clean(g) then g.weight.value else 0
  }

  ghost function Load(st: State, s: seq<Id>): (n: nat) {
    if s == [] then 0 else Load(st, s[..|s| - 1]) + Share(st, s[|s| - 1])
  }

  ghost predicate TableOk(st: State) {
    && (forall k :: k in st.table ==>
          st.table[k] in st.infos && st.infos[st.table[k]].key == k && !st.infos[st.table[k]].retired)
    && (forall id :: id in st.infos && !st.infos[id].retired ==>
          st.infos[id].key in st.table && st.table[st.infos[id].key] == id)
  }

  ghost predicate DequeOk(st: State) {
    && Distinct(st.deq)
    && (forall id :: id in st.deq <==> id in st.infos && st.infos[id].admitted)
    && (forall id :: id in st.deq && st.infos[id].retired ==> IsDirty(st.infos[id]))
    && st.entryCount == |st.deq|
  }

  /** What holds before and after every maintenance step.  A retired record that is still in the
      deque is dirty: whoever retired it has a removal pending. */
  ghost predicate Consistent(st: State) {
    TableOk(st) && DequeOk(st) && st.weightedSize >= Load(st, st.deq)
  }

  /** Every node is clean and the counter is exact.  `WriteLogQuiet` shows which drained caches are
      quiet; an entry changed too often can be dirty although everything is drained. */
  ghost predicate Quiet(st: State) {
    && Consistent(st)
    && st.weightedSize == Load(st, st.deq)
    && forall id :: id in st.deq ==> Clean(Peek(st, id)) && Peek(st, id).lastAccessed.Some?
  }

  // ----- sums --------------------------------------------------------------------------------

  lemma {:induction false} LoadConcat(st: State, s: seq<Id>, t: seq<Id>)
    ensures Load(st, s + t) == Load(st, s) + Load(st, t)
  {
    if t == [] {
      assert s + t == s;
    } else {
      assert (s + t)[..|s + t| - 1] == s + t[..|t| - 1];
      LoadConcat(st, s, t[..|t| - 1]);
    }
  }

  lemma LoadOne(st: State, id: Id)
    ensures Load(st, [id]) == Share(st, id)
  {
  }

  lemma {:induction false} LoadSame(st: State, st': State, s: seq<Id>)
    requires forall id :: id in s ==> Share(st, id) == Share(st', id)
    ensures Load(st, s) == Load(st', s)
  {
    if s != [] { LoadSame(st, st', s[..|s| - 1]); }
  }

  /** Taking one node out of the middle. */
  lemma LoadSplit(st: State, s: seq<Id>, j: nat)
    requires j < |s|
    ensures Load(st, s) == Load(st, s[..j] + s[j + 1..]) + Share(st, s[j])
  {
    assert s == s[..j] + ([s[j]] + s[j + 1..]);
    LoadConcat(st, s[..j], [s[j]] + s[j + 1..]);
    LoadConcat(st, [s[j]], s[j + 1..]);
    LoadOne(st, s[j]);
    LoadConcat(st, s[..j], s[j + 1..]);
  }

  lemma {:induction false} LoadRearranged(st: State, s: seq<Id>, t: seq<Id>)
    requires Distinct(s) && Rearranged(s, t)
    ensures Load(st, s) == Load(st, t)
    decreases |s|
  {
    if s == [] {
      assert t == [];
    } else {
      var j := DroppedRearranged(s, t);
      hide Rearranged, Distinct, Load;
      LoadRearranged(st, s[1..], t[..j] + t[j + 1..]);
      LoadSplit(st, t, j);
      LoadFirst(st, s);
    }
  }

  lemma LoadFirst(st: State, s: seq<Id>)
    requires s != []
    ensures Load(st, s) == Share(st, s[0]) + Load(st, s[1..])
  {
    LoadSplit(st, s, 0);
    assert s[..0] + s[1..] == s[1..];
  }

  lemma DroppedRearranged(s: seq<Id>, t: seq<Id>) returns (j: nat)
    requires Distinct(s) && Rearranged(s, t) && s != []
    ensures j < |t| && t[j] == s[0] && Distinct(s[1..]) && Rearranged(s[1..], t[..j] + t[j + 1..])
  {
    assert s[0] in t;
    j :| 0 <= j < |t| && t[j] == s[0];
    var t' := t[..j] + t[j + 1..];
    assert t == t[..j] + [t[j]] + t[j + 1..];
    assert s == [s[0]] + s[1..];
    assert forall k :: 0 <= k < |t'| ==> t'[k] == (if k < j then t[k] else t[k + 1]);
    forall x ensures x in s[1..] <==> x in t' {
      assert x in s <==> x in t;
      assert x in s[1..] ==> x != s[0];
      assert x in t' ==> x != t[j];
    }
  }

  // ----- removing one entry ------------------------------------------------------------------

  function LedgerOf(st: State): Ledger {
    Ledger(st.deq, st.entryCount, st.weightedSize)
  }

  function WithLedger(st: State, l: Ledger): State {
    st.(deq := l.deque, entryCount := l.entryCount, weightedSize := l.weightedSize)
  }

  /** `handle_remove`: an admitted record leaves the deque and the counters. */
  function HandleRemove(st: State, id: Id): State
    requires id in st.infos
  {
    var i := st.infos[id];
    if i.admitted then
      WithLedger(st, Leave(LedgerOf(st), id, i.weight)).(infos := st.infos[id := i.(admitted := false)])
    else st
  }

  /** `cht_remove_if_and_retire` once its condition holds. */
  function Retire(st: State, key: Key): State
    requires key in st.table && st.table[key] in st.infos
  {
    var id := st.table[key];
    st.(table := st.table - {key}, infos := st.infos[id := Retired(st.infos[id])])
  }

  /** Removing the entry the table holds under `key`, for its size. */
  function Evict(st: State, key: Key): State
    requires key in st.table && st.table[key] in st.infos
  {
    var st' := HandleRemove(Retire(st, key), st.table[key]);
    st'.(evictionCount := st.evictionCount + 1)
  }

  lemma EvictTableOk(st: State, key: Key)
    requires TableOk(st) && key in st.table
    ensures TableOk(Evict(st, key))
    ensures forall id :: id != st.table[key] ==> Share(Evict(st, key), id) == Share(st, id)
  {
  }

  lemma EvictDequeOk(st: State, key: Key)
    requires TableOk(st) && DequeOk(st) && key in st.table
    ensures DequeOk(Evict(st, key)) && st.table[key] !in Evict(st, key).deq
    ensures |Evict(st, key).deq| == |st.deq| - if st.table[key] in st.deq then 1 else 0
  {
    if st.table[key] in st.deq { WithoutKeeps(st.deq, st.table[key]); }
  }

  /** A record with nothing pending leaves with exactly its share of the weighted size. */
  lemma EvictConsistent(st: State, key: Key)
    requires Consistent(st) && key in st.table
    requires st.table[key] in st.deq ==> !IsDirty(st.infos[st.table[key]])
    ensures Consistent(Evict(st, key))
    ensures Evict(st, key).weightedSize
         == st.weightedSize - if st.table[key] in st.deq then Share(st, st.table[key]) else 0
  {
    var st', id := Evict(st, key), st.table[key];
    EvictTableOk(st, key);
    EvictDequeOk(st, key);
    LoadSame(st, st', st'.deq);
    if id in st.deq {
      LoadSplit(st, st.deq, PositionOf(st.deq, id));
      assert Share(st, id) == st.infos[id].weight;
    }
  }

  /** `handle_admit`: the record joins the deque at the most recently used end. */
  function HandleAdmit(st: State, id: Id, weight: nat): State
    requires id in st.infos
  {
    var i := st.infos[id];
    if i.retired then st
    else WithLedger(st, Join(LedgerOf(st), id, weight)).(infos := st.infos[id := i.(admitted := true)])
  }

  function Settle(st: State, id: Id, gen: nat): State
    requires id in st.infos
  {
    st.(infos := st.infos[id := Settled(st.infos[id], gen)])
  }
}
