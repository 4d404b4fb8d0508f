/** Two states in which the maintenance loop ends over the limit although a node it could evict,
    or nothing pending at all, is left. */
module EvictionStalls {
  import opened Common
  import opened PolicyRecord
  import opened EntryGeneration
  import opened Admission
  import opened EvictionState
  import opened Eviction
  import opened LruEviction

  /** One entry of weight 2, changed 65536 times, every operation drained. */
  function WrappedCache(): State {
    var e := Drained(EntryInfo(0, true, false, 0, 0, 2, Some(0)), U16_MOD);
    State(map[0 := 0], map[0 := e], [0], 1, 2, 0)
  }

  lemma WrappedIsBlocked()
    ensures WrappedCache().weightedSize > 1
    ensures var st := WrappedCache(); Consistent(st) && forall i :: 0 <= i < |st.deq| ==> !Takeable(st, st.deq[i])
  {
    var st := WrappedCache();
    WrapLeavesEntryDirty(EntryInfo(0, true, false, 0, 0, 2, Some(0)), U16_MOD);
    hide Drained;
    assert Load(st, []) == 0 && Load(st, st.deq) == Share(st, 0);
  }

  /** A fully drained cache that stays over its capacity of 1, whatever the batch size. */
  method WrappedEntryStays(batch: nat) returns (cur: State)
    requires batch > 0
    ensures cur.weightedSize == WrappedCache().weightedSize > 1 && cur.table == WrappedCache().table
  {
    hide *;
    WrappedIsBlocked();
    var more; ghost var n;
    cur, more, n := RunEvictions(WrappedCache(), Some(1), batch);
    NothingYielded(WrappedCache(), cur, 1, batch, n);
  }

  /** Where the nodes within reach yield nothing, the loop changes neither table nor weight. */
  lemma NothingYielded(st: State, cur: State, limit: nat, batch: nat, n: nat)
    requires batch > 0 && Evicts(st, SatSub(st.weightedSize, limit), batch, cur, n)
    requires forall i :: 0 <= i < Reach(st, batch) ==> !Takeable(st, st.deq[i])
    ensures cur.weightedSize == st.weightedSize && cur.table == st.table
  {
    hide Load, Reach, StuckAt, VisitedTo, Taken;
    TakenNone(st, st.deq[..n]);
  }

  lemma {:induction false} TakenNone(st: State, s: seq<Id>)
    requires forall i :: 0 <= i < |s| ==> !Takeable(st, s[i])
    ensures Taken(st, s) == [] && Load(st, Taken(st, s)) == 0
  {
    if s != [] { TakenNone(st, s[..|s| - 1]); }
  }

  /** A retired node in front whose key has been inserted again, the new entry behind it. */
  function ShadowedCache(): State {
    State(map[7 := 1],
          map[0 := EntryInfo(7, true, true, 2, 1, 1, Some(0)), 1 := EntryInfo(7, true, false, 1, 1, 2, Some(1))],
          [0, 1], 2, 3, 0)
  }

  lemma ShadowedIsStuck(batch: nat)
    requires batch > 0
    ensures ShadowedCache().weightedSize > 2
    ensures Consistent(ShadowedCache()) && Takeable(ShadowedCache(), 1) && Reach(ShadowedCache(), batch) == 0
  {
    var st := ShadowedCache();
    assert Load(st, []) == 0;
    assert st.deq[..1] == [0] && Load(st, [0]) == Load(st, []) + Share(st, 0);
    assert Load(st, st.deq) == Load(st, [0]) + Share(st, 1);
    assert st.deq[..0] == [];
    assert StuckAt(st, 0);
  }

  /** The loop ends over its limit of 2, although the second node could be evicted: every round
      moves the new entry's node to the back and finds the retired one in front again. */
  method ShadowedNodeStalls(batch: nat) returns (cur: State)
    requires batch > 0
    ensures cur.weightedSize == ShadowedCache().weightedSize > 2 && cur.table == ShadowedCache().table
  {
    hide *;
    ShadowedIsStuck(batch);
    var more; ghost var n;
    cur, more, n := RunEvictions(ShadowedCache(), Some(2), batch);
    NothingYielded(ShadowedCache(), cur, 2, batch, n);
  }
}
