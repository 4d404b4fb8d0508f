/** Size eviction: batches of `evict_lru_entries` inside the maintenance loop.  From every
    consistent state the loop is proved to visit an exactly known prefix of the access-order deque
    and to evict exactly the nodes of it that have nothing pending. */
module LruEviction {
  import opened Common
  import opened PolicyRecord
  import opened Admission
  import opened EvictionState
  import opened Eviction

  // ----- which nodes a batch can take --------------------------------------------------------

  /** A round evicts the front node, rather than skipping it. */
  predicate Takeable(st: State, id: Id) {
    id in st.infos && !IsDirty(st.infos[id]) && st.infos[id].lastAccessed.Some?
  }

  ghost function Taken(st: State, s: seq<Id>): seq<Id> {
    if s == [] then []
    else Taken(st, s[..|s| - 1]) + if Takeable(st, s[|s| - 1]) then [s[|s| - 1]] else []
  }

  ghost function Passed(st: State, s: seq<Id>): seq<Id> {
    if s == [] then []
    else Passed(st, s[..|s| - 1]) + if Takeable(st, s[|s| - 1]) then [] else [s[|s| - 1]]
  }

  /** The weight evicted by visiting the first `n` nodes. */
  ghost function Yield(st: State, n: nat): nat
    requires n <= |st.deq|
  {
    Load(st, Taken(st, st.deq[..n]))
  }

  /** A retired node whose key has been inserted again: skipping moves the other entry's node, so
      this one stays in front. */
  predicate Shadowed(st: State, id: Id) {
    id in st.infos && !Takeable(st, id) && st.infos[id].retired && st.infos[id].key in st.table
  }

  /** The node at `n` will be found shadowed, unless its rival has been evicted by then. */
  ghost predicate StuckAt(st: State, n: nat)
    requires n < |st.deq|
  {
    var x := st.deq[n];
    Shadowed(st, x) && st.table[st.infos[x].key] !in Taken(st, st.deq[..n])
  }

  /** The first node that is not evicted when it comes to the front; the deque's length if none. */
  ghost function FirstBlocked(st: State, from: nat := 0): (p: nat)
    requires from <= |st.deq|
    ensures from <= p <= |st.deq|
    ensures forall i :: from <= i < p ==> Takeable(st, st.deq[i])
    ensures p < |st.deq| ==> !Takeable(st, st.deq[p])
    decreases |st.deq| - from
  {
    if from < |st.deq| && Takeable(st, st.deq[from]) then FirstBlocked(st, from + 1) else from
  }

  ghost function FirstStuck(st: State, from: nat := 0): (q: nat)
    requires from <= |st.deq|
    ensures from <= q <= |st.deq|
    ensures forall i :: from <= i < q ==> !StuckAt(st, i)
    ensures q < |st.deq| ==> StuckAt(st, q)
    decreases |st.deq| - from
  {
    if from < |st.deq| && !StuckAt(st, from) then FirstStuck(st, from + 1) else from
  }

  /** The state once the first `n` nodes have been visited, in order. */
  ghost function AfterVisits(st: State, n: nat): State
    requires n <= |st.deq| && Yield(st, n) <= st.weightedSize
  {
    var out := Taken(st, st.deq[..n]);
    State(Kept(st.table, out), Released(st.infos, out), st.deq[n..] + Passed(st, st.deq[..n]),
          st.entryCount - |out|,
          st.weightedSize - Yield(st, n),
          st.evictionCount + |out|)
  }

  ghost predicate VisitedTo(st: State, cur: State, n: nat) {
    n <= |st.deq| && Yield(st, n) <= st.weightedSize && cur == AfterVisits(st, n)
  }

  /** The same up to the order of the nodes that are left. */
  ghost predicate Swept(st: State, cur: State, n: nat) {
    && n <= |st.deq| && Yield(st, n) <= st.weightedSize
    && cur == AfterVisits(st, n).(deq := cur.deq)
    && Rearranged(AfterVisits(st, n).deq, cur.deq)
  }

  // ----- filters -----------------------------------------------------------------------------

  lemma {:induction false} FilterMembers(st: State, s: seq<Id>)
    ensures forall x :: x in Taken(st, s) <==> x in s && Takeable(st, x)
    ensures forall x :: x in Passed(st, s) <==> x in s && !Takeable(st, x)
    ensures |Taken(st, s)| + |Passed(st, s)| == |s|
  {
    hide Takeable;
    if s != [] {
      var front, last := s[..|s| - 1], s[|s| - 1];
      FilterMembers(st, front);
      assert s == front + [last];
      assert forall x :: x in s <==> x in front || x == last;
    }
  }

  lemma FilterNext(st: State, s: seq<Id>, n: nat)
    requires n < |s|
    ensures Taken(st, s[..n + 1]) == Taken(st, s[..n]) + if Takeable(st, s[n]) then [s[n]] else []
    ensures Passed(st, s[..n + 1]) == Passed(st, s[..n]) + if Takeable(st, s[n]) then [] else [s[n]]
  {
    assert s[..n + 1][..n] == s[..n];
  }

  lemma {:induction false} FilterAll(st: State, s: seq<Id>)
    requires forall i :: 0 <= i < |s| ==> Takeable(st, s[i])
    ensures Taken(st, s) == s && Passed(st, s) == []
  {
    hide Takeable;
    if s != [] {
      var front, last := s[..|s| - 1], s[|s| - 1];
      FilterAll(st, front);
      assert Taken(st, s) == front + [last] && Passed(st, s) == [] + [];
      assert s == front + [last];
    }
  }

  lemma {:induction false} FilterConcat(st: State, s: seq<Id>, t: seq<Id>)
    ensures Taken(st, s + t) == Taken(st, s) + Taken(st, t)
    ensures Passed(st, s + t) == Passed(st, s) + Passed(st, t)
  {
    if t == [] {
      assert s + t == s;
    } else {
      assert (s + t)[..|s + t| - 1] == s + t[..|t| - 1];
      FilterConcat(st, s, t[..|t| - 1]);
    }
  }

  lemma {:induction false} FilterSame(st: State, st': State, s: seq<Id>)
    requires forall x :: x in s ==> (Takeable(st, x) <==> Takeable(st', x))
    ensures Taken(st, s) == Taken(st', s) && Passed(st, s) == Passed(st', s)
  {
    if s != [] { FilterSame(st, st', s[..|s| - 1]); }
  }

  lemma YieldNext(st: State, n: nat)
    requires n < |st.deq|
    ensures Yield(st, n + 1) == Yield(st, n) + if Takeable(st, st.deq[n]) then Share(st, st.deq[n]) else 0
  {
    hide Load, Share;
    FilterNext(st, st.deq, n);
    if Takeable(st, st.deq[n]) {
      LoadConcat(st, Taken(st, st.deq[..n]), [st.deq[n]]);
      LoadOne(st, st.deq[n]);
    } else {
      assert Taken(st, st.deq[..n]) + [] == Taken(st, st.deq[..n]);
    }
  }

  lemma {:induction false} YieldMonotone(st: State, m: nat, n: nat)
    requires m <= n <= |st.deq|
    ensures Yield(st, m) <= Yield(st, n)
  {
    if m < n {
      YieldMonotone(st, m, n - 1);
      YieldNext(st, n - 1);
    }
  }

  // ----- one round ---------------------------------------------------------------------------

  /** What visiting the first `n` nodes has left of the node at `n`. */
  lemma NextNode(st: State, cur: State, n: nat)
    requires Consistent(st) && VisitedTo(st, cur, n) && n < |st.deq|
    ensures var x := st.deq[n];
      && cur.deq != [] && cur.deq[0] == x && x in st.infos && x in cur.infos && cur.infos[x] == st.infos[x]
      && (Shadowed(cur, x) <==> StuckAt(st, n))
      && (Takeable(cur, x) <==> Takeable(st, x))
  {
    hide Load;
    var x := st.deq[n];
    assert x in st.deq && x !in st.deq[..n];
    FilterMembers(st, st.deq[..n]);
  }

  lemma TakeVisits(st: State, cur: State, n: nat)
    requires Consistent(st) && Consistent(cur) && VisitedTo(st, cur, n) && n < |st.deq|
    requires Takeable(st, st.deq[n])
    ensures var (cur', w, go) := Round(cur); go && w == Share(st, st.deq[n]) && VisitedTo(st, cur', n + 1)
  {
    var x := st.deq[n];
    NextNode(st, cur, n);
    FrontClean(cur);
    var (cur', w, go) := Round(cur);
    assert Clean(Peek(cur, x)) && cur' == Evict(cur, cur.infos[x].key) && go && w == cur.infos[x].weight;
    assert Share(cur, x) == w;
    SameShareHere(st, cur, n);
    hide Consistent, Share, Peek, Round, Evict, Load, Kept, Released;
    EvictIsFront(cur);
    TakeVisitsFields(st, cur, cur', n);
  }

  lemma SameShareHere(st: State, cur: State, n: nat)
    requires Consistent(st) && Consistent(cur) && VisitedTo(st, cur, n) && n < |st.deq| && Takeable(st, st.deq[n])
    ensures Share(cur, st.deq[n]) == Share(st, st.deq[n])
  {
    hide Load;
    NextNode(st, cur, n);
    assert st.deq[n] in st.deq;
    assert cur.deq[0] in cur.deq;
  }

  lemma TakeVisitsFields(st: State, cur: State, cur': State, n: nat)
    requires VisitedTo(st, cur, n) && n < |st.deq| && Takeable(st, st.deq[n])
    requires cur.deq != [] && cur.deq[0] == st.deq[n] && Share(cur, st.deq[n]) == Share(st, st.deq[n])
    requires FrontGone(cur, cur', 1)
    ensures VisitedTo(st, cur', n + 1)
  {
    hide Share, Load, Kept, Released, Takeable, Taken, Passed;
    var x := st.deq[n];
    FilterNext(st, st.deq, n);
    YieldNext(st, n);
    OneLoad(cur);
    assert cur.deq[..1] == [x];
    ReleasedTwice(st.table, st.infos, Taken(st, st.deq[..n]), [x]);
    assert cur'.deq == st.deq[n + 1..] + Passed(st, st.deq[..n]);
    assert Passed(st, st.deq[..n]) + [] == Passed(st, st.deq[..n]);
  }

  lemma SkipVisits(st: State, cur: State, n: nat)
    requires Consistent(st) && Consistent(cur) && VisitedTo(st, cur, n) && n < |st.deq|
    requires !Takeable(st, st.deq[n]) && !StuckAt(st, n)
    ensures var (cur', w, go) := Round(cur); !go && w == 0 && VisitedTo(st, cur', n + 1)
  {
    var x := st.deq[n];
    NextNode(st, cur, n);
    assert cur.deq[0] in cur.deq;
    var (cur', w, go) := Round(cur);
    assert cur' == SkipUpdated(cur, cur.infos[x].key) == cur.(deq := ToBack(cur.deq, 0));
    hide Consistent, Round, SkipUpdated, Load, Kept, Released, Takeable, Taken, Passed, Share, StuckAt;
    SkipVisitsFields(st, cur, cur', n);
  }

  lemma SkipVisitsFields(st: State, cur: State, cur': State, n: nat)
    requires VisitedTo(st, cur, n) && n < |st.deq| && !Takeable(st, st.deq[n]) && cur.deq != []
    requires cur.deq[0] == st.deq[n] && cur' == cur.(deq := ToBack(cur.deq, 0))
    ensures VisitedTo(st, cur', n + 1)
  {
    hide Share, Load, Kept, Released, Takeable, Taken, Passed;
    FilterNext(st, st.deq, n);
    YieldNext(st, n);
    assert Taken(st, st.deq[..n]) + [] == Taken(st, st.deq[..n]);
    var rest, passed, x := st.deq[n + 1..], Passed(st, st.deq[..n]), st.deq[n];
    assert cur.deq == [x] + (rest + passed);
    assert cur'.deq == rest + passed + [x];
    assert rest + passed + [x] == rest + (passed + [x]);
  }

  // ----- rounds that can no longer evict anything ----------------------------------------------

  ghost predicate Futile(st: State) {
    || (forall id :: id in st.deq ==> !Takeable(st, id))
    || (st.deq != [] && Shadowed(st, st.deq[0]))
  }

  lemma FutileRound(st: State)
    requires Consistent(st) && st.deq != [] && Futile(st)
    ensures var (st', w, go) := Round(st);
      && !go && w == 0 && st' == st.(deq := st'.deq) && Rearranged(st.deq, st'.deq) && Futile(st')
  {
    hide Load;
    var x := st.deq[0];
    assert x in st.deq;
    var i := st.infos[x];
    var j := if i.key in st.table && st.table[i.key] in st.deq then PositionOf(st.deq, st.table[i.key]) else 0;
    MoveRearranges(st.deq, st.deq, j);
    var (st', w, go) := Round(st);
    assert st' == SkipUpdated(st, i.key);
    if Shadowed(st, x) {
      assert st.table[i.key] != x;
      assert st'.deq[0] == x;
    }
  }

  // ----- one batch -----------------------------------------------------------------------------

  /** After `rounds` rounds, `n` nodes have been visited: one a round, until a node that keeps
      the front is met or all nodes have been visited; the rounds after that are spent in vain.
      Nothing was visited once `need` was reached. */
  ghost predicate Underway(st: State, need: nat, cur: State, rounds: nat, n: nat) {
    && n <= rounds && n <= FirstStuck(st)
    && Swept(st, cur, n)
    && (if n == rounds then VisitedTo(st, cur, n) else n == FirstStuck(st) && Futile(cur) && Yield(st, n) < need)
    && (n > 0 ==> Yield(st, n - 1) < need)
  }

  /** A batch of at most `batch` rounds has ended. */
  ghost predicate BatchDone(st: State, batch: nat, need: nat, cur: State, more: bool, n: nat) {
    && n <= batch && n <= FirstStuck(st) && Swept(st, cur, n)
    && (n < FirstStuck(st) || Yield(st, n) >= need ==> VisitedTo(st, cur, n))
    && (n > 0 ==> Yield(st, n - 1) < need)
    && (Yield(st, n) >= need || n == batch || n == FirstStuck(st))
    && (if more then n == batch <= FirstBlocked(st) && VisitedTo(st, cur, n)
        else Yield(st, n) >= need || FirstBlocked(st) < batch)
  }

  /** What a batch has counted is what has left the table and the weight. */
  ghost predicate Counted(st: State, cur: State, rounds: nat, evicted: nat) {
    && Consistent(cur)
    && cur.weightedSize + evicted == st.weightedSize
    && st.evictionCount <= cur.evictionCount <= st.evictionCount + rounds
    && cur.evictionCount - st.evictionCount == |st.table| - |cur.table|
  }

  lemma RoundCounted(st: State, cur: State, rounds: nat, evicted: nat)
    requires Counted(st, cur, rounds, evicted) && cur.deq != []
    ensures Consistent(cur)
    ensures var (st', w, _) := Round(cur); Counted(st, st', rounds + 1, evicted + w)
  {
    hide Consistent, Round;
    RoundConsistent(cur);
  }

  lemma VisitedIsSwept(st: State, cur: State, n: nat)
    requires VisitedTo(st, cur, n) && Consistent(cur)
    ensures Swept(st, cur, n)
  {
  }

  /** Once the node at the front stays there, or only blocked nodes are left, no round helps. */
  lemma StuckIsFutile(st: State, cur: State)
    requires Consistent(st) && VisitedTo(st, cur, FirstStuck(st))
    ensures Futile(cur)
  {
    hide Load, Share;
    var q := FirstStuck(st);
    if q < |st.deq| {
      NextNode(st, cur, q);
    } else {
      assert st.deq[..q] == st.deq;
      FilterMembers(st, st.deq);
    }
  }

  lemma SweptAgain(st: State, cur: State, cur': State, n: nat)
    requires Swept(st, cur, n) && cur' == cur.(deq := cur'.deq) && Rearranged(cur.deq, cur'.deq)
    ensures Swept(st, cur', n)
  {
  }

  lemma RoundUnderway(st: State, need: nat, cur: State, rounds: nat, n: nat)
    requires Consistent(st) && Consistent(cur) && cur.deq != []
    requires Underway(st, need, cur, rounds, n) && Yield(st, n) < need
    ensures var (cur', w, go) := Round(cur);
      var n' := if n == rounds && n < FirstStuck(st) then n + 1 else n;
      && Consistent(cur') && Underway(st, need, cur', rounds + 1, n')
      && Yield(st, n') == Yield(st, n) + w
      && (go <==> n == rounds && n < FirstStuck(st) && Takeable(st, st.deq[n]))
  {
    hide Consistent, Round, Load, Share, Swept, Futile, Taken, VisitedTo, StuckAt, Yield, Rearranged;
    var (cur', w, go) := Round(cur);
    RoundConsistent(cur);
    if n == rounds && n < FirstStuck(st) {
      YieldNext(st, n);
      if Takeable(st, st.deq[n]) { TakeVisits(st, cur, n); } else { SkipVisits(st, cur, n); }
      VisitedIsSwept(st, cur', n + 1);
    } else {
      if n == rounds { StuckIsFutile(st, cur); }
      FutileRound(cur);
      SweptAgain(st, cur, cur', n);
    }
  }

  lemma StuckIsBlocked(st: State)
    ensures FirstBlocked(st) <= FirstStuck(st)
  {
  }

  /** How the flag follows: it stays up exactly while every node visited was evicted. */
  lemma RoundMore(st: State, rounds: nat, n: nat, more: bool, go: bool)
    requires n <= rounds && n <= FirstStuck(st)
    requires go <==> n == rounds && n < FirstStuck(st) && Takeable(st, st.deq[n])
    requires if more then n == rounds <= FirstBlocked(st) else FirstBlocked(st) < rounds
    ensures var n' := if n == rounds && n < FirstStuck(st) then n + 1 else n;
      if more && go then n' == rounds + 1 <= FirstBlocked(st) else FirstBlocked(st) < rounds + 1
  {
    hide StuckAt;
    StuckIsBlocked(st);
  }

  lemma NothingLeft(st: State, cur: State, n: nat)
    requires Swept(st, cur, n) && cur.deq == []
    ensures n == |st.deq|
  {
  }

  lemma BatchStarts(st: State, need: nat)
    requires Consistent(st)
    ensures Counted(st, st, 0, 0) && Underway(st, need, st, 0, 0) && Yield(st, 0) == 0
  {
    assert st.deq[..0] == [];
    assert AfterVisits(st, 0).table == st.table && AfterVisits(st, 0).infos == st.infos;
    assert AfterVisits(st, 0).deq == st.deq;
  }

  lemma BatchEnds(st: State, batch: nat, need: nat, cur: State, more: bool, rounds: nat, n: nat)
    requires Underway(st, need, cur, rounds, n) && rounds <= batch
    requires if more then n == rounds <= FirstBlocked(st) else FirstBlocked(st) < rounds
    requires rounds == batch || Yield(st, n) >= need || cur.deq == []
    ensures BatchDone(st, batch, need, cur, more && rounds == batch, n)
  {
    hide Yield, StuckAt, VisitedTo;
    StuckIsBlocked(st);
    if cur.deq == [] { NothingLeft(st, cur, n); }
  }

  /** `evict_lru_entries`, from any consistent state. */
  method EvictLruEntries(st: State, batch: nat, need: nat)
    returns (cur: State, more: bool, evicted: nat, ghost n: nat)
    requires Consistent(st)
    ensures Counted(st, cur, batch, evicted)
    ensures BatchDone(st, batch, need, cur, more, n) && evicted == Yield(st, n)
  {
    hide *;
    cur, more, evicted, n := st, true, 0, 0;
    BatchStarts(st, need);
    var rounds := 0;
    while rounds < batch
      invariant n <= rounds <= batch && n <= FirstStuck(st) && Counted(st, cur, rounds, evicted)
      invariant Underway(st, need, cur, rounds, n) && evicted == Yield(st, n)
      invariant if more then n == rounds <= FirstBlocked(st) else FirstBlocked(st) < rounds
    {
      if evicted >= need || cur.deq == [] {
        BatchEnds(st, batch, need, cur, more, rounds, n);
        CountedMore(st, cur, rounds, batch, evicted);
        more := false;
        return;
      }
      RoundCounted(st, cur, rounds, evicted);
      RoundUnderway(st, need, cur, rounds, n);
      var (cur', w, go) := Round(cur);
      RoundMore(st, rounds, n, more, go);
      cur, evicted := cur', evicted + w;
      if !go { more := false; }
      n := if n == rounds && n < FirstStuck(st) then n + 1 else n;
      rounds := rounds + 1;
    }
    BatchEnds(st, batch, need, cur, more, rounds, n);
  }

  lemma CountedMore(st: State, cur: State, rounds: nat, batch: nat, evicted: nat)
    requires Counted(st, cur, rounds, evicted) && rounds <= batch
    ensures Counted(st, cur, batch, evicted)
  {
  }

  // ----- the maintenance loop ------------------------------------------------------------------

  /** `weights_to_evict`. */
  function WeightsToEvict(maxCapacity: Option<nat>, weightedSize: nat): nat {
    if maxCapacity.None? then 0 else SatSub(weightedSize, maxCapacity.value)
  }

  /** How many nodes the loop visits at most: it stops with the batch in which it meets the first
      blocked node, and makes no headway past a node that keeps the front. */
  ghost function Reach(st: State, batch: nat): (r: nat)
    requires batch > 0
    ensures r <= |st.deq|
  {
    Lesser(FirstStuck(st), batch * (FirstBlocked(st) / batch + 1))
  }

  function Lesser(a: nat, b: nat): nat {
    if a <= b then a else b
  }

  /** Exactly the takeable nodes among the first `n` are gone, where `n` is the shortest prefix that
      yields `need`, or all that the loop can reach. */
  ghost predicate Evicts(st: State, need: nat, batch: nat, cur: State, n: nat)
    requires batch > 0
  {
    && Swept(st, cur, n) && (n < FirstStuck(st) || Yield(st, n) >= need ==> VisitedTo(st, cur, n))
    && n <= Reach(st, batch)
    && (n > 0 ==> Yield(st, n - 1) < need)
    && (Yield(st, n) >= need || n == Reach(st, batch))
  }

  ghost predicate Batches(n: nat, batch: nat, k: nat) {
    n == batch * k
  }

  ghost predicate WholeBatches(n: nat, batch: nat) {
    exists k: nat :: Batches(n, batch, k)
  }

  /** Full batches so far, in each of which every node was evicted. */
  ghost predicate FullBatches(st: State, need: nat, batch: nat, cur: State, n: nat) {
    && FrontGone(st, cur, n) && n <= FirstBlocked(st) && batch > 0
    && WholeBatches(n, batch)
    && Yield(st, n) == Load(st, st.deq[..n])
    && (n > 0 ==> Yield(st, n - 1) < need)
  }

  lemma AllTaken(st: State, n: nat)
    requires n <= FirstBlocked(st)
    ensures Taken(st, st.deq[..n]) == st.deq[..n] && Passed(st, st.deq[..n]) == []
  {
    hide Taken, Passed, Takeable;
    FilterAll(st, st.deq[..n]);
  }

  lemma AllTakenIsFront(st: State, cur: State, n: nat)
    requires n <= FirstBlocked(st)
    ensures Taken(st, st.deq[..n]) == st.deq[..n] && Passed(st, st.deq[..n]) == []
    ensures Yield(st, n) == Load(st, st.deq[..n])
    ensures VisitedTo(st, cur, n) <==> FrontGone(st, cur, n)
  {
    hide Load, Kept, Released, Taken, Passed, Takeable, FirstBlocked;
    AllTaken(st, n);
    assert st.deq[n..] + [] == st.deq[n..];
  }

  /** After the first `n` nodes are gone, the rest look as they did. */
  lemma RestUnchanged(st: State, mid: State, n: nat)
    requires Consistent(st) && Consistent(mid) && FrontGone(st, mid, n) && n <= FirstBlocked(st)
    ensures forall id :: id in mid.deq ==> (Takeable(mid, id) <==> Takeable(st, id)) && Share(mid, id) == Share(st, id)
    ensures FirstBlocked(mid) == FirstBlocked(st) - n
  {
    hide Load;
    forall id | id in mid.deq ensures (Takeable(mid, id) <==> Takeable(st, id)) {
      assert id in st.deq && id !in st.deq[..n];
    }
    hide Consistent, Share, Takeable;
    SharesKept(st, mid, n);
    forall i | 0 <= i < |mid.deq| ensures mid.deq[i] == st.deq[n + i] && mid.deq[i] in mid.deq { }
  }

  lemma TakenOfBoth(st: State, mid: State, n: nat, m: nat)
    requires Consistent(st) && Consistent(mid) && FrontGone(st, mid, n) && n <= FirstBlocked(st) && m <= |mid.deq|
    ensures n + m <= |st.deq| && st.deq[..n + m] == st.deq[..n] + mid.deq[..m]
    ensures Taken(st, st.deq[..n + m]) == st.deq[..n] + Taken(mid, mid.deq[..m])
    ensures Passed(st, st.deq[..n + m]) == Passed(mid, mid.deq[..m])
    ensures Yield(st, n + m) == Yield(st, n) + Yield(mid, m)
  {
    hide Consistent, Load, Share, Kept, Released, Takeable, Taken, Passed;
    RestUnchanged(st, mid, n);
    AllTakenIsFront(st, mid, n);
    TakenSplits(st, mid, n, m);
  }

  lemma TakenSplits(st: State, mid: State, n: nat, m: nat)
    requires n <= |st.deq| && mid.deq == st.deq[n..] && m <= |mid.deq|
    requires Taken(st, st.deq[..n]) == st.deq[..n] && Passed(st, st.deq[..n]) == []
    requires forall id :: id in mid.deq ==> (Takeable(mid, id) <==> Takeable(st, id)) && Share(mid, id) == Share(st, id)
    ensures st.deq[..n + m] == st.deq[..n] + mid.deq[..m]
    ensures Taken(st, st.deq[..n + m]) == st.deq[..n] + Taken(mid, mid.deq[..m])
    ensures Passed(st, st.deq[..n + m]) == Passed(mid, mid.deq[..m])
    ensures Yield(st, n + m) == Yield(st, n) + Yield(mid, m)
  {
    hide Load, Share, Takeable, Taken, Passed;
    var a, b := st.deq[..n], mid.deq[..m];
    assert st.deq[..n + m] == a + b;
    FilterConcat(st, a, b);
    FilterSame(st, mid, b);
    FilterMembers(mid, b);
    LoadConcat(st, a, Taken(mid, b));
    LoadSame(st, mid, Taken(mid, b));
    assert [] + Passed(mid, b) == Passed(mid, b);
  }

  lemma FrontThenSwept(st: State, mid: State, cur: State, n: nat, m: nat)
    requires Consistent(st) && Consistent(mid) && FrontGone(st, mid, n) && n <= FirstBlocked(st)
    requires Swept(mid, cur, m)
    ensures Swept(st, cur, n + m) && Yield(st, n + m) == Yield(st, n) + Yield(mid, m)
    ensures VisitedTo(mid, cur, m) ==> VisitedTo(st, cur, n + m)
  {
    hide Consistent, Load, Kept, Released, Takeable, Taken, Passed, Rearranged;
    TakenOfBoth(st, mid, n, m);
    AllTakenIsFront(st, mid, n);
    var a, b := st.deq[..n], Taken(mid, mid.deq[..m]);
    ReleasedTwice(st.table, st.infos, a, b);
    assert mid.deq[m..] == st.deq[n + m..];
  }

  lemma StuckLater(st: State, mid: State, n: nat, i: nat)
    requires Consistent(st) && Consistent(mid) && FrontGone(st, mid, n) && n <= FirstBlocked(st) && i < |mid.deq|
    ensures StuckAt(mid, i) <==> StuckAt(st, n + i)
  {
    hide Load, Share, Taken, Passed, Peek;
    TakenOfBoth(st, mid, n, i);
    RestUnchanged(st, mid, n);
    assert mid.deq[i] in mid.deq;
    assert mid.deq[i] == st.deq[n + i];
    assert mid.deq[i] in st.deq && mid.deq[i] !in st.deq[..n];
  }

  lemma FirstStuckLater(st: State, mid: State, n: nat)
    requires Consistent(st) && Consistent(mid) && FrontGone(st, mid, n) && n <= FirstBlocked(st)
    ensures FirstStuck(mid) == FirstStuck(st) - n
  {
    hide Consistent, StuckAt, Load, Kept, Released;
    StuckIsBlocked(st);
    forall i | 0 <= i < |mid.deq| ensures StuckAt(mid, i) <==> StuckAt(st, n + i) {
      StuckLater(st, mid, n, i);
    }
    var q, q' := FirstStuck(st), FirstStuck(mid);
    assert q < |st.deq| ==> StuckAt(mid, q - n);
    assert q' < |mid.deq| ==> StuckAt(st, n + q');
  }

  lemma ReachBounds(st: State, batch: nat, n: nat)
    requires batch > 0 && WholeBatches(n, batch) && n <= FirstBlocked(st)
    ensures n <= Reach(st, batch) && Lesser(FirstStuck(st), n + batch) <= Reach(st, batch)
    ensures FirstBlocked(st) < n + batch ==> Reach(st, batch) == Lesser(FirstStuck(st), n + batch)
  {
    hide StuckAt, Takeable, FirstBlocked, FirstStuck;
    StuckIsBlocked(st);
    var k: nat :| Batches(n, batch, k);
    MultipleAbove(FirstBlocked(st), batch, k);
  }

  lemma MultipleAbove(p: nat, b: nat, k: nat)
    requires b > 0 && b * k <= p
    ensures b * k + b <= b * (p / b + 1) && (p < b * k + b ==> b * (p / b + 1) == b * k + b)
  {
    var j := p / b;
    assert p == b * j + p % b;
    MulMonotone(j + 1, k, b);
    MulMonotone(k, j, b);
    MulMonotone(k + 1, j, b);
  }

  lemma FullBatchesEnd(st: State, need: nat, batch: nat, cur: State, n: nat)
    requires Consistent(cur) && FullBatches(st, need, batch, cur, n) && Yield(st, n) >= need
    ensures Evicts(st, need, batch, cur, n)
  {
    hide Consistent, Yield, Swept, VisitedTo, FrontGone;
    ReachBounds(st, batch, n);
    AllTakenIsFront(st, cur, n);
    VisitedIsSwept(st, cur, n);
  }

  lemma BatchYield(st: State, batch: nat, need: nat, cur: State, n: nat, cur': State, more: bool, m: nat)
    requires Consistent(st) && Consistent(cur)
    requires FullBatches(st, need, batch, cur, n) && Yield(st, n) < need
    requires BatchDone(cur, batch, need - Yield(st, n), cur', more, m)
    ensures n + m <= |st.deq| && Yield(st, n + m) == Yield(st, n) + Yield(cur, m)
    ensures n + m > 0 ==> Yield(st, n + m - 1) < need
    ensures FirstBlocked(cur) == FirstBlocked(st) - n && FirstStuck(cur) == FirstStuck(st) - n
    ensures Swept(st, cur', n + m) && (VisitedTo(cur, cur', m) ==> VisitedTo(st, cur', n + m))
  {
    hide Consistent, Yield, Swept, VisitedTo, FrontGone, StuckAt, Takeable, Load, FirstBlocked, FirstStuck;
    FrontThenSwept(st, cur, cur', n, m);
    RestUnchanged(st, cur, n);
    FirstStuckLater(st, cur, n);
    if m > 0 { TakenOfBoth(st, cur, n, m - 1); }
  }

  lemma NextBatch(n: nat, batch: nat)
    requires WholeBatches(n, batch)
    ensures WholeBatches(n + batch, batch)
  {
    var k: nat :| Batches(n, batch, k);
    assert Batches(n + batch, batch, k + 1);
  }

  lemma FullBatchAdds(st: State, need: nat, batch: nat, cur: State, n: nat, cur': State, m: nat)
    requires Consistent(st) && Consistent(cur)
    requires FullBatches(st, need, batch, cur, n) && Yield(st, n) < need
    requires BatchDone(cur, batch, need - Yield(st, n), cur', true, m)
    ensures n + m <= |st.deq| && FullBatches(st, need, batch, cur', n + m)
    ensures cur'.evictionCount > cur.evictionCount
  {
    hide Consistent, Yield, Swept, VisitedTo, StuckAt, Takeable, Load, FirstBlocked, FirstStuck, Kept, Released,
         WholeBatches;
    BatchYield(st, batch, need, cur, n, cur', true, m);
    AllTakenIsFront(cur, cur', m);
    FrontThenFront(st, cur, cur', n, m);
    AllTakenIsFront(st, cur', n + m);
    NextBatch(n, batch);
  }

  /** One turn of the loop that is over the limit. */
  lemma BatchContinues(st: State, need: nat, batch: nat, cur: State, n: nat, cur': State, more: bool, m: nat)
    requires Consistent(st) && Consistent(cur)
    requires FullBatches(st, need, batch, cur, n) && Yield(st, n) < need
    requires BatchDone(cur, batch, need - Yield(st, n), cur', more, m)
    ensures n + m <= |st.deq| && Yield(st, n + m) == Yield(st, n) + Yield(cur, m)
    ensures more ==> FullBatches(st, need, batch, cur', n + m) && cur'.evictionCount > cur.evictionCount
    ensures !more ==> Evicts(st, need, batch, cur', n + m)
  {
    hide Consistent, Yield, Swept, VisitedTo, FrontGone, Reach, FirstBlocked, FirstStuck;
    BatchYield(st, batch, need, cur, n, cur', more, m);
    if more {
      FullBatchAdds(st, need, batch, cur, n, cur', m);
    } else {
      ReachBounds(st, batch, n);
    }
  }

  lemma NoBatchYet(st: State, need: nat, batch: nat)
    requires Consistent(st) && batch > 0
    ensures FullBatches(st, need, batch, st, 0) && Yield(st, 0) == 0
  {
    hide Consistent, Swept, StuckAt, Takeable;
    BatchStarts(st, need);
    NothingRemoved(st);
    AllTakenIsFront(st, st, 0);
    assert Batches(0, batch, 0);
  }

  /** The loop ends within the limit exactly when the nodes within its reach yield enough. */
  lemma WithinLimitIff(st: State, limit: nat, batch: nat, cur: State, n: nat)
    requires batch > 0 && Evicts(st, SatSub(st.weightedSize, limit), batch, cur, n)
    ensures cur.weightedSize <= limit <==> Yield(st, Reach(st, batch)) >= SatSub(st.weightedSize, limit)
  {
    hide Yield, Taken, Passed, StuckAt, Takeable, Reach;
    YieldMonotone(st, n, Reach(st, batch));
  }

  /** `do_run_pending_tasks` with empty logs, nothing to expire or invalidate and no timeout. */
  method RunEvictions(st: State, maxCapacity: Option<nat>, batch: nat)
    returns (cur: State, more: bool, ghost n: nat)
    requires Consistent(st)
    ensures Consistent(cur) && |cur.table| <= |st.table|
    ensures maxCapacity.None? || maxCapacity.value == 0 ==> cur == st
    ensures batch > 0 && maxCapacity.Some? && maxCapacity.value > 0 ==>
      var need := SatSub(st.weightedSize, maxCapacity.value);
      && !more && Evicts(st, need, batch, cur, n)
      && (cur.weightedSize <= maxCapacity.value <==> Yield(st, Reach(st, batch)) >= need)
  {
    hide Consistent, FullBatches, BatchDone, Counted, Yield, Evicts, Reach, FirstBlocked, FirstStuck;
    cur, more, n := st, false, 0;
    if maxCapacity == Some(0) { return; }
    ghost var counts := batch > 0 && maxCapacity.Some?;
    ghost var limit := if maxCapacity.Some? then maxCapacity.value else 0;
    ghost var needed := SatSub(st.weightedSize, limit);
    if counts { NoBatchYet(st, needed, batch); }
    while true
      invariant Consistent(cur) && |cur.table| <= |st.table|
      invariant maxCapacity.None? ==> cur == st
      invariant counts ==> n <= |st.deq| && FullBatches(st, needed, batch, cur, n)
      invariant counts ==> cur.weightedSize == st.weightedSize - Yield(st, n)
      decreases |cur.table|
    {
      more := false;
      var last := cur.evictionCount;
      var need := WeightsToEvict(maxCapacity, cur.weightedSize);
      if need > 0 {
        ghost var before := cur;
        var w; ghost var m;
        cur, more, w, m := EvictLruEntries(cur, batch, need);
        CountedTable(before, cur, batch, w);
        if counts {
          BatchContinues(st, needed, batch, before, n, cur, more, m);
          n := n + m;
        }
      } else if counts {
        FullBatchesEnd(st, needed, batch, cur, n);
      }
      if !more || cur.evictionCount - last == 0 { break; }
    }
    if counts { WithinLimitIff(st, limit, batch, cur, n); }
  }

  lemma CountedTable(st: State, cur: State, rounds: nat, evicted: nat)
    requires Counted(st, cur, rounds, evicted)
    ensures Consistent(cur) && cur.weightedSize + evicted == st.weightedSize
    ensures cur.evictionCount - st.evictionCount == |st.table| - |cur.table| >= 0
  {
  }

  // ----- what it means for the entries -----------------------------------------------------------

  /** Entry `id` has been evicted, and nothing else has happened to its record. */
  ghost predicate EvictedEntry(st: State, cur: State, id: Id) {
    && id in st.infos && id in cur.infos && id in st.deq && id !in cur.deq
    && Takeable(st, id) && !st.infos[id].retired
    && cur.infos[id] == st.infos[id].(retired := true, admitted := false)
  }

  ghost predicate SparedEntry(st: State, cur: State, id: Id) {
    && id in st.infos && id in cur.infos && cur.infos[id] == st.infos[id]
    && (id in cur.deq <==> id in st.deq)
  }

  /** Whatever is pending, eviction takes only clean live nodes of the deque; every other record,
      dirty ones above all, is as it was, in the deque and in the table. */
  lemma SweptSparesBlocked(st: State, cur: State, n: nat)
    requires Consistent(st) && Swept(st, cur, n)
    ensures forall id :: id in st.infos ==> EvictedEntry(st, cur, id) || SparedEntry(st, cur, id)
    ensures forall id :: id in st.deq && IsDirty(st.infos[id]) ==> SparedEntry(st, cur, id)
    ensures forall id :: EvictedEntry(st, cur, id) <==> id in st.deq[..n] && Takeable(st, id)
    ensures forall k :: k in st.table && !EvictedEntry(st, cur, st.table[k]) ==>
              k in cur.table && cur.table[k] == st.table[k]
  {
    hide Load, Share;
    FilterMembers(st, st.deq[..n]);
    forall id | id in st.infos
      ensures EvictedEntry(st, cur, id) || SparedEntry(st, cur, id)
      ensures EvictedEntry(st, cur, id) <==> id in st.deq[..n] && Takeable(st, id)
    {
      SweptEntry(st, cur, n, id);
    }
  }

  lemma SweptEntry(st: State, cur: State, n: nat, id: Id)
    requires Consistent(st) && Swept(st, cur, n) && id in st.infos
    ensures if id in st.deq[..n] && Takeable(st, id) then EvictedEntry(st, cur, id) else SparedEntry(st, cur, id)
  {
    hide Load, Share;
    FilterMembers(st, st.deq[..n]);
    assert st.deq == st.deq[..n] + st.deq[n..];
    assert id in AfterVisits(st, n).deq <==> id in st.deq[n..] || id in Passed(st, st.deq[..n]);
  }

  /** The first `k` nodes are the fewest that weigh `need`. */
  ghost predicate Fewest(st: State, need: nat, k: nat) {
    k <= |st.deq| && Load(st, st.deq[..k]) >= need && (k > 0 ==> Load(st, st.deq[..k - 1]) < need)
  }

  /** If no node of the shortest prefix that is heavy enough is blocked, exactly that prefix goes,
      whatever lies behind it and whatever the batch size. */
  lemma CleanPrefixGoes(st: State, need: nat, batch: nat, cur: State, n: nat, k: nat)
    requires batch > 0 && Evicts(st, need, batch, cur, n) && Fewest(st, need, k) && k <= FirstBlocked(st)
    ensures n == k && FrontGone(st, cur, k)
  {
    hide Yield, Taken, Passed, StuckAt, Takeable, Swept, VisitedTo, FrontGone, Load;
    assert k <= Reach(st, batch) by {
      StuckIsBlocked(st);
      assert Batches(0, batch, 0);
      PastBlocked(FirstBlocked(st), batch);
    }
    AllTakenIsFront(st, cur, k);
    if k > 0 { AllTakenIsFront(st, cur, k - 1); }
    if n < k { YieldMonotone(st, n, k - 1); }
    if k < n { YieldMonotone(st, k, n - 1); }
  }

  lemma PastBlocked(p: nat, b: nat)
    requires b > 0
    ensures p < b * (p / b + 1)
  {
    assert p == b * (p / b) + p % b;
  }

  /** A quiet cache over its limit is brought back to it. */
  lemma QuietIsBroughtUnder(st: State, limit: nat, batch: nat, cur: State, n: nat)
    requires Quiet(st) && Consistent(cur) && batch > 0 && Evicts(st, SatSub(st.weightedSize, limit), batch, cur, n)
    ensures Quiet(cur) && FrontGone(st, cur, n) && Fewest(st, SatSub(st.weightedSize, limit), n)
    ensures cur.weightedSize <= limit
  {
    hide *;
    var need := SatSub(st.weightedSize, limit);
    QuietIsTakeable(st);
    var k := FewestExists(st, need, |st.deq|);
    CleanPrefixGoes(st, need, batch, cur, n, k);
    FrontGoneQuiet(st, cur, n);
    FewestIsEnough(st, cur, limit, n);
  }

  lemma FewestIsEnough(st: State, cur: State, limit: nat, k: nat)
    requires FrontGone(st, cur, k) && Fewest(st, SatSub(st.weightedSize, limit), k)
    ensures cur.weightedSize <= limit
  {
  }

  lemma QuietIsTakeable(st: State)
    requires Quiet(st)
    ensures FirstBlocked(st) == |st.deq| && Consistent(st)
    ensures forall limit: nat :: Load(st, st.deq[..|st.deq|]) >= SatSub(st.weightedSize, limit)
  {
    hide Load;
    assert st.deq[..|st.deq|] == st.deq;
    forall i | 0 <= i < |st.deq| ensures Takeable(st, st.deq[i]) {
      assert st.deq[i] in st.deq && Clean(Peek(st, st.deq[i]));
    }
  }

  lemma {:induction false} FewestExists(st: State, need: nat, m: nat) returns (k: nat)
    requires m <= |st.deq| && Load(st, st.deq[..m]) >= need
    ensures k <= m && Fewest(st, need, k)
  {
    if m == 0 || Load(st, st.deq[..m - 1]) < need { k := m; } else { k := FewestExists(st, need, m - 1); }
  }
}
