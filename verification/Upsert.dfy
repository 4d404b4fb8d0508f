/** Draining one `WriteOp::Upsert`: who is admitted, who pays for it, and that a TinyLFU cache
    never ends up over its capacity. */
module Upsert {
  import opened Common
  import opened PolicyRecord
  import opened Admission
  import opened EvictionState
  import opened Eviction

  datatype Config = Config(maxCapacity: Option<nat>, tinyLfu: bool)

  /** The operation: the record it is about, and the generation and weights it carries. */
  datatype Op = Op(id: Id, gen: nat, oldWeight: nat, newWeight: nat)

  /** Draining the operation leaves nothing pending on its record. */
  predicate Settles(i: EntryInfo, op: Op) {
    SetPolicyGen(i.policyGen, op.gen) == i.entryGen
  }

  /** Retired by a client, and not yet taken out of the deque. */
  predicate Departed(i: EntryInfo) {
    i.admitted && i.retired
  }

  /** An operation that settles a new record carries the record's current weight, and none settles an
      admitted record that a client has retired: the removal is newer.  The total weight is far
      from the width of the counter.  Nothing is asked of updates: they may be stale. */
  ghost predicate OpOk(st: State, op: Op) {
    && op.id in st.infos
    && (IsNew(st, op) && Settles(st.infos[op.id], op) ==> op.newWeight == st.infos[op.id].weight)
    && (Departed(st.infos[op.id]) ==> !Settles(st.infos[op.id], op))
    && st.weightedSize + op.newWeight <= U64_MAX
  }

  ghost predicate IsNew(st: State, op: Op) {
    op.id in st.infos && !st.infos[op.id].retired && !st.infos[op.id].admitted
  }

  /** `has_enough_capacity`. */
  predicate HasRoom(cfg: Config, st: State, weight: nat) {
    cfg.maxCapacity.None? || st.weightedSize + weight <= cfg.maxCapacity.value
  }

  // ----- the two endings ---------------------------------------------------------------------

  function Joined(st: State, op: Op): State
    requires op.id in st.infos
  {
    Settle(HandleAdmit(st, op.id, op.newWeight), op.id, op.gen)
  }

  /** The candidate leaves the table, unless it has been replaced or updated since.  A candidate
      that is too big is settled in any case; one that lost only if it was removed. */
  function TurnedAway(st: State, op: Op, tooBig: bool): State
    requires TableOk(st) && op.id in st.infos
  {
    var i := st.infos[op.id];
    if i.key in st.table && st.table[i.key] == op.id && i.entryGen == op.gen then
      Settle(Retire(st, i.key), op.id, op.gen).(evictionCount := st.evictionCount + 1)
    else if tooBig then Settle(st, op.id, op.gen)
    else st
  }

  /** An admitted record is updated: the weights it carries are exchanged, its node moves. */
  function Updated(st: State, op: Op): State
    requires op.id in st.infos && op.id in st.deq
  {
    Settle(st.(weightedSize := SatAdd(SatSub(st.weightedSize, op.oldWeight), op.newWeight),
                     deq := ToBack(st.deq, PositionOf(st.deq, op.id))),
                 op.id, op.gen)
  }

  // ----- what the endings mean, field by field ---------------------------------------------------

  /** Nothing but the record's policy generation has moved. */
  ghost predicate SettledAs(st: State, op: Op, cur: State)
    requires op.id in st.infos
  {
    var i := st.infos[op.id];
    cur == st.(infos := st.infos[op.id := i.(policyGen := SetPolicyGen(i.policyGen, op.gen))])
  }

  /** The record is in the deque, at its most recently used end, and counted with the operation's weight. */
  ghost predicate AdmittedAs(st: State, op: Op, cur: State)
    requires op.id in st.infos
  {
    var i := st.infos[op.id];
    cur == State(st.table, st.infos[op.id := i.(admitted := true, policyGen := SetPolicyGen(i.policyGen, op.gen))],
                 st.deq + [op.id], st.entryCount + 1, st.weightedSize + op.newWeight, st.evictionCount)
  }

  /** If the operation is the record's latest change, the record is retired, its key has left the table
      and an eviction is counted; otherwise the newer change keeps both.  Nothing else happens. */
  ghost predicate RejectedAs(st: State, op: Op, tooBig: bool, cur: State)
    requires op.id in st.infos
  {
    var i := st.infos[op.id];
    var settled := SetPolicyGen(i.policyGen, op.gen);
    if i.entryGen == op.gen then
      cur == st.(table := st.table - {i.key}, evictionCount := st.evictionCount + 1,
                 infos := st.infos[op.id := i.(retired := true, policyGen := settled)])
    else
      cur == st.(infos := st.infos[op.id := i.(policyGen := if tooBig then settled else i.policyGen)])
  }

  /** The weights are exchanged, and the node is the most recently used one; the others keep their order. */
  ghost predicate UpdatedAs(st: State, op: Op, cur: State)
    requires op.id in st.infos
  {
    var i := st.infos[op.id];
    cur == State(st.table, st.infos[op.id := i.(policyGen := SetPolicyGen(i.policyGen, op.gen))],
                 Without(st.deq, op.id) + [op.id], st.entryCount,
                 SatAdd(SatSub(st.weightedSize, op.oldWeight), op.newWeight), st.evictionCount)
  }

  lemma SettleIs(st: State, op: Op)
    requires op.id in st.infos
    ensures SettledAs(st, op, Settle(st, op.id, op.gen))
  {
  }

  lemma JoinedIff(st: State, op: Op, cur: State)
    requires op.id in st.infos && !st.infos[op.id].retired && st.weightedSize + op.newWeight <= U64_MAX
    ensures AdmittedAs(st, op, cur) <==> cur == Joined(st, op)
  {
  }

  lemma TurnedAwayIff(st: State, op: Op, tooBig: bool, cur: State)
    requires TableOk(st) && IsNew(st, op)
    ensures RejectedAs(st, op, tooBig, cur) <==> cur == TurnedAway(st, op, tooBig)
  {
    hide SetPolicyGen;
  }

  lemma UpdatedIs(st: State, op: Op)
    requires op.id in st.infos && op.id in st.deq
    ensures UpdatedAs(st, op, Updated(st, op))
  {
    hide SetPolicyGen, PositionOf;
  }

  lemma JoinKeepsOthers(st: State, op: Op)
    requires Consistent(st) && OpOk(st, op) && IsNew(st, op)
    ensures forall id :: id != op.id ==> Peek(Joined(st, op), id) == Peek(st, id)
    ensures Share(Joined(st, op), op.id) <= op.newWeight
    ensures TableOk(Joined(st, op)) && DequeOk(Joined(st, op))
  {
    hide Load;
    assert op.id !in st.deq;
  }

  /** Admission adds exactly one node, at the back, and exactly the operation's weight. */
  lemma JoinConsistent(st: State, op: Op)
    requires Consistent(st) && OpOk(st, op) && IsNew(st, op)
    ensures Consistent(Joined(st, op)) && Joined(st, op).deq == st.deq + [op.id]
    ensures Joined(st, op).weightedSize == st.weightedSize + op.newWeight
    ensures Load(Joined(st, op), Joined(st, op).deq) == Load(st, st.deq) + Share(Joined(st, op), op.id)
  {
    var st' := Joined(st, op);
    JoinKeepsOthers(st, op);
    assert op.id !in st.deq;
    hide TableOk, DequeOk, Load, Share, Peek;
    assert forall id :: id in st.deq ==> Peek(st', id) == Peek(st, id);
    SamePeekLoad(st, st', st.deq);
    LoadConcat(st', st.deq, [op.id]);
    LoadOne(st', op.id);
  }

  lemma SamePeekLoad(st: State, st': State, s: seq<Id>)
    requires forall id :: id in s ==> Peek(st', id) == Peek(st, id)
    ensures Load(st', s) == Load(st, s)
  {
  }

  /** Nothing the deque relies on has changed. */
  ghost predicate DequeUndisturbed(st: State, st': State) {
    && st'.deq == st.deq && st'.weightedSize == st.weightedSize
    && Load(st', st.deq) == Load(st, st.deq)
    && forall id :: id in st.deq && Peek(st, id).alive ==> Peek(st', id) == Peek(st, id)
  }

  lemma SettleOutsider(st: State, id: Id, gen: nat)
    requires Consistent(st) && id !in st.deq && id in st.infos
    ensures Consistent(Settle(st, id, gen)) && DequeUndisturbed(st, Settle(st, id, gen))
  {
    hide Load;
    LoadSame(st, Settle(st, id, gen), st.deq);
  }

  lemma RetireOutsider(st: State, id: Id, evictionCount: nat)
    requires Consistent(st) && id !in st.deq && id in st.infos && !st.infos[id].retired
    ensures var st' := Retire(st, st.infos[id].key).(evictionCount := evictionCount);
      Consistent(st') && DequeUndisturbed(st, st')
  {
    hide Load;
    var st' := Retire(st, st.infos[id].key).(evictionCount := evictionCount);
    forall x | x in st.deq ensures Share(st', x) == Share(st, x) {
      assert x != id && st'.infos[x] == st.infos[x];
    }
    LoadSame(st, st', st.deq);
  }

  /** A candidate that is turned away leaves deque and counters undisturbed. */
  lemma TurnConsistent(st: State, op: Op, tooBig: bool)
    requires Consistent(st) && IsNew(st, op)
    ensures Consistent(TurnedAway(st, op, tooBig)) && DequeUndisturbed(st, TurnedAway(st, op, tooBig))
  {
    var i := st.infos[op.id];
    assert op.id !in st.deq && i.key in st.table && st.table[i.key] == op.id;
    TurnConsistentAt(st, op, tooBig, i);
  }

  lemma TurnConsistentAt(st: State, op: Op, tooBig: bool, i: EntryInfo)
    requires Consistent(st) && TableOk(st) && op.id in st.infos && i == st.infos[op.id] && !i.retired
    requires op.id !in st.deq && i.key in st.table && st.table[i.key] == op.id
    ensures Consistent(TurnedAway(st, op, tooBig)) && DequeUndisturbed(st, TurnedAway(st, op, tooBig))
  {
    hide Load, Consistent, TableOk, DequeOk, Peek, SetPolicyGen;
    if i.entryGen == op.gen {
      var mid := Retire(st, i.key).(evictionCount := st.evictionCount + 1);
      RetireOutsider(st, op.id, st.evictionCount + 1);
      SettleOutsider(mid, op.id, op.gen);
      assert TurnedAway(st, op, tooBig) == Settle(mid, op.id, op.gen);
    } else {
      SettleOutsider(st, op.id, op.gen);
    }
  }

  // ----- the victims -------------------------------------------------------------------------

  /** The victims an admission names: the first nodes, clean, as last seen. */
  ghost predicate Named(st: State, vs: seq<Victim>) {
    && |vs| <= |st.deq|
    && forall i :: 0 <= i < |vs| ==> vs[i].node == st.deq[i] && AsSeen(st, vs[i])
  }

  ghost predicate AsSeen(st: State, v: Victim) {
    Clean(Peek(st, v.node)) && Peek(st, v.node).lastAccessed == v.lastAccessed
  }

  /** Removes one victim if it is still as it was seen; otherwise lets it go to the back. */
  function RemoveVictim(st: State, v: Victim): State
    requires TableOk(st) && v.node in st.infos
  {
    var key := st.infos[v.node].key;
    if key in st.table && st.infos[st.table[key]].lastAccessed == v.lastAccessed then Evict(st, key)
    else if st.deq != [] && st.deq[0] in st.infos && st.infos[st.deq[0]].key == key then
      st.(deq := ToBack(st.deq, 0))
    else st
  }

  /** A victim that has been used, replaced or removed since it was chosen is not evicted; only its node, if
      it is still the first, goes to the back. */
  lemma ChangedVictimIsSpared(st: State, v: Victim)
    requires TableOk(st) && v.node in st.infos && v.lastAccessed.Some?
    ensures var st', key := RemoveVictim(st, v), st.infos[v.node].key;
      if key in st.table && st.infos[st.table[key]].lastAccessed == v.lastAccessed then
        && st'.table == st.table - {key} && st'.evictionCount == st.evictionCount + 1
        && st'.infos[st.table[key]].retired && !st'.infos[st.table[key]].admitted
      else
        && st' == st.(deq := st'.deq)
        && st'.deq == if st.deq != [] && st.deq[0] in st.infos && st.infos[st.deq[0]].key == key
                      then st.deq[1..] + [st.deq[0]] else st.deq
  {
    hide Without;
    if st.deq != [] { assert st.deq[..0] + st.deq[1..] == st.deq[1..]; }
  }

  lemma NextVictim(st: State, vs: seq<Victim>, cur: State, n: nat)
    requires Consistent(st) && Named(st, vs) && n < |vs| && Consistent(cur) && FrontGone(st, cur, n)
    ensures TableOk(cur) && vs[n].node in cur.infos
    ensures var cur' := RemoveVictim(cur, vs[n]); Consistent(cur') && FrontGone(st, cur', n + 1)
  {
    var x := vs[n].node;
    assert cur.deq[0] == st.deq[n] == x;
    PeekKept(st, cur, n, x);
    EvictIsFront(cur);
    FrontClean(cur);
    assert RemoveVictim(cur, vs[n]) == Evict(cur, cur.infos[x].key);
    hide Consistent, AfterFront, Evict, Peek, Named, RemoveVictim;
    FrontThenFront(st, cur, RemoveVictim(cur, vs[n]), n, 1);
  }

  /** The victims pay: exactly they are gone. */
  method RemoveVictims(st: State, vs: seq<Victim>) returns (cur: State)
    requires Consistent(st) && Named(st, vs)
    ensures Consistent(cur) && FrontGone(st, cur, |vs|)
  {
    hide *;
    cur := st;
    var n := 0;
    NothingRemoved(st);
    while n < |vs|
      invariant n <= |vs| && Consistent(cur) && FrontGone(st, cur, n)
    {
      NextVictim(st, vs, cur, n);
      cur := RemoveVictim(cur, vs[n]);
      n := n + 1;
    }
  }

  // ----- the whole operation -----------------------------------------------------------------

  /** What `admit` is asked about a candidate. */
  function AskOf(st: State, op: Op, freq: Id -> nat): Ask {
    Ask(st.deq, op.newWeight, freq(op.id), (n: nat, id: Id) => Peek(st, id), freq)
  }

  /** The victims of a winning walk are named in the reordered state, and weigh enough. */
  lemma WinnersNamed(st: State, op: Op, freq: Id -> nat, s: seq<Id>, vs: seq<Victim>, ws: seq<nat>, tr: Trace)
    requires Consistent(st) && Walked(AskOf(st, op, freq), s, vs, ws, tr)
    ensures Rearranged(st.deq, s) && Named(st.(deq := s), vs) && Load(st.(deq := s), s[..|vs|]) == Sum(ws)
  {
    var st' := st.(deq := s);
    forall i | 0 <= i < |vs|
      ensures vs[i].node == s[i] && AsSeen(st', vs[i])
      ensures ws[i] == Share(st', s[i])
    {
      assert Nodes(vs)[i] == s[i];
      assert Took(AskOf(st, op, freq).look, tr, i, vs[i], ws[i]);
      assert Peek(st', s[i]) == Peek(st, s[i]);
    }
    LoadIsSum(st', s[..|vs|], ws);
  }

  lemma {:induction false} LoadIsSum(st: State, s: seq<Id>, ws: seq<nat>)
    requires |s| == |ws| && forall i :: 0 <= i < |s| ==> ws[i] == Share(st, s[i])
    ensures Load(st, s) == Sum(ws)
  {
    if s != [] { LoadIsSum(st, s[..|s| - 1], ws[..|s| - 1]); }
  }

  /** The admitted candidate of a walk that ended in `s` with victims `vs`. */
  lemma PaidFor(st: State, op: Op, s: seq<Id>, k: nat, cur: State)
    requires Consistent(st) && OpOk(st, op) && IsNew(st, op) && Rearranged(st.deq, s)
    requires Consistent(cur) && FrontGone(st.(deq := s), cur, k)
    ensures OpOk(cur, op) && IsNew(cur, op)
    ensures Consistent(Joined(cur, op))
    ensures Joined(cur, op).weightedSize == st.weightedSize - Load(st.(deq := s), s[..k]) + op.newWeight
  {
    assert op.id !in s;
    assert op.id !in s[..k];
    assert cur.infos[op.id] == st.infos[op.id];
    JoinConsistent(cur, op);
  }

  lemma RetiredConsistent(st: State, op: Op)
    requires Consistent(st) && OpOk(st, op) && st.infos[op.id].retired
    ensures Consistent(Settle(st, op.id, op.gen))
  {
    hide Load;
    LoadSame(st, Settle(st, op.id, op.gen), st.deq);
  }

  lemma UpdateKeepsOthers(st: State, op: Op)
    requires Consistent(st) && op.id in st.deq && !st.infos[op.id].retired
    ensures TableOk(Updated(st, op)) && DequeOk(Updated(st, op))
    ensures Updated(st, op).deq == Without(st.deq, op.id) + [op.id]
    ensures Share(Updated(st, op), op.id) == SettledWeight(st, op)
    ensures forall id :: id != op.id ==> Share(Updated(st, op), id) == Share(st, id)
  {
    hide Load;
    MoveRearranges(st.deq, st.deq, PositionOf(st.deq, op.id));
  }

  /** The weight an updated record is known to stand for afterwards. */
  function SettledWeight(st: State, op: Op): nat
    requires op.id in st.infos
  {
    if Settles(st.infos[op.id], op) then st.infos[op.id].weight else 0
  }

  /** If the operation is an update, exchanging its weights leaves enough for everybody. */
  ghost predicate CoversUpdate(st: State, op: Op)
    requires op.id in st.infos
  {
    !st.infos[op.id].retired && st.infos[op.id].admitted ==>
      SatAdd(SatSub(st.weightedSize, op.oldWeight), op.newWeight)
      >= Load(st, Without(st.deq, op.id)) + SettledWeight(st, op)
  }

  /** Any update, stale or not, keeps the state consistent exactly under that condition. */
  lemma UpdateConsistentIff(st: State, op: Op)
    requires Consistent(st) && op.id in st.deq && !st.infos[op.id].retired
    ensures Consistent(Updated(st, op)) <==> CoversUpdate(st, op)
  {
    var st', others := Updated(st, op), Without(st.deq, op.id);
    UpdateKeepsOthers(st, op);
    WithoutKeeps(st.deq, op.id);
    hide Load, Share, Distinct, TableOk, Rearranged, Peek, Without, ToBack;
    LoadConcat(st', others, [op.id]);
    LoadOne(st', op.id);
    LoadSame(st, st', others);
  }

  /** It holds for an update that carries the current weight if the counter holds the old one. */
  lemma InOrderUpdateCovers(st: State, op: Op)
    requires op.id in st.infos && st.weightedSize + op.newWeight <= U64_MAX
    requires st.weightedSize >= Load(st, Without(st.deq, op.id)) + op.oldWeight
    requires Settles(st.infos[op.id], op) ==> op.newWeight == st.infos[op.id].weight
    ensures CoversUpdate(st, op)
  {
  }

  /** The entry fits into what is left of the capacity. */
  ghost predicate Fits(st: State, cfg: Config, op: Op) {
    cfg.maxCapacity.Some? ==> st.weightedSize + op.newWeight <= cfg.maxCapacity.value
  }

  /** What becomes of a new entry, whatever else is pending. */
  ghost predicate Handled(st: State, cfg: Config, op: Op, freq: Id -> nat, cur: State)
    requires op.id in st.infos
  {
    if Fits(st, cfg, op) then AdmittedAs(st, op, cur)
    else if op.newWeight > cfg.maxCapacity.value then RejectedAs(st, op, true, cur)
    else if !cfg.tinyLfu then AdmittedAs(st, op, cur)
    else exists s, mid :: Contest(st, op, freq, cur, s, mid)
  }

  /** What becomes of a new entry in a quiet cache. */
  ghost predicate Decided(st: State, cfg: Config, op: Op, freq: Id -> nat, cur: State)
    requires op.id in st.infos
  {
    if Fits(st, cfg, op) then AdmittedAs(st, op, cur)
    else if op.newWeight > cfg.maxCapacity.value then RejectedAs(st, op, true, cur)
    else if !cfg.tinyLfu then AdmittedAs(st, op, cur)
    else Contested(st, op, freq, cur)
  }

  /** The first `k` entries have gone, leaving `mid`, and the candidate has joined. */
  ghost predicate WonBy(st: State, mid: State, k: nat, op: Op, cur: State) {
    Consistent(mid) && FrontGone(st, mid, k) && op.id in mid.infos && AdmittedAs(mid, op, cur)
  }

  /** The first `k` entries are the fewest that make room, and together less popular than the candidate. */
  ghost predicate Pays(st: State, op: Op, freq: Id -> nat, k: nat) {
    && k <= |st.deq| && Load(st, st.deq[..k]) >= op.newWeight
    && (k > 0 ==> Load(st, st.deq[..k - 1]) < op.newWeight)
    && Sum(FreqsOf(freq, st.deq[..k])) < freq(op.id)
  }

  /** If the first `k` entries should pay for the candidate, then exactly those are gone and it has
      joined; if for no `k` they should, the candidate is gone and nothing else. */
  ghost predicate Contested(st: State, op: Op, freq: Id -> nat, cur: State)
    requires op.id in st.infos
  {
    && (forall k: nat :: Pays(st, op, freq, k) ==> exists mid :: WonBy(st, mid, k, op, cur))
    && ((forall k: nat :: !Pays(st, op, freq, k)) ==> RejectedAs(st, op, false, cur))
  }

  /** Either ending of a contest, in terms of the walk: it wins if the victims weigh enough and are less
      popular than the candidate. */
  ghost predicate Contest(st: State, op: Op, freq: Id -> nat, cur: State, s: seq<Id>, mid: State) {
    && op.id in st.infos
    && exists vs, ws, tr ::
         && Walked(AskOf(st, op, freq), s, vs, ws, tr)
         && if Sum(ws) >= op.newWeight && Popularity(freq, vs) < freq(op.id)
            then WonBy(st.(deq := s), mid, |vs|, op, cur)
            else RejectedAs(st.(deq := s), op, false, cur)
  }

  method Contend(st: State, op: Op, freq: Id -> nat) returns (cur: State, ghost s: seq<Id>, ghost mid: State)
    requires Consistent(st) && OpOk(st, op) && IsNew(st, op) && forall id :: freq(id) <= MAX_FREQUENCY
    ensures Consistent(cur) && cur.weightedSize <= st.weightedSize
    ensures Contest(st, op, freq, cur, s, mid)
  {
    var a := AskOf(st, op, freq);
    var s', admitted, vs, ws, tr := Admit(a);
    s, mid := s', st;
    WinnersNamed(st, op, freq, s', vs, ws, tr);
    ReorderConsistent(st, s');
    assert admitted <==> Sum(ws) >= op.newWeight && Popularity(freq, vs) < freq(op.id);
    hide Walked, Sum, Popularity, AdmittedAs, RejectedAs, TurnedAway, Joined;
    if admitted {
      cur := RemoveVictims(st.(deq := s'), vs);
      mid := cur;
      PaidFor(st, op, s', |vs|, cur);
      JoinedIff(cur, op, Joined(cur, op));
      cur := Joined(cur, op);
    } else {
      TurnConsistent(st.(deq := s'), op, false);
      TurnedAwayIff(st.(deq := s'), op, false, TurnedAway(st.(deq := s'), op, false));
      cur := TurnedAway(st.(deq := s'), op, false);
    }
  }

  /** In a quiet cache the admission's reference is this one. */
  lemma PaysIff(st: State, op: Op, freq: Id -> nat, k: nat)
    requires Quiet(st)
    ensures ShouldAdmit(AskOf(st, op, freq), k) <==> Pays(st, op, freq, k)
  {
    var ws := WeightsOf(AskOf(st, op, freq).look, st.deq);
    if k <= |st.deq| { QuietLoad(st, op, freq, k); }
    if 0 < k <= |st.deq| { QuietLoad(st, op, freq, k - 1); }
    hide Quiet, Load, WeightsOf, Sum;
  }

  lemma QuietLoad(st: State, op: Op, freq: Id -> nat, k: nat)
    requires Quiet(st) && k <= |st.deq|
    ensures Load(st, st.deq[..k]) == Sum(WeightsOf(AskOf(st, op, freq).look, st.deq)[..k])
  {
    var ws := WeightsOf(AskOf(st, op, freq).look, st.deq);
    forall i | 0 <= i < k ensures ws[..k][i] == Share(st, st.deq[..k][i]) {
      assert st.deq[i] in st.deq;
    }
    hide Quiet, Load, Sum, Share;
    LoadIsSum(st, st.deq[..k], ws[..k]);
  }

  lemma QuietContest(st: State, op: Op, freq: Id -> nat, cur: State, s: seq<Id>, mid: State)
    requires Quiet(st) && Contest(st, op, freq, cur, s, mid)
    ensures Contested(st, op, freq, cur)
  {
    hide Walked, AllClean, ShouldAdmit, WonBy, RejectedAs, Quiet, Consistent, Pays, Sum, Popularity;
    QuietIsClean(st, op, freq);
    var a := AskOf(st, op, freq);
    assert a.weight == op.newWeight && a.f == freq(op.id) && a.freq == freq;
    hide AskOf;
    var vs, ws, tr :| Walked(a, s, vs, ws, tr) &&
                      if Sum(ws) >= op.newWeight && Popularity(freq, vs) < freq(op.id)
                      then WonBy(st.(deq := s), mid, |vs|, op, cur)
                      else RejectedAs(st.(deq := s), op, false, cur);
    CleanWalkIsReference(a, s, vs, ws, tr);
    assert st.(deq := s) == st;
    assert Wins(a, vs, ws) ==> WonBy(st, mid, |vs|, op, cur);
    forall k: nat ensures ShouldAdmit(a, k) <==> Pays(st, op, freq, k) { PaysIff(st, op, freq, k); }
  }

  lemma QuietIsClean(st: State, op: Op, freq: Id -> nat)
    requires Quiet(st)
    ensures var a := AskOf(st, op, freq); a.deq == st.deq && AllClean(a.look, a.deq)
  {
  }

  /** `handle_upsert`, while no client runs.
      Consistency is kept unless an update takes more out of the counter than it holds for its
      record, and then it is not.  A TinyLFU cache within its capacity is kept within it by every
      new entry, whatever other operations are pending.  A new entry that fits is admitted, one that is
      too big or loses its contest is rejected; in a quiet cache the contest is decided as the
      reference says. */
  method HandleUpsert(st: State, cfg: Config, op: Op, freq: Id -> nat) returns (cur: State)
    requires Consistent(st) && OpOk(st, op) && forall id :: freq(id) <= MAX_FREQUENCY
    ensures Consistent(cur) <==> CoversUpdate(st, op)
    ensures IsNew(st, op) && cfg.tinyLfu && cfg.maxCapacity.Some? && st.weightedSize <= cfg.maxCapacity.value ==>
      cur.weightedSize <= cfg.maxCapacity.value
    ensures IsNew(st, op) ==> Handled(st, cfg, op, freq, cur)
    ensures IsNew(st, op) && Quiet(st) ==> Decided(st, cfg, op, freq, cur)
    ensures st.infos[op.id].retired ==> SettledAs(st, op, cur)
    ensures !st.infos[op.id].retired && st.infos[op.id].admitted ==> UpdatedAs(st, op, cur)
  {
    hide Load, Quiet, Contested, Contest, AdmittedAs, RejectedAs, UpdatedAs, SettledAs;
    hide Updated, Joined, TurnedAway, Settle;
    var i := st.infos[op.id];
    if i.retired {
      RetiredConsistent(st, op);
      SettleIs(st, op);
      cur := Settle(st, op.id, op.gen);
    } else if i.admitted {
      UpdateConsistentIff(st, op);
      UpdatedIs(st, op);
      cur := Updated(st, op);
    } else if HasRoom(cfg, st, op.newWeight) {
      JoinConsistent(st, op);
      JoinedIff(st, op, Joined(st, op));
      cur := Joined(st, op);
    } else if op.newWeight > cfg.maxCapacity.value {
      TurnConsistent(st, op, true);
      TurnedAwayIff(st, op, true, TurnedAway(st, op, true));
      cur := TurnedAway(st, op, true);
    } else if cfg.tinyLfu {
      ghost var s, mid;
      cur, s, mid := Contend(st, op, freq);
      if Quiet(st) { QuietContest(st, op, freq, cur, s, mid); }
    } else {
      JoinConsistent(st, op);
      JoinedIff(st, op, Joined(st, op));
      cur := Joined(st, op);
    }
  }

  // ----- a quiet cache stays quiet -----------------------------------------------------------

  lemma JoinedIsClean(st: State, op: Op)
    requires Consistent(st) && OpOk(st, op) && IsNew(st, op) && Settles(st.infos[op.id], op)
    ensures var g := Peek(Joined(st, op), op.id);
      Clean(g) && g.weight == Some(op.newWeight) && g.lastAccessed == st.infos[op.id].lastAccessed
  {
  }

  lemma JoinQuiet(st: State, op: Op)
    requires Quiet(st) && OpOk(st, op) && IsNew(st, op) && Settles(st.infos[op.id], op)
    requires st.infos[op.id].lastAccessed.Some?
    ensures Quiet(Joined(st, op))
  {
    hide Load, Consistent, OpOk, IsNew, Peek, Joined;
    JoinConsistent(st, op);
    JoinKeepsOthers(st, op);
    JoinedIsClean(st, op);
  }

  lemma TurnQuiet(st: State, op: Op, tooBig: bool)
    requires Quiet(st) && IsNew(st, op)
    ensures Quiet(TurnedAway(st, op, tooBig))
  {
    hide Load, Peek, TurnedAway, IsNew;
    TurnConsistent(st, op, tooBig);
  }

  /** Deciding a new entry keeps a quiet cache quiet: clean, consistent and exactly accounted. */
  lemma DecidedIsQuiet(st: State, cfg: Config, op: Op, freq: Id -> nat, cur: State)
    requires Quiet(st) && OpOk(st, op) && IsNew(st, op) && Settles(st.infos[op.id], op)
    requires st.infos[op.id].lastAccessed.Some? && Decided(st, cfg, op, freq, cur)
    ensures Quiet(cur)
  {
    assert Consistent(st) && TableOk(st) && st.weightedSize + op.newWeight <= U64_MAX;
    JoinedIff(st, op, cur);
    TurnedAwayIff(st, op, true, cur);
    TurnedAwayIff(st, op, false, cur);
    hide Quiet, Joined, TurnedAway, Consistent, OpOk, WonBy, IsNew, Settles, TableOk, AdmittedAs, RejectedAs, Pays;
    if cur == Joined(st, op) {
      JoinQuiet(st, op);
    } else if cur == TurnedAway(st, op, true) {
      TurnQuiet(st, op, true);
    } else if cur == TurnedAway(st, op, false) {
      TurnQuiet(st, op, false);
    } else {
      var k: nat, mid :| WonBy(st, mid, k, op, cur);
      WonIsQuiet(st, mid, k, op, cur);
    }
  }

  lemma WonIsQuiet(st: State, mid: State, k: nat, op: Op, cur: State)
    requires Quiet(st) && Consistent(st) && OpOk(st, op) && IsNew(st, op) && Settles(st.infos[op.id], op)
    requires st.infos[op.id].lastAccessed.Some? && WonBy(st, mid, k, op, cur)
    ensures Quiet(cur)
  {
    hide Quiet, FrontGone, Joined, Consistent, OpOk, AdmittedAs, IsNew;
    FrontGoneQuiet(st, mid, k);
    OutsiderKept(st, mid, k, op);
    JoinedIff(mid, op, cur);
    JoinQuiet(mid, op);
  }

  lemma OutsiderKept(st: State, mid: State, k: nat, op: Op)
    requires Consistent(st) && FrontGone(st, mid, k) && OpOk(st, op) && IsNew(st, op)
    ensures OpOk(mid, op) && IsNew(mid, op) && mid.infos[op.id] == st.infos[op.id]
    ensures !mid.infos[op.id].retired && mid.weightedSize + op.newWeight <= U64_MAX
  {
  }
}
