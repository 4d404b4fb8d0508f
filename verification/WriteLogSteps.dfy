/** Every step of the write-log protocol preserves the invariant. */
module WriteLogSteps {
  import opened Common
  import opened PolicyRecord
  import opened WriteLog
  import opened WriteLogInvariant

  // ----- steps that only carry an op along ---------------------------------------------

  /** `s'` differs from `s` at most in client task `t` and the two channels. */
  ghost predicate Shift(s: State, s': State, t: nat) {
    && t < |s.tasks| == |s'.tasks|
    && s' == s.(tasks := s.tasks[t := s'.tasks[t]], interrupted := s'.interrupted,
                channel := s'.channel)
  }

  /** The op that task `t` gave up or took over is accounted for in the channels. */
  ghost predicate Balanced(s: State, s': State, t: nat, op: WriteOp)
    requires t < |s.tasks| == |s'.tasks|
  {
    Is(Owed(s'.tasks[t]), op) + InParked(s'.interrupted, op) + InLog(s'.channel, op)
    == Is(Owed(s.tasks[t]), op) + InParked(s.interrupted, op) + InLog(s.channel, op)
  }

  lemma ShiftPending(s: State, s': State, t: nat, op: WriteOp)
    requires Shift(s, s', t) && Balanced(s, s', t, op)
    ensures Pending(s', op) == Pending(s, op)
  {
    InTasksUpdate(s.tasks, t, s'.tasks[t], op);
  }

  /** The invariant reads the places of ops only through `Pending`. */
  lemma ShiftInv(s: State, s': State, t: nat)
    requires Inv(s) && Shift(s, s', t) && TaskOk(s'.tasks[t])
    requires forall op :: Balanced(s, s', t, op)
    ensures Inv(s')
  {
    forall op ensures Pending(s', op) == Pending(s, op) {
      assert Balanced(s, s', t, op);
      ShiftPending(s, s', t, op);
    }
    assert TasksOk(s');
    forall id | RemovePending(s, id) ensures RemovePending(s', id) {
      var op :| Pending(s, op) > 0 && op.Remove? && op.id == id;
      assert Pending(s', op) > 0;
    }
    forall id, g | UpsertPending(s, id, g) ensures UpsertPending(s', id, g) {
      var op :| Pending(s, op) > 0 && op.Upsert? && op.id == id && op.gen == g;
      assert Pending(s', op) > 0;
    }
  }

  lemma NotifyInv(c: Config, s: State, step: Step)
    requires Inv(s) && Enabled(c, s, step)
    requires step.BeginNotify? || step.FinishNotify? || step.BeginSend?
    ensures Inv(Apply(c, s, step))
  {
    var s', t := Apply(c, s, step), step.t;
    assert TaskOk(s.tasks[t]);
    assert Owed(s'.tasks[t]) == Owed(s.tasks[t]);
    ShiftInv(s, s', t);
  }

  lemma TrySendInv(c: Config, s: State, t: nat)
    requires Inv(s) && Enabled(c, s, TrySend(t))
    ensures Inv(Apply(c, s, TrySend(t)))
  {
    var s' := Apply(c, s, TrySend(t));
    assert TaskOk(s.tasks[t]);
    forall op ensures Balanced(s, s', t, op) { InLogAppend(s.channel, s.tasks[t].op.value, op); }
    ShiftInv(s, s', t);
  }

  lemma CancelInv(c: Config, s: State, t: nat)
    requires Inv(s) && Enabled(c, s, Cancel(t))
    ensures Inv(Apply(c, s, Cancel(t)))
  {
    var s' := Apply(c, s, Cancel(t));
    assert TaskOk(s.tasks[t]);
    var parked := DropGuard(s.tasks[t].guard);
    forall op ensures Balanced(s, s', t, op) {
      InParkedAppend(s.interrupted, parked, op);
      assert InParked(parked, op) == Is(Owed(s.tasks[t]), op);
    }
    ShiftInv(s, s', t);
  }

  lemma EndOrRetryInv(c: Config, s: State, step: Step)
    requires Inv(s) && Enabled(c, s, step) && (step.ClearGuard? || step.RetryReceive?)
    ensures Inv(Apply(c, s, step))
  {
    var s', t := Apply(c, s, step), step.t;
    assert TaskOk(s.tasks[t]);
    ShiftInv(s, s', t);
  }

  // ----- table changes -------------------------------------------------------------------

  /** `s'` issues one new op, placed with the idle client `t`. */
  ghost predicate Issues(s: State, s': State, t: nat, op: WriteOp) {
    && t < |s.tasks| && s.tasks[t] == IDLE_TASK && op.serial == |s.issued|
    && s'.tasks == s.tasks[t := Task(Mutated, false, Some(op), EMPTY_GUARD)]
    && s'.interrupted == s.interrupted && s'.channel == s.channel && s'.maint == s.maint
    && s'.issued == s.issued + [op] && s'.drained == s.drained
  }

  lemma IssuePending(s: State, s': State, t: nat, op: WriteOp)
    requires Issues(s, s', t, op)
    ensures forall o :: Pending(s', o) == Pending(s, o) + Is(Some(op), o)
  {
    forall o ensures Pending(s', o) == Pending(s, o) + Is(Some(op), o) {
      InTasksUpdate(s.tasks, t, s'.tasks[t], o);
    }
  }

  lemma IssueKeepsPlaces(s: State, s': State, t: nat, op: WriteOp)
    requires ExactlyOnce(s) && TasksOk(s) && Issues(s, s', t, op)
    requires forall i :: 0 <= i < |s.issued| ==> s.issued[i].serial == i
    ensures ExactlyOnce(s') && TasksOk(s')
    ensures forall id :: RemovePending(s, id) ==> RemovePending(s', id)
    ensures forall id, g :: UpsertPending(s, id, g) ==> UpsertPending(s', id, g)
    ensures op.Upsert? ==> UpsertPending(s', op.id, op.gen)
    ensures op.Remove? ==> RemovePending(s', op.id)
  {
    IssuePending(s, s', t, op);
    forall o ensures Pending(s', o) + InLog(s'.drained, o) == IsIssued(s'.issued, o) {
      assert Pending(s', o) == Pending(s, o) + Is(Some(op), o);
      assert IsIssued(s'.issued, o) == IsIssued(s.issued, o) + Is(Some(op), o);
    }
    assert Pending(s', op) > 0;
    forall id | RemovePending(s, id) ensures RemovePending(s', id) {
      var o :| Pending(s, o) > 0 && o.Remove? && o.id == id;
      assert Pending(s', o) > 0;
    }
    forall id, g | UpsertPending(s, id, g) ensures UpsertPending(s', id, g) {
      var o :| Pending(s, o) > 0 && o.Upsert? && o.id == id && o.gen == g;
      assert Pending(s', o) > 0;
    }
  }

  // ----- what a step may do to the records ----------------------------------------------

  /** No key, admission or retirement flag changed. */
  ghost predicate SameFlags(a: seq<EntryInfo>, b: seq<EntryInfo>) {
    && |a| == |b|
    && (forall i :: 0 <= i < |a| ==>
          b[i].key == a[i].key && b[i].admitted == a[i].admitted && b[i].retired == a[i].retired)
  }

  /** Exactly record `id` was retired. */
  ghost predicate RetiresOne(a: seq<EntryInfo>, b: seq<EntryInfo>, id: Id) {
    && id < |a| == |b| && !a[id].retired
    && (forall i :: 0 <= i < |a| ==> b[i].key == a[i].key && b[i].admitted == a[i].admitted)
    && (forall i :: 0 <= i < |a| ==> b[i].retired == (a[i].retired || i == id))
  }

  ghost predicate KeepsPending(s: State, s': State) {
    && (forall id :: RemovePending(s, id) ==> RemovePending(s', id))
    && (forall id, g :: UpsertPending(s, id, g) ==> UpsertPending(s', id, g))
  }

  lemma SameRetiredTable(s: State, s': State)
    requires TableOk(s) && s'.table == s.table && |s'.infos| == |s.infos|
    requires forall i :: 0 <= i < |s.infos| ==>
               s'.infos[i].key == s.infos[i].key && s'.infos[i].retired == s.infos[i].retired
    ensures TableOk(s')
  {
  }

  lemma RetireTable(s: State, s': State, k: Key)
    requires TableOk(s) && k in s.table && RetiresOne(s.infos, s'.infos, s.table[k])
    requires s'.table == s.table - {k}
    ensures TableOk(s')
  {
  }

  /** Deque and count only look at the admission flags. */
  lemma SameAdmissionDeque(s: State, s': State)
    requires DequeOk(s) && s'.deque == s.deque && s'.entryCount == s.entryCount
    requires |s'.infos| == |s.infos|
    requires forall i :: 0 <= i < |s.infos| ==> s'.infos[i].admitted == s.infos[i].admitted
    ensures DequeOk(s')
  {
  }

  lemma SameFlagsRest(s: State, s': State)
    requires NoOrphan(s) && HandOk(s) && MaintOk(s) && KeepsPending(s, s')
    requires SameFlags(s.infos, s'.infos) && s'.hand == s.hand && s'.maint == s.maint
    ensures NoOrphan(s') && HandOk(s') && MaintOk(s')
  {
  }

  lemma IssuedOkAppend(s: State, s': State, op: WriteOp)
    requires IssuedOk(s) && s'.issued == s.issued + [op] && s'.hand == s.hand
    requires op.serial == |s.issued| && op.id < |s'.infos| && |s.infos| <= |s'.infos|
    requires forall i :: 0 <= i < |s.infos| && s.infos[i].retired ==> s'.infos[i].retired
    requires op.Remove? ==> op.id < |s.infos| && !s.infos[op.id].retired && s'.infos[op.id].retired
                            && op.id !in s.hand
    ensures IssuedOk(s')
  {
  }

  // ----- table changes, continued ---------------------------------------------------------

  lemma InsertInv(c: Config, s: State, t: nat, k: Key, w: nat, ts: nat)
    requires Inv(s) && Enabled(c, s, TableUpsert(t, k, w, ts)) && k !in s.table
    ensures Inv(UpsertTable(s, t, k, w, ts))
  {
    var s' := UpsertTable(s, t, k, w, ts);
    var op := s'.issued[|s.issued|];
    IssueKeepsPlaces(s, s', t, op);
    IssuedOkAppend(s, s', op);
    assert s'.infos[..|s.infos|] == s.infos;
    InsertRest(s, s');
  }

  /** A fresh, live, unadmitted record at the end of `infos`. */
  lemma InsertRest(s: State, s': State)
    requires DequeOk(s) && TableOk(s) && NoOrphan(s) && NoForgotten(s) && HandOk(s) && MaintOk(s)
    requires KeepsPending(s, s')
    requires |s'.infos| == |s.infos| + 1 && s'.infos[..|s.infos|] == s.infos
    requires s'.hand == s.hand && s'.maint == s.maint && s'.deque == s.deque
    requires s'.entryCount == s.entryCount
    requires var e := s'.infos[|s.infos|];
             !e.admitted && !e.retired && e.key !in s.table && s'.table == s.table[e.key := |s.infos|]
             && UpsertPending(s', |s.infos|, e.entryGen)
    ensures TableOk(s') && DequeOk(s') && NoOrphan(s') && NoForgotten(s') && HandOk(s') && MaintOk(s')
  {
    assert forall id :: 0 <= id < |s.infos| ==> s'.infos[id] == s.infos[id];
    InsertTable(s, s');
  }

  lemma InsertTable(s: State, s': State)
    requires TableOk(s) && |s'.infos| == |s.infos| + 1
    requires forall id :: 0 <= id < |s.infos| ==> s'.infos[id] == s.infos[id]
    requires var e := s'.infos[|s.infos|];
             !e.retired && e.key !in s.table && s'.table == s.table[e.key := |s.infos|]
    ensures TableOk(s')
  {
  }

  lemma UpdateInv(c: Config, s: State, t: nat, k: Key, w: nat, ts: nat)
    requires Inv(s) && Enabled(c, s, TableUpsert(t, k, w, ts)) && k in s.table
    ensures Inv(UpsertTable(s, t, k, w, ts))
  {
    hide ExactlyOnce, NoOrphan, NoForgotten, HandOk, MaintOk, DequeOk, Pending, RemovePending, UpsertPending, Distinct;
    var s' := UpsertTable(s, t, k, w, ts);
    var op := s'.issued[|s.issued|];
    IssueKeepsPlaces(s, s', t, op);
    IssuedOkAppend(s, s', op);
    SameRetiredTable(s, s');
    SameAdmissionDeque(s, s');
    SameFlagsRest(s, s');
    UpdateForgotten(s, s', op);
  }

  lemma UpdateForgotten(s: State, s': State, op: WriteOp)
    requires NoForgotten(s) && SameFlags(s.infos, s'.infos) && KeepsPending(s, s')
    requires op.Upsert? && op.id < |s.infos| && UpsertPending(s', op.id, s'.infos[op.id].entryGen)
    requires forall i :: 0 <= i < |s.infos| && i != op.id ==> s'.infos[i] == s.infos[i]
    ensures NoForgotten(s')
  {
  }

  lemma RemoveInv(c: Config, s: State, t: nat, k: Key)
    requires Inv(s) && Enabled(c, s, TableRemove(t, k))
    ensures Inv(RemoveFromTable(s, t, k))
  {
    hide ExactlyOnce, NoOrphan, NoForgotten, MaintOk, DequeOk, Pending, RemovePending, UpsertPending, Distinct;
    var s' := RemoveFromTable(s, t, k);
    var op := s'.issued[|s.issued|];
    IssueKeepsPlaces(s, s', t, op);
    IssuedOkAppend(s, s', op);
    RetireTable(s, s', k);
    SameAdmissionDeque(s, s');
    RetireRest(s, s', s.table[k]);
  }

  /** A client retires `id` and owes its `Remove`. */
  lemma RetireRest(s: State, s': State, id: Id)
    requires NoOrphan(s) && NoForgotten(s) && HandOk(s) && MaintOk(s) && KeepsPending(s, s')
    requires RetiresOne(s.infos, s'.infos, id) && RemovePending(s', id)
    requires s'.hand == s.hand && s'.maint == s.maint
    requires forall i :: 0 <= i < |s.infos| && i != id ==> s'.infos[i] == s.infos[i]
    ensures NoOrphan(s') && NoForgotten(s') && HandOk(s') && MaintOk(s')
  {
  }

  // ----- maintenance: draining ------------------------------------------------------------

  /** `op` leaves the undelivered ops and is recorded as drained. */
  ghost predicate Drains(s: State, s': State, op: WriteOp) {
    && (forall o :: Pending(s, o) == Pending(s', o) + Is(Some(op), o))
    && s'.issued == s.issued && s'.drained == s.drained + [op]
  }

  lemma DrainPlaces(s: State, s': State, op: WriteOp)
    requires ExactlyOnce(s) && Drains(s, s', op)
    ensures ExactlyOnce(s')
    ensures forall id :: RemovePending(s, id) && !(op.Remove? && op.id == id) ==> RemovePending(s', id)
    ensures forall id, g :: UpsertPending(s, id, g) && !(op.Upsert? && op.id == id && op.gen == g)
              ==> UpsertPending(s', id, g)
  {
    forall o ensures Pending(s', o) + InLog(s'.drained, o) == IsIssued(s'.issued, o) {
      assert Pending(s, o) == Pending(s', o) + Is(Some(op), o);
      InLogAppend(s.drained, op, o);
    }
    forall id | RemovePending(s, id) && !(op.Remove? && op.id == id) ensures RemovePending(s', id) {
      var o :| Pending(s, o) > 0 && o.Remove? && o.id == id;
      assert Pending(s, o) == Pending(s', o) + Is(Some(op), o);
    }
    forall id, g | UpsertPending(s, id, g) && !(op.Upsert? && op.id == id && op.gen == g)
      ensures UpsertPending(s', id, g)
    {
      var o :| Pending(s, o) > 0 && o.Upsert? && o.id == id && o.gen == g;
      assert Pending(s, o) == Pending(s', o) + Is(Some(op), o);
    }
  }

  /** The op at the head of the channel, or in maintenance, was issued by a table change. */
  lemma PendingIsIssued(s: State, op: WriteOp)
    requires ExactlyOnce(s) && IssuedOk(s) && Pending(s, op) > 0
    ensures op.id < |s.infos|
    ensures op.Remove? ==> s.infos[op.id].retired && op.id !in s.hand
  {
  }

  lemma SamePending(s: State, s': State)
    requires forall o :: Pending(s', o) == Pending(s, o)
    ensures KeepsPending(s, s')
  {
  }

  lemma ReceiveUpsertInv(c: Config, s: State)
    requires Inv(s) && Enabled(c, s, ReceiveUpsert)
    ensures Inv(Apply(c, s, ReceiveUpsert))
  {
    var s' := Apply(c, s, ReceiveUpsert);
    PendingIsIssued(s, s.channel[0]);
    forall o ensures Pending(s', o) == Pending(s, o) { }
    SamePending(s, s');
  }

  /** The maintenance task moves on with the same op, without touching anything else. */
  lemma AdvanceInv(s: State, s': State)
    requires Inv(s) && !s.maint.Free? && !s'.maint.Free? && s'.maint.op == s.maint.op
    requires s' == s.(maint := s'.maint) && s.hand == {}
    requires s'.maint.ToAdmit? || s'.maint.Admitting? ==> !s.infos[s.maint.op.id].admitted
    requires s'.maint.Admitting? ==> !s.infos[s.maint.op.id].retired
    ensures Inv(s')
  {
    forall o ensures Pending(s', o) == Pending(s, o) { }
    SamePending(s, s');
  }

  /** The current op is finished without changing any flag. */
  lemma FinishInv(s: State, s': State)
    requires Inv(s) && !s.maint.Free? && SameFlags(s.infos, s'.infos) && s.hand == {}
    requires s'.tasks == s.tasks && s'.interrupted == s.interrupted && s'.channel == s.channel
    requires s'.table == s.table && s'.maint == Free && s'.hand == {}
    requires s'.issued == s.issued && s'.drained == s.drained + [s.maint.op]
    requires forall i :: 0 <= i < |s.infos| ==> s'.infos[i].entryGen == s.infos[i].entryGen
    requires DequeOk(s')
    requires var e := s.infos[s.maint.op.id];
             e.retired || e.admitted || e.entryGen != s.maint.op.gen
    ensures Inv(s')
  {
    var op := s.maint.op;
    assert Drains(s, s', op);
    DrainPlaces(s, s', op);
    SameRetiredTable(s, s');
    FinishFlags(s, s', op);
  }

  lemma FinishFlags(s: State, s': State, op: WriteOp)
    requires NoOrphan(s) && NoForgotten(s) && IssuedOk(s) && SameFlags(s.infos, s'.infos)
    requires s.hand == {} && s'.hand == {} && s'.maint == Free && s'.issued == s.issued
    requires op.Upsert? && op.id < |s.infos|
    requires forall id :: RemovePending(s, id) ==> RemovePending(s', id)
    requires forall id, g :: UpsertPending(s, id, g) && !(op.id == id && op.gen == g)
               ==> UpsertPending(s', id, g)
    requires forall i :: 0 <= i < |s.infos| ==> s'.infos[i].entryGen == s.infos[i].entryGen
    requires var e := s.infos[op.id]; e.retired || e.admitted || e.entryGen != op.gen
    ensures NoOrphan(s') && NoForgotten(s') && IssuedOk(s') && HandOk(s') && MaintOk(s')
  {
  }

  // ----- deque operations -------------------------------------------------------------------

  lemma MovedToBack(d: seq<Id>, i: nat)
    requires Distinct(d) && i < |d|
    ensures var d' := ToBack(d, i);
            Distinct(d') && |d'| == |d| && (forall x :: x in d' <==> x in d)
  {
    var d' := ToBack(d, i);
    assert d == d[..i] + [d[i]] + d[i+1..];
    forall x ensures x in d' <==> x in d {
      assert x in d <==> x in d[..i] || x == d[i] || x in d[i+1..];
    }
  }

  lemma AppendDistinct(d: seq<Id>, id: Id)
    requires Distinct(d) && id !in d
    ensures Distinct(d + [id]) && (forall x :: x in d + [id] <==> x in d || x == id)
  {
  }

  // ----- maintenance: finishing an upsert ----------------------------------------------------

  lemma CheckInv(c: Config, s: State, step: Step)
    requires Inv(s) && Enabled(c, s, step) && (step.CheckAlive? || step.AdmitCheck?)
    ensures Inv(Apply(c, s, step))
  {
    var s' := Apply(c, s, step);
    assert s.hand == {};
    if s.infos[s.maint.op.id].retired {
      SameAdmissionDeque(s, s');
      FinishInv(s, s');
    } else {
      AdvanceInv(s, s');
    }
  }

  lemma ApplyUpdateInv(c: Config, s: State)
    requires Inv(s) && Enabled(c, s, ApplyUpdate)
    ensures Inv(Apply(c, s, ApplyUpdate))
  {
    var s' := Apply(c, s, ApplyUpdate);
    var id := s.maint.op.id;
    WithoutKeeps(s.deque, id);
    AppendDistinct(Without(s.deque, id), id);
    ReorderDeque(s, s');
    FinishInv(s, s');
  }

  lemma ReorderDeque(s: State, s': State)
    requires DequeOk(s) && Distinct(s'.deque) && |s'.deque| == |s.deque|
    requires forall x :: x in s'.deque <==> x in s.deque
    requires s'.entryCount == s.entryCount && |s'.infos| == |s.infos|
    requires forall i :: 0 <= i < |s.infos| ==> s'.infos[i].admitted == s.infos[i].admitted
    ensures DequeOk(s')
  {
  }

  lemma DecideAdmitInv(c: Config, s: State)
    requires Inv(s) && Enabled(c, s, DecideAdmit)
    ensures Inv(Apply(c, s, DecideAdmit))
  {
    AdvanceInv(s, Apply(c, s, DecideAdmit));
  }

  lemma RejectInv(c: Config, s: State)
    requires Inv(s) && Enabled(c, s, RejectCandidate)
    ensures Inv(Apply(c, s, RejectCandidate))
  {
    hide ExactlyOnce, NoOrphan, NoForgotten, RemovePending, UpsertPending, IsIssued, Pending, Distinct, IssuedOk;
    var s', op := Apply(c, s, RejectCandidate), s.maint.op;
    var k := s.infos[op.id].key;
    if k in s.table && s.table[k] == op.id && s.infos[op.id].entryGen == op.gen {
      RejectRetires(s, s');
    } else {
      SameAdmissionDeque(s, s');
      FinishInv(s, s');
    }
  }

  lemma RejectRetires(s: State, s': State)
    requires Inv(s) && s.maint.Checked? && s.hand == {} && !s.infos[s.maint.op.id].admitted
    requires var op := s.maint.op;
             var k := s.infos[op.id].key;
             && k in s.table && s.table[k] == op.id
             && s' == Finish(s, op, WithPolicyGen(Retire(s.infos, op.id), op.id, op.gen)).(
                        table := s.table - {k})
    ensures Inv(s')
  {
    var op := s.maint.op;
    assert RetiresOne(s.infos, s'.infos, op.id);
    RetireTable(s, s', s.infos[op.id].key);
    SameAdmissionDeque(s, s');
    assert Drains(s, s', op);
    DrainPlaces(s, s', op);
    RejectRest(s, s', op);
  }

  /** A rejected candidate is retired while outside the deque, so nobody owes a removal. */
  lemma RejectRest(s: State, s': State, op: WriteOp)
    requires NoOrphan(s) && NoForgotten(s) && IssuedOk(s) && op.Upsert?
    requires RetiresOne(s.infos, s'.infos, op.id) && !s.infos[op.id].admitted
    requires forall i :: 0 <= i < |s.infos| ==> s'.infos[i].entryGen == s.infos[i].entryGen
    requires s.hand == {} && s'.hand == {} && s'.maint == Free && s'.issued == s.issued
    requires forall id :: RemovePending(s, id) ==> RemovePending(s', id)
    requires forall id, g :: UpsertPending(s, id, g) && !(op.id == id && op.gen == g)
               ==> UpsertPending(s', id, g)
    ensures NoOrphan(s') && NoForgotten(s') && IssuedOk(s') && HandOk(s') && MaintOk(s')
  {
  }

  lemma AdmitSetInv(c: Config, s: State)
    requires Inv(s) && Enabled(c, s, AdmitSet)
    ensures Inv(Apply(c, s, AdmitSet))
  {
    hide ExactlyOnce, NoOrphan, NoForgotten, RemovePending, UpsertPending, IsIssued;
    var s', op := Apply(c, s, AdmitSet), s.maint.op;
    assert s.hand == {};
    assert Drains(s, s', op);
    DrainPlaces(s, s', op);
    SameRetiredTable(s, s');
    AppendDistinct(s.deque, op.id);
    AdmitRest(s, s', op);
  }

  lemma AdmitRest(s: State, s': State, op: WriteOp)
    requires NoOrphan(s) && NoForgotten(s) && IssuedOk(s) && DequeOk(s) && op.Upsert?
    requires op.id < |s.infos| == |s'.infos| && !s.infos[op.id].admitted && s'.infos[op.id].admitted
    requires s.infos[op.id].retired ==> RemovePending(s, op.id)
    requires forall i :: 0 <= i < |s.infos| ==> s'.infos[i].retired == s.infos[i].retired
    requires forall i :: 0 <= i < |s.infos| && i != op.id ==> s'.infos[i] == s.infos[i]
    requires Distinct(s'.deque) && s'.deque == s.deque + [op.id] && s'.entryCount == s.entryCount + 1
    requires s.hand == {} && s'.hand == {} && s'.maint == Free && s'.issued == s.issued
    requires forall id :: RemovePending(s, id) ==> RemovePending(s', id)
    requires forall id, g :: UpsertPending(s, id, g) && !(op.id == id && op.gen == g)
               ==> UpsertPending(s', id, g)
    ensures NoOrphan(s') && NoForgotten(s') && IssuedOk(s') && HandOk(s') && MaintOk(s')
    ensures DequeOk(s')
  {
  }

  // ----- maintenance: removals ----------------------------------------------------------------

  /** `handle_remove` on a record: afterwards it is outside the deque. */
  lemma HandleRemoveProps(s: State, id: Id)
    requires DequeOk(s) && id < |s.infos|
    ensures var r := HandleRemove(s, id);
      && DequeOk(r) && !r.infos[id].admitted && |r.infos| == |s.infos|
      && (forall i :: 0 <= i < |s.infos| ==>
            r.infos[i] == if i == id then s.infos[i].(admitted := false) else s.infos[i])
      && r == s.(infos := r.infos, deque := r.deque, entryCount := r.entryCount,
                 weightedSize := r.weightedSize)
  {
    WithoutKeeps(s.deque, id);
  }

  /** Record `id` leaves the deque; everything that speaks about retired records but `id`
      is untouched. */
  lemma RemovalRest(s: State, s': State, id: Id)
    requires NoOrphan(s) && NoForgotten(s) && id < |s.infos| == |s'.infos| && s.infos[id].retired
    requires !s'.infos[id].admitted && s'.infos[id].retired
    requires forall i :: 0 <= i < |s.infos| && i != id ==> s'.infos[i] == s.infos[i]
    requires s'.hand == s.hand - {id}
    requires forall x :: RemovePending(s, x) && x != id ==> RemovePending(s', x)
    requires forall x, g :: UpsertPending(s, x, g) ==> UpsertPending(s', x, g)
    ensures NoOrphan(s') && NoForgotten(s')
  {
  }

  lemma DrainRemoveInv(c: Config, s: State)
    requires Inv(s) && Enabled(c, s, DrainRemove)
    ensures Inv(Apply(c, s, DrainRemove))
  {
    hide ExactlyOnce, NoOrphan, NoForgotten, RemovePending, UpsertPending, Distinct, Without, IsIssued;
    var s', op := Apply(c, s, DrainRemove), s.channel[0];
    PendingIsIssued(s, op);
    HandleRemoveProps(s, op.id);
    SameAdmissionDeque(HandleRemove(s, op.id), s');
    SameRetiredTable(s, s');
    assert Drains(s, s', op);
    DrainPlaces(s, s', op);
    RemovalRest(s, s', op.id);
  }

  lemma EvictFinalizeInv(c: Config, s: State, id: Id)
    requires Inv(s) && Enabled(c, s, EvictFinalize(id))
    ensures Inv(Apply(c, s, EvictFinalize(id)))
  {
    var s' := Apply(c, s, EvictFinalize(id));
    HandleRemoveProps(s, id);
    SameAdmissionDeque(HandleRemove(s, id), s');
    SameRetiredTable(s, s');
    forall o ensures Pending(s', o) == Pending(s, o) { }
    SamePending(s, s');
    RemovalRest(s, s', id);
  }

  lemma EvictRetireInv(c: Config, s: State, k: Key)
    requires Inv(s) && Enabled(c, s, EvictRetire(k))
    ensures Inv(Apply(c, s, EvictRetire(k)))
  {
    var s' := Apply(c, s, EvictRetire(k));
    RetireTable(s, s', k);
    SameAdmissionDeque(s, s');
    forall o ensures Pending(s', o) == Pending(s, o) { }
    SamePending(s, s');
    EvictRest(s, s', s.table[k]);
  }

  lemma EvictRest(s: State, s': State, id: Id)
    requires NoOrphan(s) && NoForgotten(s) && HandOk(s) && MaintOk(s) && IssuedOk(s)
    requires MayEvict(s) && KeepsPending(s, s') && RetiresOne(s.infos, s'.infos, id)
    requires forall i :: 0 <= i < |s.infos| && i != id ==> s'.infos[i] == s.infos[i]
    requires s'.hand == s.hand + {id} && s'.maint == s.maint && s'.issued == s.issued
    ensures NoOrphan(s') && NoForgotten(s') && HandOk(s') && MaintOk(s') && IssuedOk(s')
  {
  }

  lemma ReorderInv(c: Config, s: State, i: nat)
    requires Inv(s) && Enabled(c, s, Reorder(i))
    ensures Inv(Apply(c, s, Reorder(i)))
  {
    var s' := Apply(c, s, Reorder(i));
    MovedToBack(s.deque, i);
    ReorderDeque(s, s');
    forall o ensures Pending(s', o) == Pending(s, o) { }
    SamePending(s, s');
  }

  // ----- all steps -----------------------------------------------------------------------------

  lemma StepInv(c: Config, s: State, step: Step)
    requires Inv(s) && Enabled(c, s, step)
    ensures Inv(Apply(c, s, step))
  {
    hide Inv, Pending;
    match step
    case TableUpsert(t, k, w, ts) =>
      if k in s.table { UpdateInv(c, s, t, k, w, ts); } else { InsertInv(c, s, t, k, w, ts); }
    case TableRemove(t, k) => RemoveInv(c, s, t, k);
    case BeginNotify(t) => NotifyInv(c, s, step);
    case FinishNotify(t) => NotifyInv(c, s, step);
    case BeginSend(t) => NotifyInv(c, s, step);
    case TrySend(t) => TrySendInv(c, s, t);
    case ClearGuard(t) => EndOrRetryInv(c, s, step);
    case Cancel(t) => CancelInv(c, s, t);
    case RetryReceive(t) => EndOrRetryInv(c, s, step);
    case DrainRemove => DrainRemoveInv(c, s);
    case ReceiveUpsert => ReceiveUpsertInv(c, s);
    case CheckAlive => CheckInv(c, s, step);
    case ApplyUpdate => ApplyUpdateInv(c, s);
    case DecideAdmit => DecideAdmitInv(c, s);
    case RejectCandidate => RejectInv(c, s);
    case AdmitCheck => CheckInv(c, s, step);
    case AdmitSet => AdmitSetInv(c, s);
    case EvictRetire(k) => EvictRetireInv(c, s, k);
    case EvictFinalize(id) => EvictFinalizeInv(c, s, id);
    case Reorder(i) => ReorderInv(c, s, i);
  }

  lemma {:induction false} RunInv(c: Config, s0: State, steps: seq<Step>, s: State)
    requires Inv(s0) && Run(c, s0, steps, s)
    ensures Inv(s)
    decreases |steps|
  {
    if steps != [] {
      StepInv(c, s0, steps[0]);
      RunInv(c, Apply(c, s0, steps[0]), steps[1..], s);
    }
  }

  lemma ReachableInv(c: Config, s: State)
    requires Reachable(c, s)
    ensures Inv(s)
  {
    var s0, steps :| Init(s0) && Run(c, s0, steps, s);
    InitInv(s0);
    RunInv(c, s0, steps, s);
  }

  /** The op in maintenance has been issued, under its serial number, and is not drained. */
  lemma CurrentIsPending(s: State)
    requires Inv(s) && !s.maint.Free?
    ensures var op := s.maint.op; op.Upsert? && op.serial < |s.issued| && s.issued[op.serial] == op && op !in s.drained
  {
    var op := s.maint.op;
    assert ExactlyOnce(s) && MaintOk(s);
    hide Inv;
    assert Pending(s, op) >= 1;
    assert IsIssued(s.issued, op) == 1;
    CountedInLog(s.drained, op);
  }
}
