/** Where the ops of the write-log protocol are, and the invariant that ties the places to
    the table, the records and the deque. */
module WriteLogInvariant {
  import opened Common
  import opened PolicyRecord
  import opened WriteLog

  // ----- where an op is ------------------------------------------------------------

  /** The op a client call still has to deliver.  A call that has sent its op keeps a copy
      in its guard until it clears it, but no longer owes it. */
  function Owed(task: Task): Option<WriteOp> {
    match task.pc
    case Idle => None
    case Mutated => task.op
    case Notified => task.op
    case Notifying => task.guard.op
    case Sending => task.guard.op
    case Sent => None
  }

  function Is(held: Option<WriteOp>, op: WriteOp): nat {
    if held == Some(op) then 1 else 0
  }

  function InTasks(tasks: seq<Task>, op: WriteOp): nat {
    if tasks == [] then 0 else Is(Owed(tasks[0]), op) + InTasks(tasks[1..], op)
  }

  function InParked(ops: seq<InterruptedOp>, op: WriteOp): nat {
    if ops == [] then 0 else Is(Some(ops[0].op), op) + InParked(ops[1..], op)
  }

  function InLog(ops: seq<WriteOp>, op: WriteOp): nat {
    if ops == [] then 0 else Is(Some(ops[0]), op) + InLog(ops[1..], op)
  }

  function InMaint(m: Maint, op: WriteOp): nat {
    if m.Free? then 0 else Is(Some(m.op), op)
  }

  /** How many places hold `op` undelivered. */
  function Pending(s: State, op: WriteOp): nat {
    InTasks(s.tasks, op) + InParked(s.interrupted, op) + InLog(s.channel, op) + InMaint(s.maint, op)
  }

  /** 1 if the history contains `op`, at its own serial number. */
  function IsIssued(issued: seq<WriteOp>, op: WriteOp): nat {
    if op.serial < |issued| && issued[op.serial] == op then 1 else 0
  }

  lemma {:induction false} InTasksUpdate(tasks: seq<Task>, t: nat, task: Task, op: WriteOp)
    requires t < |tasks|
    ensures InTasks(tasks[t := task], op)
         == InTasks(tasks, op) - Is(Owed(tasks[t]), op) + Is(Owed(task), op)
  {
    if t == 0 {
      assert tasks[t := task][1..] == tasks[1..];
    } else {
      assert tasks[t := task][1..] == tasks[1..][t - 1 := task];
      InTasksUpdate(tasks[1..], t - 1, task, op);
    }
  }

  lemma {:induction false} InParkedAppend(a: seq<InterruptedOp>, b: seq<InterruptedOp>, op: WriteOp)
    ensures InParked(a + b, op) == InParked(a, op) + InParked(b, op)
  {
    if a == [] {
      assert a + b == b;
    } else {
      assert (a + b)[1..] == a[1..] + b;
      InParkedAppend(a[1..], b, op);
    }
  }

  lemma {:induction false} InLogAppend(a: seq<WriteOp>, x: WriteOp, op: WriteOp)
    ensures InLog(a + [x], op) == InLog(a, op) + Is(Some(x), op)
  {
    if a == [] {
      assert a + [x] == [x];
    } else {
      assert (a + [x])[1..] == a[1..] + [x];
      InLogAppend(a[1..], x, op);
    }
  }

  lemma {:induction false} CountedInLog(ops: seq<WriteOp>, op: WriteOp)
    ensures InLog(ops, op) > 0 <==> op in ops
  {
    if ops != [] {
      CountedInLog(ops[1..], op);
      assert op in ops <==> op == ops[0] || op in ops[1..];
    }
  }

  // ----- the invariant -----------------------------------------------------------------

  /** Local variable and guard of a call agree with where it stands. */
  ghost predicate TaskOk(task: Task) {
    match task.pc
    case Idle => task == IDLE_TASK
    case Mutated => task.op.Some? && task.guard == EMPTY_GUARD && !task.retrying
    case Notified => task.op.Some? && task.guard == EMPTY_GUARD && !task.retrying
    case Notifying => task.guard.op.Some? && task.guard.future
    case Sending => task.op.Some? && task.guard == CancelGuard(false, task.op)
    case Sent => task.op.Some? && task.guard == CancelGuard(false, task.op)
  }

  ghost predicate TasksOk(s: State) {
    forall t :: 0 <= t < |s.tasks| ==> TaskOk(s.tasks[t])
  }

  /** A record is alive exactly while the table maps its key to it. */
  ghost predicate TableOk(s: State) {
    && (forall k :: k in s.table ==>
          s.table[k] < |s.infos| && s.infos[s.table[k]].key == k && !s.infos[s.table[k]].retired)
    && (forall id :: 0 <= id < |s.infos| && !s.infos[id].retired ==>
          s.infos[id].key in s.table && s.table[s.infos[id].key] == id)
  }

  /** The history numbers the table changes; a `Remove` was issued by the retirement of its
      record, and is the only one for that record. */
  ghost predicate IssuedOk(s: State) {
    && (forall i :: 0 <= i < |s.issued| ==>
          s.issued[i].serial == i && s.issued[i].id < |s.infos|)
    && (forall i :: 0 <= i < |s.issued| && s.issued[i].Remove? ==>
          s.infos[s.issued[i].id].retired && s.issued[i].id !in s.hand)
    && (forall i, j :: 0 <= i < j < |s.issued| && s.issued[i].Remove? && s.issued[j].Remove? ==>
          s.issued[i].id != s.issued[j].id)
  }

  /** Exactly-once delivery: the op of every table change is in exactly one place, counting
      the completely handled ops as one of the places, and no other op is anywhere. */
  ghost predicate ExactlyOnce(s: State) {
    forall op :: Pending(s, op) + InLog(s.drained, op) == IsIssued(s.issued, op)
  }

  /** The deque holds exactly the admitted records, once each, and is counted. */
  ghost predicate DequeOk(s: State) {
    && Distinct(s.deque)
    && (forall id :: id in s.deque ==> id < |s.infos|)
    && (forall id :: 0 <= id < |s.infos| ==> (s.infos[id].admitted <==> id in s.deque))
    && s.entryCount == |s.deque|
  }

  ghost predicate RemovePending(s: State, id: Id) {
    exists op :: Pending(s, op) > 0 && op.Remove? && op.id == id
  }

  ghost predicate UpsertPending(s: State, id: Id, gen: nat) {
    exists op :: Pending(s, op) > 0 && op.Upsert? && op.id == id && op.gen == gen
  }

  /** No permanent orphan: whoever retired an admitted record still owes its removal. */
  ghost predicate NoOrphan(s: State) {
    forall id :: 0 <= id < |s.infos| && s.infos[id].admitted && s.infos[id].retired ==>
      id in s.hand || RemovePending(s, id)
  }

  /** A live record outside the deque has an upsert under way with its current generation. */
  ghost predicate NoForgotten(s: State) {
    forall id :: 0 <= id < |s.infos| && !s.infos[id].admitted && !s.infos[id].retired ==>
      UpsertPending(s, id, s.infos[id].entryGen)
  }

  ghost predicate HandOk(s: State) {
    && (forall id :: id in s.hand ==> id < |s.infos| && s.infos[id].retired)
    && (s.hand != {} ==> MayEvict(s))
  }

  ghost predicate MaintOk(s: State) {
    && (!s.maint.Free? ==> s.maint.op.Upsert? && s.maint.op.id < |s.infos|)
    && (s.maint.ToAdmit? ==> !s.infos[s.maint.op.id].admitted)
    && (s.maint.Admitting? ==>
          && !s.infos[s.maint.op.id].admitted
          && (s.infos[s.maint.op.id].retired ==> RemovePending(s, s.maint.op.id)))
  }

  ghost predicate Inv(s: State) {
    && TasksOk(s) && TableOk(s) && IssuedOk(s) && ExactlyOnce(s) && DequeOk(s)
    && NoOrphan(s) && NoForgotten(s) && HandOk(s) && MaintOk(s)
  }

  lemma InitInv(s: State)
    requires Init(s)
    ensures Inv(s)
  {
    forall op ensures InTasks(s.tasks, op) == 0 { NothingInIdle(s.tasks, op); }
  }

  lemma {:induction false} NothingInIdle(tasks: seq<Task>, op: WriteOp)
    requires forall t :: 0 <= t < |tasks| ==> tasks[t].pc.Idle?
    ensures InTasks(tasks, op) == 0
  {
    if tasks != [] { NothingInIdle(tasks[1..], op); }
  }
}
