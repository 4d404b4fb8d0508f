/** What the write-log protocol guarantees in every reachable state. */
module WriteLogTheorems {
  import opened Common
  import opened PolicyRecord
  import opened WriteLog
  import opened WriteLogInvariant
  import opened WriteLogSteps

  // ----- places, spelled out ----------------------------------------------------------

  /** A client call, the interrupted channel or the write channel holds `op`. */
  ghost predicate HeldOutsideMaintenance(s: State, op: WriteOp) {
    || (exists t :: 0 <= t < |s.tasks| && Owed(s.tasks[t]) == Some(op))
    || (exists i :: 0 <= i < |s.interrupted| && s.interrupted[i].op == op)
    || op in s.channel
  }

  lemma {:induction false} CountedInTasks(tasks: seq<Task>, op: WriteOp) returns (t: nat)
    requires InTasks(tasks, op) > 0
    ensures t < |tasks| && Owed(tasks[t]) == Some(op)
  {
    if Owed(tasks[0]) == Some(op) {
      t := 0;
    } else {
      var u := CountedInTasks(tasks[1..], op);
      t := u + 1;
    }
  }

  lemma {:induction false} CountedInParked(ops: seq<InterruptedOp>, op: WriteOp) returns (i: nat)
    requires InParked(ops, op) > 0
    ensures i < |ops| && ops[i].op == op
  {
    if ops[0].op == op {
      i := 0;
    } else {
      var j := CountedInParked(ops[1..], op);
      i := j + 1;
    }
  }

  /** No permanent orphan: an entry that is admitted yet retired is either in the hands of
      the maintenance step that retired it, or its `Remove` op is still on the way. */
  lemma NoPermanentOrphan(c: Config, s: State, id: Id)
    requires Reachable(c, s) && id < |s.infos| && s.infos[id].admitted && s.infos[id].retired
    ensures id in s.hand
            || exists op: WriteOp :: HeldOutsideMaintenance(s, op) && op.Remove? && op.id == id
  {
    ReachableInv(c, s);
    if id !in s.hand {
      var op :| Pending(s, op) > 0 && op.Remove? && op.id == id;
      CountedInLog(s.channel, op);
      if InTasks(s.tasks, op) > 0 {
        var t := CountedInTasks(s.tasks, op);
      } else if InParked(s.interrupted, op) > 0 {
        var i := CountedInParked(s.interrupted, op);
      }
      assert HeldOutsideMaintenance(s, op);
    }
  }

  /** Exactly-once delivery: the op of the n-th table change is in exactly one of client
      calls, interrupted channel, write channel, maintenance and the drained log, and these
      places hold no op that no table change produced. */
  lemma DeliveredExactlyOnce(c: Config, s: State)
    requires Reachable(c, s)
    ensures forall n :: 0 <= n < |s.issued| ==>
      InTasks(s.tasks, s.issued[n]) + InParked(s.interrupted, s.issued[n])
      + InLog(s.channel, s.issued[n]) + InMaint(s.maint, s.issued[n])
      + InLog(s.drained, s.issued[n]) == 1
    ensures forall op :: op !in s.issued ==> Pending(s, op) + InLog(s.drained, op) == 0
  {
    ReachableInv(c, s);
    forall n | 0 <= n < |s.issued|
      ensures Pending(s, s.issued[n]) + InLog(s.drained, s.issued[n]) == 1
    {
      assert IsIssued(s.issued, s.issued[n]) == 1;
    }
  }

  // ----- quiescence ---------------------------------------------------------------------

  /** All logs are drained and no call is under way. */
  ghost predicate Quiescent(s: State) {
    && (forall t :: 0 <= t < |s.tasks| ==> s.tasks[t].pc.Idle?)
    && s.interrupted == [] && s.channel == [] && s.maint.Free? && s.hand == {}
  }

  /** Eventual consistency: once everything is drained, table and deque are in bijection
      and the entry count is their common size. */
  lemma ConsistentWhenQuiescent(c: Config, s: State)
    requires Reachable(c, s) && Quiescent(s)
    ensures forall k :: k in s.table ==> s.table[k] in s.deque
    ensures forall id :: id in s.deque ==>
              id < |s.infos| && s.infos[id].admitted && !s.infos[id].retired
              && s.infos[id].key in s.table && s.table[s.infos[id].key] == id
    ensures Distinct(s.deque) && s.entryCount == |s.deque| == |s.table|
  {
    ReachableInv(c, s);
    forall op ensures Pending(s, op) == 0 { NothingInIdle(s.tasks, op); }
    forall k | k in s.table ensures s.table[k] in s.deque {
      assert !UpsertPending(s, s.table[k], s.infos[s.table[k]].entryGen);
    }
    forall id | id in s.deque ensures !s.infos[id].retired {
      assert !RemovePending(s, id);
    }
    SameSize(s.table, s.deque, s.infos);
  }

  lemma {:induction false} SameSize(table: map<Key, Id>, deque: seq<Id>, infos: seq<EntryInfo>)
    requires Distinct(deque)
    requires forall id :: id in deque ==> id < |infos|
    requires forall k :: k in table ==> table[k] in deque && infos[table[k]].key == k
    requires forall id :: id in deque ==> infos[id].key in table && table[infos[id].key] == id
    ensures |table| == |deque|
  {
    if deque == [] {
      assert table == map[];
    } else {
      assert deque[0] in deque;
      var k := infos[deque[0]].key;
      assert |table| == |table - {k}| + 1 by {
        assert table.Keys == (table - {k}).Keys + {k};
      }
      assert forall id :: id in deque <==> id == deque[0] || id in deque[1..];
      SameSize(table - {k}, deque[1..], infos);
    }
  }

  /** The counter is the deque length at all times, so its decrement in `handle_remove`
      never underflows. */
  lemma EntryCountNeverUnderflows(c: Config, s: State, id: Id)
    requires Reachable(c, s) && id < |s.infos|
    ensures s.entryCount == |s.deque| && (s.infos[id].admitted ==> s.entryCount > 0)
    ensures HandleRemove(s, id).entryCount == s.entryCount - if s.infos[id].admitted then 1 else 0
  {
    ReachableInv(c, s);
  }

  /** The debug assertions of the maintenance code hold: an entry about to be admitted is
      not admitted yet, a drained `Remove` and an entry in hand are retired, and a table
      entry, the target of every `retire()`, is not. */
  lemma DebugAssertionsHold(c: Config, s: State)
    requires Reachable(c, s)
    ensures s.maint.Admitting? ==>
              s.maint.op.id < |s.infos| && !s.infos[s.maint.op.id].admitted
    ensures forall op :: op in s.channel && op.Remove? ==>
              op.id < |s.infos| && s.infos[op.id].retired
    ensures forall id :: id in s.hand ==> id < |s.infos| && s.infos[id].retired
    ensures forall k :: k in s.table ==> s.table[k] < |s.infos| && !s.infos[s.table[k]].retired
  {
    ReachableInv(c, s);
    forall op | op in s.channel && op.Remove? ensures op.id < |s.infos| && s.infos[op.id].retired {
      CountedInLog(s.channel, op);
      PendingIsIssued(s, op);
    }
  }

  // ----- settling ------------------------------------------------------------------------

  function TaskWork(task: Task): nat {
    match task.pc
    case Idle => 0
    case Sent => 1
    case Sending => 8
    case Notified => 9
    case Notifying => 10
    case Mutated => 11
  }

  function TasksWork(tasks: seq<Task>): nat {
    if tasks == [] then 0 else TaskWork(tasks[0]) + TasksWork(tasks[1..])
  }

  function MaintWork(m: Maint): nat {
    match m
    case Free => 0
    case Received(_) => 5
    case Checked(_) => 4
    case ToAdmit(_) => 3
    case Admitting(_) => 2
  }

  /** Upper bound on the steps left until every log is drained. */
  function Work(s: State): nat {
    TasksWork(s.tasks) + 12 * |s.interrupted| + 6 * |s.channel| + MaintWork(s.maint) + |s.hand|
  }

  lemma {:induction false} TasksWorkUpdate(tasks: seq<Task>, t: nat, task: Task)
    requires t < |tasks|
    ensures TasksWork(tasks[t := task]) == TasksWork(tasks) - TaskWork(tasks[t]) + TaskWork(task)
  {
    if t == 0 {
      assert tasks[t := task][1..] == tasks[1..];
    } else {
      assert tasks[t := task][1..] == tasks[1..][t - 1 := task];
      TasksWorkUpdate(tasks[1..], t - 1, task);
    }
  }

  /** Steps that only bring calls and logs to their end: everything but a new table change by a
      client, a cancellation, a new eviction and the reordering of the deque. */
  predicate Settling(step: Step) {
    !step.TableUpsert? && !step.TableRemove? && !step.Cancel? && !step.EvictRetire? && !step.Reorder?
  }

  /** The steps of client calls among them. */
  predicate ClientStep(step: Step) {
    step.BeginNotify? || step.FinishNotify? || step.BeginSend? || step.TrySend? || step.ClearGuard?
    || step.RetryReceive?
  }

  lemma ClientLowersWork(c: Config, s: State, step: Step)
    requires TasksOk(s) && Enabled(c, s, step) && ClientStep(step)
    ensures Work(Apply(c, s, step)) < Work(s)
  {
    var s', t := Apply(c, s, step), step.t;
    assert TaskOk(s.tasks[t]);
    assert s'.tasks == s.tasks[t := s'.tasks[t]];
    TasksWorkUpdate(s.tasks, t, s'.tasks[t]);
  }

  lemma MaintenanceLowersWork(c: Config, s: State, step: Step)
    requires Enabled(c, s, step) && Settling(step) && !ClientStep(step)
    ensures Work(Apply(c, s, step)) < Work(s)
  {
    hide TasksWork, WithPolicyGen, Without, Leave, Join, Retire;
    var s' := Apply(c, s, step);
    assert s'.tasks == s.tasks && s'.interrupted == s.interrupted;
    if step.EvictFinalize? {
      assert s'.channel == s.channel && s'.maint == s.maint && s'.hand == s.hand - {step.id};
      FewerInHand(s.hand, step.id);
    } else {
      assert s'.hand == s.hand;
      assert 6 * |s'.channel| + MaintWork(s'.maint) < 6 * |s.channel| + MaintWork(s.maint);
    }
  }

  lemma FewerInHand(hand: set<Id>, id: Id)
    requires id in hand
    ensures |hand - {id}| < |hand|
  {
  }

  /** Every settling step gets strictly nearer to the end. */
  lemma SettlingLowersWork(c: Config, s: State, step: Step)
    requires Inv(s) && Enabled(c, s, step) && Settling(step)
    ensures Work(Apply(c, s, step)) < Work(s)
  {
    assert TasksOk(s);
    hide Inv, TasksOk, Enabled, Apply, Work;
    if ClientStep(step) { ClientLowersWork(c, s, step); } else { MaintenanceLowersWork(c, s, step); }
  }

  /** So every run of settling steps, in whatever order they come, is bounded. */
  lemma {:induction false} SettlingRunsAreBounded(c: Config, s: State, steps: seq<Step>, s': State)
    requires Inv(s) && Run(c, s, steps, s') && forall step :: step in steps ==> Settling(step)
    ensures Inv(s') && |steps| + Work(s') <= Work(s)
    decreases |steps|
  {
    if steps != [] {
      hide Inv, Enabled, Apply, Work, Settling;
      StepInv(c, s, steps[0]);
      SettlingLowersWork(c, s, steps[0]);
      SettlingRunsAreBounded(c, Apply(c, s, steps[0]), steps[1..], s');
    }
  }

  /** And it can only stop where everything is drained. */
  lemma NothingToSettleIsQuiescent(c: Config, s: State)
    requires Inv(s) && |s.tasks| > 0 && forall step :: Settling(step) ==> !Enabled(c, s, step)
    ensures Quiescent(s)
  {
    hide Inv, Enabled, Settling, Quiescent;
    if !Quiescent(s) {
      var step := Progress(c, s);
      assert false;
    }
  }

  /** The theorem: orphans and forgotten entries are transient.  From every reachable state, every
      run of settling steps has at most `Work(s)` steps, and every one that cannot be continued
      ends with table, deque and count in agreement. */
  lemma EverySettlingRunHeals(c: Config, s: State, steps: seq<Step>, s': State)
    requires Reachable(c, s) && |s.tasks| > 0 && Run(c, s, steps, s')
    requires forall step :: step in steps ==> Settling(step)
    ensures |steps| <= Work(s)
    ensures (forall step :: Settling(step) ==> !Enabled(c, s', step)) ==>
      Quiescent(s') && s'.entryCount == |s'.table| && AdmittedIffAlive(s')
  {
    hide Inv, Enabled, Settling, Apply, Work, Quiescent;
    ReachableInv(c, s);
    SettlingRunsAreBounded(c, s, steps, s');
    RunKeepsTasks(c, s, steps, s');
    if forall step :: Settling(step) ==> !Enabled(c, s', step) {
      NothingToSettleIsQuiescent(c, s');
      var s0, before :| Init(s0) && Run(c, s0, before, s);
      RunAppend(c, s0, before, s, steps, s');
      QuiescentAgrees(c, s');
    }
  }

  ghost predicate AdmittedIffAlive(s: State) {
    forall id :: 0 <= id < |s.infos| ==> (s.infos[id].admitted <==> !s.infos[id].retired)
  }

  lemma QuiescentAgrees(c: Config, s: State)
    requires Reachable(c, s) && Quiescent(s)
    ensures s.entryCount == |s.table| && AdmittedIffAlive(s)
  {
    ReachableInv(c, s);
    ConsistentWhenQuiescent(c, s);
  }

  lemma {:induction false} RunKeepsTasks(c: Config, s: State, steps: seq<Step>, s': State)
    requires Run(c, s, steps, s')
    ensures |s'.tasks| == |s.tasks|
    decreases |steps|
  {
    if steps != [] {
      SameTasks(c, s, steps[0]);
      RunKeepsTasks(c, Apply(c, s, steps[0]), steps[1..], s');
    }
  }

  lemma ClientProgress(c: Config, s: State, t: nat) returns (step: Step)
    requires TasksOk(s) && t < |s.tasks| && !s.tasks[t].pc.Idle? && s.channel == []
    ensures Settling(step) && Enabled(c, s, step)
  {
    assert TaskOk(s.tasks[t]);
    match s.tasks[t].pc {
      case Notifying => step := FinishNotify(t);
      case Mutated => step := BeginSend(t);
      case Notified => step := BeginSend(t);
      case Sending => step := TrySend(t);
      case Sent => step := ClearGuard(t);
    }
  }

  lemma UpsertProgress(c: Config, s: State) returns (step: Step)
    requires MaintOk(s) && !s.maint.Free? && s.hand == {}
    ensures Settling(step) && Enabled(c, s, step)
  {
    var op := s.maint.op;
    match s.maint
    case Received(_) => step := CheckAlive;
    case Checked(_) =>
      if s.infos[op.id].admitted {
        step := ApplyUpdate;
      } else if HasEnoughCapacity(c, s, op.newWeight) || op.newWeight <= c.maxCapacity.value {
        step := DecideAdmit;
      } else {
        step := RejectCandidate;
      }
    case ToAdmit(_) => step := AdmitCheck;
    case Admitting(_) => step := AdmitSet;
  }

  /** While anything is left to drain, a settling step is enabled. */
  lemma Progress(c: Config, s: State) returns (step: Step)
    requires Inv(s) && !Quiescent(s) && |s.tasks| > 0
    ensures Settling(step) && Enabled(c, s, step)
  {
    hide ExactlyOnce, NoOrphan, NoForgotten, TableOk, DequeOk, Distinct;
    if s.hand != {} {
      var id :| id in s.hand;
      step := EvictFinalize(id);
    } else if !s.maint.Free? {
      step := UpsertProgress(c, s);
    } else if s.channel != [] {
      PendingIsIssued(s, s.channel[0]);
      step := if s.channel[0].Remove? then DrainRemove else ReceiveUpsert;
    } else if t :| 0 <= t < |s.tasks| && !s.tasks[t].pc.Idle? {
      step := ClientProgress(c, s, t);
    } else {
      assert TaskOk(s.tasks[0]);
      step := RetryReceive(0);
    }
  }

  lemma SameTasks(c: Config, s: State, step: Step)
    requires Enabled(c, s, step)
    ensures |Apply(c, s, step).tasks| == |s.tasks|
  {
  }

  /** Such runs to the end exist: settling steps can be taken until everything is drained. */
  lemma {:induction false} Settles(c: Config, s: State) returns (steps: seq<Step>, s': State)
    requires Inv(s) && |s.tasks| > 0
    ensures Run(c, s, steps, s') && Inv(s') && Quiescent(s') && |steps| <= Work(s)
    ensures forall step :: step in steps ==> Settling(step)
    decreases Work(s)
  {
    hide Inv, Quiescent, Enabled, Settling, Work;
    if Quiescent(s) {
      steps, s' := [], s;
    } else {
      var step := Progress(c, s);
      StepInv(c, s, step);
      SettlingLowersWork(c, s, step);
      var next := Apply(c, s, step);
      SameTasks(c, s, step);
      var rest;
      rest, s' := Settles(c, next);
      steps := [step] + rest;
      assert steps[1..] == rest;
    }
  }

  lemma {:induction false} RunAppend(c: Config, s0: State, a: seq<Step>, s1: State, b: seq<Step>, s2: State)
    requires Run(c, s0, a, s1) && Run(c, s1, b, s2)
    ensures Run(c, s0, a + b, s2)
    decreases |a|
  {
    if a == [] {
      assert a + b == b;
    } else {
      assert (a + b)[1..] == a[1..] + b;
      RunAppend(c, Apply(c, s0, a[0]), a[1..], s1, b, s2);
    }
  }

  lemma EveryRunCanSettle(c: Config, s: State) returns (steps: seq<Step>, s': State)
    requires Reachable(c, s) && |s.tasks| > 0
    ensures Run(c, s, steps, s') && Reachable(c, s') && Quiescent(s')
    ensures forall step :: step in steps ==> Settling(step)
    ensures s'.entryCount == |s'.table| && AdmittedIffAlive(s')
  {
    hide Inv, Quiescent, Settling, Work;
    ReachableInv(c, s);
    steps, s' := Settles(c, s);
    var s0, before :| Init(s0) && Run(c, s0, before, s);
    RunAppend(c, s0, before, s, steps, s');
    QuiescentAgrees(c, s');
  }
}
