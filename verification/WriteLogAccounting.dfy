/** Weight accounting without a weigher: how far `weighted_size` can drift from
    `entry_count`, and when it cannot. */
module WriteLogAccounting {
  import opened Common
  import opened PolicyRecord
  import opened WriteLog
  import opened WriteLogInvariant
  import opened WriteLogSteps
  import opened WriteLogRuns

  /** Without a weigher every value weighs 1. */
  predicate UnitStep(step: Step) {
    step.TableUpsert? ==> step.weight == 1
  }

  ghost predicate UnitOps(s: State) {
    && (forall i :: 0 <= i < |s.infos| ==> s.infos[i].weight == 1)
    && (forall i :: 0 <= i < |s.issued| && s.issued[i].Upsert? ==>
          s.issued[i].newWeight == 1 && s.issued[i].oldWeight <= 1)
  }

  predicate IsInsert(op: WriteOp) {
    op.Upsert? && op.oldWeight == 0
  }

  /** The insert of a record is its first op. */
  ghost predicate InsertFirst(s: State) {
    forall i, j :: 0 <= i < j < |s.issued| && s.issued[i].id == s.issued[j].id ==>
      !IsInsert(s.issued[j])
  }

  /** Some op of record `id` has been drained. */
  ghost predicate HasDrained(s: State, id: Id) {
    exists d :: d in s.drained && d.id == id
  }

  /** Ops of one record were drained in the order of their table changes. */
  ghost predicate InTableOrder(ops: seq<WriteOp>) {
    forall i, j :: 0 <= i < j < |ops| && ops[i].id == ops[j].id ==> ops[i].serial < ops[j].serial
  }

  ghost predicate Accounted(s: State) {
    && UnitOps(s) && InsertFirst(s)
    && (forall id :: 0 <= id < |s.infos| && s.infos[id].admitted ==> HasDrained(s, id))
    && s.weightedSize == s.entryCount + s.late
    && s.entryCount + s.late <= |s.drained|
    && (s.late > 0 ==> !InTableOrder(s.drained))
  }

  /** The op in maintenance is an issued one, and has unit weights. */
  lemma CurrentOp(s: State)
    requires Inv(s) && UnitOps(s) && !s.maint.Free?
    ensures var op := s.maint.op;
      && op.serial < |s.issued| && s.issued[op.serial] == op
      && op.Upsert? && op.newWeight == 1 && op.oldWeight <= 1
      && op !in s.drained
  {
    CurrentIsPending(s);
  }

  /** Draining an insert after its record was admitted is an order violation. */
  lemma LateInsertIsDisorder(s: State)
    requires Inv(s) && Accounted(s) && !s.maint.Free? && IsInsert(s.maint.op)
    requires s.infos[s.maint.op.id].admitted
    ensures !InTableOrder(s.drained + [s.maint.op])
  {
    var op := s.maint.op;
    CurrentOp(s);
    var d :| d in s.drained && d.id == op.id;
    CountedInLog(s.drained, d);
    assert Pending(s, d) + InLog(s.drained, d) == IsIssued(s.issued, d);
    var i :| 0 <= i < |s.drained| && s.drained[i] == d;
    var ops := s.drained + [op];
    assert ops[i] == d && ops[|s.drained|] == op;
  }

  lemma DisorderPersists(ops: seq<WriteOp>, op: WriteOp)
    requires !InTableOrder(ops)
    ensures !InTableOrder(ops + [op])
  {
    var i, j :| 0 <= i < j < |ops| && ops[i].id == ops[j].id && ops[i].serial >= ops[j].serial;
    assert (ops + [op])[i] == ops[i] && (ops + [op])[j] == ops[j];
  }

  /** Steps that leave counters, deque and drained ops alone. */
  lemma QuietStep(s: State, s': State)
    requires Accounted(s) && UnitOps(s') && InsertFirst(s')
    requires s'.drained == s.drained && s'.late == s.late
    requires s'.weightedSize == s.weightedSize && s'.entryCount == s.entryCount
    requires |s.infos| <= |s'.infos|
    requires forall id :: 0 <= id < |s.infos| ==> s'.infos[id].admitted == s.infos[id].admitted
    requires forall id :: |s.infos| <= id < |s'.infos| ==> !s'.infos[id].admitted
    ensures Accounted(s')
  {
  }

  lemma UpsertAccounted(c: Config, s: State, t: nat, k: Key, ts: nat)
    requires Inv(s) && Accounted(s) && Enabled(c, s, TableUpsert(t, k, 1, ts))
    ensures Accounted(UpsertTable(s, t, k, 1, ts))
  {
    var s' := UpsertTable(s, t, k, 1, ts);
    QuietStep(s, s');
  }

  lemma RemoveAccounted(c: Config, s: State, t: nat, k: Key)
    requires Inv(s) && Accounted(s) && Enabled(c, s, TableRemove(t, k))
    ensures Accounted(RemoveFromTable(s, t, k))
  {
    hide ExactlyOnce, NoOrphan, NoForgotten, DequeOk, MaintOk, TasksOk, Distinct, InTableOrder, HasDrained;
    QuietStep(s, RemoveFromTable(s, t, k));
  }

  /** `op` is appended to the drained ops and the counters are adjusted. */
  lemma DrainedStep(s: State, s': State, op: WriteOp)
    requires Accounted(s) && s'.issued == s.issued && s'.drained == s.drained + [op]
    requires |s'.infos| == |s.infos|
    requires forall id :: 0 <= id < |s.infos| ==> s'.infos[id].weight == 1
    requires forall id :: 0 <= id < |s.infos| && id != op.id && s'.infos[id].admitted ==>
               s.infos[id].admitted
    requires s'.weightedSize == s'.entryCount + s'.late
    requires s'.entryCount + s'.late <= s.entryCount + s.late + 1
    requires s.late <= s'.late
    requires s'.late > s.late ==> !InTableOrder(s'.drained)
    ensures Accounted(s')
  {
    if s.late > 0 { DisorderPersists(s.drained, op); }
    forall id | 0 <= id < |s'.infos| && s'.infos[id].admitted ensures HasDrained(s', id) {
      if id == op.id {
        assert op in s'.drained;
      } else {
        var d :| d in s.drained && d.id == id;
        assert d in s'.drained;
      }
    }
  }

  lemma ApplyUpdateAccounted(c: Config, s: State)
    requires Inv(s) && Accounted(s) && Enabled(c, s, ApplyUpdate) && |s.drained| < U64_MAX
    ensures Accounted(Apply(c, s, ApplyUpdate))
  {
    var s', op := Apply(c, s, ApplyUpdate), s.maint.op;
    CurrentOp(s);
    assert op.id in s.deque;
    if IsInsert(op) { LateInsertIsDisorder(s); }
    DrainedStep(s, s', op);
  }

  lemma AdmitSetAccounted(c: Config, s: State)
    requires Inv(s) && Accounted(s) && Enabled(c, s, AdmitSet) && |s.drained| < U64_MAX
    ensures Accounted(Apply(c, s, AdmitSet))
  {
    CurrentOp(s);
    DrainedStep(s, Apply(c, s, AdmitSet), s.maint.op);
  }

  /** Removing an admitted record subtracts 1 from both counters, without saturation. */
  lemma HandleRemoveAccounted(s: State, id: Id)
    requires DequeOk(s) && UnitOps(s) && s.weightedSize == s.entryCount + s.late && id < |s.infos|
    ensures var r := HandleRemove(s, id);
      && r.weightedSize == r.entryCount + r.late && r.late == s.late
      && r.entryCount <= s.entryCount
      && r.drained == s.drained && r.issued == s.issued
  {
  }

  lemma DrainRemoveAccounted(c: Config, s: State)
    requires Inv(s) && Accounted(s) && Enabled(c, s, DrainRemove)
    ensures Accounted(Apply(c, s, DrainRemove))
  {
    HandleRemoveAccounted(s, s.channel[0].id);
    DrainedStep(s, Apply(c, s, DrainRemove), s.channel[0]);
  }

  lemma EvictFinalizeAccounted(c: Config, s: State, id: Id)
    requires Inv(s) && Accounted(s) && Enabled(c, s, EvictFinalize(id))
    ensures Accounted(Apply(c, s, EvictFinalize(id)))
  {
    var s' := Apply(c, s, EvictFinalize(id));
    HandleRemoveAccounted(s, id);
    forall x | 0 <= x < |s'.infos| && s'.infos[x].admitted ensures HasDrained(s', x) {
      assert HasDrained(s, x);
    }
  }

  lemma CheckAccounted(c: Config, s: State, step: Step)
    requires Inv(s) && Accounted(s) && Enabled(c, s, step)
    requires step.CheckAlive? || step.AdmitCheck? || step.RejectCandidate?
    ensures Accounted(Apply(c, s, step))
  {
    hide ExactlyOnce, NoOrphan, NoForgotten, DequeOk, IssuedOk, TasksOk, Distinct, InTableOrder, HasDrained;
    var s' := Apply(c, s, step);
    if s'.maint.Free? {
      DrainedStep(s, s', s.maint.op);
    } else {
      QuietStep(s, s');
    }
  }

  predicate CountsNothing(step: Step) {
    step.BeginNotify? || step.FinishNotify? || step.BeginSend? || step.TrySend? || step.ClearGuard?
    || step.Cancel? || step.RetryReceive? || step.ReceiveUpsert? || step.DecideAdmit?
    || step.EvictRetire? || step.Reorder?
  }

  lemma CarryAccounted(c: Config, s: State, step: Step)
    requires Accounted(s) && Enabled(c, s, step) && CountsNothing(step)
    ensures Accounted(Apply(c, s, step))
  {
    var s' := Apply(c, s, step);
    assert s'.issued == s.issued && s'.drained == s.drained;
    QuietStep(s, s');
  }

  lemma StepAccounted(c: Config, s: State, step: Step)
    requires Inv(s) && Accounted(s) && Enabled(c, s, step) && UnitStep(step)
    requires |Apply(c, s, step).drained| <= U64_MAX
    ensures Accounted(Apply(c, s, step))
  {
    hide Inv, Accounted;
    match step
    case TableUpsert(t, k, w, ts) => UpsertAccounted(c, s, t, k, ts);
    case TableRemove(t, k) => RemoveAccounted(c, s, t, k);
    case DrainRemove => DrainRemoveAccounted(c, s);
    case CheckAlive => CheckAccounted(c, s, step);
    case AdmitCheck => CheckAccounted(c, s, step);
    case RejectCandidate => CheckAccounted(c, s, step);
    case ApplyUpdate => ApplyUpdateAccounted(c, s);
    case AdmitSet => AdmitSetAccounted(c, s);
    case EvictFinalize(id) => EvictFinalizeAccounted(c, s, id);
    case _ => CarryAccounted(c, s, step);
  }

  lemma {:induction false} DrainedGrows(c: Config, s0: State, steps: seq<Step>, s: State)
    requires Run(c, s0, steps, s)
    ensures |s0.drained| <= |s.drained|
    decreases |steps|
  {
    if steps != [] {
      DrainedGrows(c, Apply(c, s0, steps[0]), steps[1..], s);
    }
  }

  lemma {:induction false} RunAccounted(c: Config, s0: State, steps: seq<Step>, s: State)
    requires Inv(s0) && Accounted(s0) && Run(c, s0, steps, s) && |s.drained| <= U64_MAX
    requires forall i :: 0 <= i < |steps| ==> UnitStep(steps[i])
    ensures Accounted(s)
    decreases |steps|
  {
    if steps != [] {
      DrainedGrows(c, Apply(c, s0, steps[0]), steps[1..], s);
      StepAccounted(c, s0, steps[0]);
      StepInv(c, s0, steps[0]);
      RunAccounted(c, Apply(c, s0, steps[0]), steps[1..], s);
    }
  }

  /** Over every run without a weigher that drains fewer than 2^64 ops: `weighted_size`
      exceeds `entry_count` by exactly the number of inserts drained after their entry was
      already admitted, so the two are equal if and only if there was none; and there is
      none when the ops of each entry are drained in table order. */
  lemma UnitWeightAccounting(c: Config, s0: State, steps: seq<Step>, s: State)
    requires Init(s0) && Run(c, s0, steps, s) && |s.drained| <= U64_MAX
    requires forall i :: 0 <= i < |steps| ==> UnitStep(steps[i])
    ensures s.weightedSize == s.entryCount + s.late
    ensures s.weightedSize == s.entryCount <==> s.late == 0
    ensures InTableOrder(s.drained) ==> s.weightedSize == s.entryCount
  {
    InitInv(s0);
    RunAccounted(c, s0, steps, s);
  }

  // ----- the order of delivery matters ---------------------------------------------------

  /** The state in which a client's update of a fresh entry overtook the insert and was
      admitted, while the insert is still with its client. */
  function Overtaken(): State {
    var ins, upd := Upsert(0, 0, 1, 0, 1), Upsert(1, 0, 2, 1, 1);
    State(map[0 := 0], [EntryInfo(0, true, false, 2, 2, 1, Some(0))],
          [Held(ins), SentTask(upd)], [], [], Free, {}, [0], 1, 1, [ins, upd], [upd], 0)
  }

  lemma OvertakenReached(c: Config) returns (s0: State, steps: seq<Step>)
    requires c.maxCapacity.None?
    ensures Init(s0) && Run(c, s0, steps, Overtaken())
    ensures forall i :: 0 <= i < |steps| ==> UnitStep(steps[i])
  {
    var s;
    s0, steps, s := BothWritten(c);
    var upd := Upsert(1, 0, 2, 1, 1);
    steps := SendHeld(c, s0, steps, s, 1, upd);
    var sent := s.(tasks := s.tasks[1 := SentTask(upd)], channel := [upd]);
    assert s.channel + [upd] == [upd];
    var s', steps' := AdmitHead(c, s0, steps, sent);
    steps := steps';
    assert s'.tasks == Overtaken().tasks;
    assert s' == Overtaken();
  }

  /** One client inserts an entry, a second one updates it; neither op is sent yet. */
  lemma BothWritten(c: Config) returns (s0: State, steps: seq<Step>, s: State)
    ensures Init(s0) && Run(c, s0, steps, s)
    ensures forall i :: 0 <= i < |steps| ==> UnitStep(steps[i])
    ensures var ins, upd := Upsert(0, 0, 1, 0, 1), Upsert(1, 0, 2, 1, 1);
      s == State(map[0 := 0], [EntryInfo(0, false, false, 2, 0, 1, Some(0))], [Held(ins), Held(upd)],
                 [], [], Free, {}, [], 0, 0, [ins, upd], [], 0)
  {
    s0 := State(map[], [], [IDLE_TASK, IDLE_TASK], [], [], Free, {}, [], 0, 0, [], [], 0);
    var a, b := TableUpsert(0, 0, 1, 0), TableUpsert(1, 0, 1, 0);
    RunStep(c, s0, [], s0, a);
    var s1 := Apply(c, s0, a);
    RunStep(c, s0, [] + [a], s1, b);
    steps := [] + [a] + [b];
    s := Apply(c, s1, b);
  }

  /** Without ordered delivery `weighted_size` is not exact: a run with unit weights in which
      an update overtakes the insert of the same entry ends with one entry of counted
      weight 2. */
  lemma OvertakingBreaksAccounting(c: Config) returns (s0: State, steps: seq<Step>, s: State)
    requires c.maxCapacity.None?
    ensures Init(s0) && Run(c, s0, steps, s) && forall i :: 0 <= i < |steps| ==> UnitStep(steps[i])
    ensures s.entryCount == 1 && s.weightedSize == 2
  {
    s0, steps := OvertakenReached(c);
    var a, ins := Overtaken(), Upsert(0, 0, 1, 0, 1);
    steps := SendHeld(c, s0, steps, a, 0, ins);
    var d := a.(tasks := a.tasks[0 := SentTask(ins)], channel := [ins]);
    assert a.channel + [ins] == [ins];
    s, steps := UpdateHead(c, s0, steps, d);
  }
}
