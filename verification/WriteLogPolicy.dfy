/** The states the policy loops start from are those the write-log protocol produces: in every
    reachable state without a weigher, unless the generation of a record has wrapped around, the
    policy state is consistent and the operation being drained is well formed. */
module WriteLogPolicy {
  import opened Common
  import opened PolicyRecord
  import opened WriteLog
  import opened WriteLogInvariant
  import opened WriteLogSteps
  import opened WriteLogAccounting
  import Policy = EvictionState
  import Upsert

  // ----- generations count changes ---------------------------------------------------------------

  function Changes(ops: seq<WriteOp>, id: Id): nat {
    if ops == [] then 0 else Changes(ops[..|ops| - 1], id) + if ops[|ops| - 1].id == id then 1 else 0
  }

  ghost predicate OpGens(s: State) {
    forall n :: 0 <= n < |s.issued| ==>
      s.issued[n].gen == Changes(s.issued[..n + 1], s.issued[n].id) % U16_MOD
  }

  ghost predicate EntryGens(s: State) {
    forall id :: 0 <= id < |s.infos| ==> s.infos[id].entryGen == Changes(s.issued, id) % U16_MOD
  }

  /** The policy's generation is that of an operation it has drained. */
  ghost predicate PolicyGens(s: State) {
    forall id :: 0 <= id < |s.infos| && s.infos[id].policyGen != 0 ==>
      DrainedGen(s.drained, id, s.infos[id].policyGen)
  }

  ghost predicate DrainedGen(drained: seq<WriteOp>, id: Id, gen: nat) {
    exists d :: d in drained && d.id == id && d.gen == gen
  }

  /** A removal is the last change of its record. */
  ghost predicate RemoveLast(s: State) {
    forall n, m :: 0 <= n < m < |s.issued| && s.issued[n].Remove? ==> s.issued[m].id != s.issued[n].id
  }

  ghost predicate GensOk(s: State) {
    OpGens(s) && EntryGens(s) && PolicyGens(s) && RemoveLast(s)
  }

  lemma ChangesNext(ops: seq<WriteOp>, op: WriteOp, id: Id)
    ensures Changes(ops + [op], id) == Changes(ops, id) + if op.id == id then 1 else 0
  {
    assert (ops + [op])[..|ops|] == ops;
  }

  lemma {:induction false} ChangesPrefix(ops: seq<WriteOp>, n: nat, id: Id)
    requires n <= |ops|
    ensures Changes(ops[..n], id) <= Changes(ops, id)
    ensures (exists m :: n <= m < |ops| && ops[m].id == id) ==> Changes(ops[..n], id) < Changes(ops, id)
    ensures (forall m :: n <= m < |ops| ==> ops[m].id != id) ==> Changes(ops[..n], id) == Changes(ops, id)
    decreases |ops|
  {
    if n < |ops| {
      var front := ops[..|ops| - 1];
      assert front[..n] == ops[..n];
      ChangesPrefix(front, n, id);
    } else {
      assert ops[..n] == ops;
    }
  }

  /** A step that issues nothing: policy generations move only to that of the op just drained. */
  ghost predicate DrainsOnly(s: State, s': State) {
    && s'.issued == s.issued && |s'.infos| == |s.infos|
    && (forall id :: 0 <= id < |s.infos| ==> s'.infos[id].entryGen == s.infos[id].entryGen)
    && (forall d :: d in s.drained ==> d in s'.drained)
    && (forall id :: 0 <= id < |s.infos| && s'.infos[id].policyGen != s.infos[id].policyGen ==>
          DrainedGen(s'.drained, id, s'.infos[id].policyGen))
  }

  lemma DrainsGens(s: State, s': State)
    requires GensOk(s) && DrainsOnly(s, s')
    ensures GensOk(s')
  {
    hide Changes;
    forall id | 0 <= id < |s'.infos| && s'.infos[id].policyGen != 0
      ensures DrainedGen(s'.drained, id, s'.infos[id].policyGen)
    {
      if s'.infos[id].policyGen == s.infos[id].policyGen {
        assert DrainedGen(s.drained, id, s.infos[id].policyGen);
      }
    }
  }

  predicate Issuing(step: Step) {
    step.TableUpsert? || step.TableRemove?
  }

  lemma ClientDrains(c: Config, s: State, step: Step)
    requires Enabled(c, s, step) && !Issuing(step) && !MayDrain(step)
    ensures DrainsOnly(s, Apply(c, s, step))
  {
  }

  predicate MayDrain(step: Step) {
    step.DrainRemove? || step.CheckAlive? || step.ApplyUpdate? || step.RejectCandidate? || step.AdmitCheck?
    || step.AdmitSet?
  }

  /** How an op is finished: some records change, but generations only by settling its own. */
  ghost predicate Finishes(s: State, s': State, op: WriteOp) {
    && s'.issued == s.issued && |s'.infos| == |s.infos| && s'.drained == s.drained + [op]
    && (forall id :: 0 <= id < |s.infos| ==> s'.infos[id].entryGen == s.infos[id].entryGen)
    && (forall id :: 0 <= id < |s.infos| && id != op.id ==> s'.infos[id].policyGen == s.infos[id].policyGen)
    && (op.id < |s.infos| ==>
          s'.infos[op.id].policyGen in {s.infos[op.id].policyGen, SetPolicyGen(s.infos[op.id].policyGen, op.gen)})
  }

  lemma FinishesDrains(s: State, s': State, op: WriteOp)
    requires Finishes(s, s', op)
    ensures DrainsOnly(s, s')
  {
    hide SetPolicyGen;
    assert op in s'.drained;
    if op.id < |s.infos| { GenIsOneOf(s.infos[op.id].policyGen, op.gen); }
  }

  lemma MaintenanceDrains(c: Config, s: State, step: Step)
    requires Enabled(c, s, step) && MayDrain(step)
    ensures DrainsOnly(s, Apply(c, s, step))
  {
    hide Without, Leave, Join, SetPolicyGen, DrainedGen;
    var s' := Apply(c, s, step);
    if s'.drained != s.drained {
      FinishesDrains(s, s', if step.DrainRemove? then s.channel[0] else s.maint.op);
    }
  }

  lemma GenIsOneOf(current: nat, value: nat)
    ensures SetPolicyGen(current, value) == current || SetPolicyGen(current, value) == value
  {
  }

  /** The op a step issues, and the record it is about. */
  ghost predicate IssuesOne(s: State, s': State, op: WriteOp) {
    && s'.issued == s.issued + [op] && s'.drained == s.drained && |s.infos| <= |s'.infos| <= |s.infos| + 1
    && op.id < |s'.infos| && op.gen == s'.infos[op.id].entryGen
    && op.gen == ((if op.id < |s.infos| then s.infos[op.id].entryGen else 0) + 1) % U16_MOD
    && (op.id < |s.infos| ==> !s.infos[op.id].retired)
    && (forall id :: 0 <= id < |s.infos| && id != op.id ==> s'.infos[id].entryGen == s.infos[id].entryGen)
    && (forall id :: 0 <= id < |s.infos| ==> s'.infos[id].policyGen == s.infos[id].policyGen)
    && (|s.infos| < |s'.infos| ==> op.id == |s.infos| && s'.infos[op.id].policyGen == 0)
  }

  lemma IssuesOneGens(s: State, s': State, op: WriteOp)
    requires IssuedOk(s) && GensOk(s) && IssuesOne(s, s', op)
    ensures GensOk(s')
  {
    hide Changes, DrainedGen;
    NoChangesYet(s);
    forall id | 0 <= id < |s'.infos| ensures s'.infos[id].entryGen == Changes(s'.issued, id) % U16_MOD {
      ChangesNext(s.issued, op, id);
      ModNext(Changes(s.issued, id));
    }
    IssuesOpGens(s, s', op);
  }

  lemma IssuesOpGens(s: State, s': State, op: WriteOp)
    requires OpGens(s) && EntryGens(s') && IssuesOne(s, s', op)
    ensures OpGens(s')
  {
    hide Changes, DrainedGen;
    forall n | 0 <= n < |s'.issued|
      ensures s'.issued[n].gen == Changes(s'.issued[..n + 1], s'.issued[n].id) % U16_MOD
    {
      if n < |s.issued| {
        assert s'.issued[..n + 1] == s.issued[..n + 1];
      } else {
        assert s'.issued[..n + 1] == s'.issued;
      }
    }
  }

  lemma ModNext(n: nat)
    ensures (n % U16_MOD + 1) % U16_MOD == (n + 1) % U16_MOD
  {
  }

  /** A record that does not exist yet has not been changed. */
  lemma NoChangesYet(s: State)
    requires IssuedOk(s)
    ensures Changes(s.issued, |s.infos|) == 0
  {
    ChangesPrefix(s.issued, 0, |s.infos|);
    assert s.issued[..0] == [];
  }

  lemma StepIssues(c: Config, s: State, step: Step) returns (op: WriteOp)
    requires Inv(s) && Enabled(c, s, step) && Issuing(step)
    ensures IssuesOne(s, Apply(c, s, step), op)
  {
    hide ExactlyOnce, NoOrphan, NoForgotten, DequeOk, TasksOk, IssuedOk, HandOk, MaintOk, Distinct;
    op := Apply(c, s, step).issued[|s.issued|];
  }

  lemma StepGens(c: Config, s: State, step: Step)
    requires Inv(s) && GensOk(s) && Enabled(c, s, step)
    ensures GensOk(Apply(c, s, step))
  {
    assert IssuedOk(s);
    hide Inv, GensOk, Enabled, Apply, IssuesOne, DrainsOnly, IssuedOk;
    if Issuing(step) {
      var op := StepIssues(c, s, step);
      IssuesOneGens(s, Apply(c, s, step), op);
    } else {
      if MayDrain(step) { MaintenanceDrains(c, s, step); } else { ClientDrains(c, s, step); }
      DrainsGens(s, Apply(c, s, step));
    }
  }

  lemma {:induction false} RunGens(c: Config, s0: State, steps: seq<Step>, s: State)
    requires Inv(s0) && GensOk(s0) && Run(c, s0, steps, s)
    ensures GensOk(s)
    decreases |steps|
  {
    if steps != [] {
      hide Inv, GensOk, Enabled, Apply;
      StepInv(c, s0, steps[0]);
      StepGens(c, s0, steps[0]);
      RunGens(c, Apply(c, s0, steps[0]), steps[1..], s);
    }
  }

  // ----- from the protocol to the policy ---------------------------------------------------------

  function PolicyOf(s: State): Policy.State {
    Policy.State(s.table, map id: nat | id < |s.infos| :: s.infos[id], s.deque, s.entryCount, s.weightedSize, 0)
  }

  /** No record has been changed often enough for its generation to wrap around. */
  ghost predicate NoWrap(s: State) {
    forall id :: 0 <= id < |s.infos| ==> Changes(s.issued, id) < U16_MOD
  }

  /** An op that is not the last change of its record carries an older generation than the record. */
  lemma OlderGen(s: State, n: nat, m: nat)
    requires GensOk(s) && NoWrap(s) && n < m < |s.issued| && s.issued[n].id == s.issued[m].id < |s.infos|
    ensures s.issued[n].gen != s.infos[s.issued[n].id].entryGen
  {
    hide Changes;
    var id := s.issued[n].id;
    ChangesPrefix(s.issued, n + 1, id);
  }

  /** A record whose removal is pending is dirty, and no other op can settle it. */
  lemma RemovePendingIsDirty(s: State, id: Id)
    requires Inv(s) && GensOk(s) && NoWrap(s) && id < |s.infos| && RemovePending(s, id)
    ensures IsDirty(s.infos[id])
    ensures forall op: WriteOp :: op.Upsert? && op.id == id && IsIssued(s.issued, op) == 1 ==>
              op.gen != s.infos[id].entryGen
  {
    hide Changes, TasksOk, TableOk, DequeOk, NoOrphan, NoForgotten, HandOk, MaintOk, Distinct, OpGens, EntryGens,
         NoWrap;
    var r :| Pending(s, r) > 0 && r.Remove? && r.id == id;
    assert IsIssued(s.issued, r) == 1 && InLog(s.drained, r) == 0;
    forall op: WriteOp | op.id == id && IsIssued(s.issued, op) == 1 && op != r
      ensures op.gen != s.infos[id].entryGen {
      assert op.serial < r.serial;
      OlderGen(s, op.serial, r.serial);
    }
    if !IsDirty(s.infos[id]) {
      LastGenNonzero(s, r.serial);
      var d :| d in s.drained && d.id == id && d.gen == s.infos[id].policyGen;
      CountedInLog(s.drained, d);
      CountedInLog(s.drained, r);
    }
  }

  lemma LastGenNonzero(s: State, n: nat)
    requires GensOk(s) && NoWrap(s) && n < |s.issued| && s.issued[n].id < |s.infos|
    ensures s.infos[s.issued[n].id].entryGen != 0
  {
    ChangesPrefix(s.issued, n, s.issued[n].id);
  }

  lemma {:induction false} UnitLoad(st: Policy.State, ids: seq<Id>)
    requires forall id :: id in st.infos ==> st.infos[id].weight == 1
    ensures Policy.Load(st, ids) <= |ids|
  {
    if ids != [] { UnitLoad(st, ids[..|ids| - 1]); }
  }

  lemma PolicyTableOk(s: State)
    requires TableOk(s)
    ensures Policy.TableOk(PolicyOf(s))
  {
  }

  lemma PolicyDequeOk(s: State)
    requires Inv(s) && GensOk(s) && NoWrap(s) && s.hand == {}
    ensures Policy.DequeOk(PolicyOf(s))
  {
    assert DequeOk(s) && NoOrphan(s);
    hide Inv, GensOk, NoWrap, Distinct, IsDirty, RemovePending;
    forall id | id in s.deque && s.infos[id].retired ensures IsDirty(s.infos[id]) {
      RemovePendingIsDirty(s, id);
    }
  }

  lemma PolicyConsistent(s: State)
    requires Inv(s) && GensOk(s) && NoWrap(s) && Accounted(s) && s.hand == {}
    ensures Policy.Consistent(PolicyOf(s))
  {
    assert TableOk(s) && DequeOk(s) && UnitOps(s);
    hide Inv, GensOk, NoWrap, TableOk, Policy.TableOk, Policy.DequeOk, Policy.Load;
    PolicyTableOk(s);
    PolicyDequeOk(s);
    UnitLoad(PolicyOf(s), s.deque);
  }

  function OpOf(op: WriteOp): Upsert.Op
    requires op.Upsert?
  {
    Upsert.Op(op.id, op.gen, op.oldWeight, op.newWeight)
  }

  lemma PolicyOpOk(s: State)
    requires Inv(s) && GensOk(s) && NoWrap(s) && Accounted(s) && s.hand == {} && !s.maint.Free?
    requires |s.drained| < U64_MAX
    ensures s.maint.op.Upsert? && Upsert.OpOk(PolicyOf(s), OpOf(s.maint.op))
  {
    var op := s.maint.op;
    CurrentOp(s);
    assert MaintOk(s) && UnitOps(s) && NoOrphan(s);
    assert s.weightedSize + 1 <= U64_MAX;
    hide Inv, GensOk, NoWrap, Accounted, UnitOps, InsertFirst, RemovePending;
    if s.infos[op.id].admitted && s.infos[op.id].retired { RemovePendingIsDirty(s, op.id); }
  }

  /** Exchanging the weights of the op in maintenance leaves the counter enough for every node. */
  lemma PolicyCovers(s: State)
    requires Inv(s) && GensOk(s) && NoWrap(s) && Accounted(s) && s.hand == {} && !s.maint.Free?
    requires |s.drained| < U64_MAX
    ensures Upsert.CoversUpdate(PolicyOf(s), OpOf(s.maint.op))
  {
    var st, op := PolicyOf(s), s.maint.op;
    CurrentOp(s);
    assert MaintOk(s) && UnitOps(s) && DequeOk(s);
    assert s.weightedSize == |s.deque| + s.late && s.weightedSize + 1 <= U64_MAX;
    hide Inv, GensOk, NoWrap, Accounted, InsertFirst, Distinct, Policy.Load, Without;
    if s.infos[op.id].admitted {
      WithoutKeeps(s.deque, op.id);
      UnitLoad(st, Without(s.deque, op.id));
      Upsert.InOrderUpdateCovers(st, OpOf(op));
    }
  }

  /** Over every run without a weigher that drains fewer than 2^64 ops, whenever the maintenance run
      holds no half-removed entry and no record has been changed 65536 times: the policy state is
      consistent, so eviction may run on it, and the op being drained is one `HandleUpsert` takes and
      keeps it consistent with. */
  lemma ReachableIsConsistent(c: Config, s0: State, steps: seq<Step>, s: State)
    requires Init(s0) && Run(c, s0, steps, s) && |s.drained| < U64_MAX
    requires forall i :: 0 <= i < |steps| ==> UnitStep(steps[i])
    requires s.hand == {} && NoWrap(s)
    ensures Policy.Consistent(PolicyOf(s))
    ensures !s.maint.Free? ==> s.maint.op.Upsert? && Upsert.OpOk(PolicyOf(s), OpOf(s.maint.op))
    ensures !s.maint.Free? ==> Upsert.CoversUpdate(PolicyOf(s), OpOf(s.maint.op))
  {
    assert Accounted(s0) && GensOk(s0) by { assert s0.issued == []; }
    hide Inv, GensOk, Accounted, NoWrap;
    InitInv(s0);
    RunInv(c, s0, steps, s);
    RunGens(c, s0, steps, s);
    RunAccounted(c, s0, steps, s);
    PolicyConsistent(s);
    if !s.maint.Free? { PolicyOpOk(s); PolicyCovers(s); }
  }
}
