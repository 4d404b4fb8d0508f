/** When a drained cache is quiet: every node clean and exactly accounted, the state in which admission
    and eviction decide as their references do. */
module WriteLogQuiet {
  import opened Common
  import opened PolicyRecord
  import opened WriteLog
  import opened WriteLogInvariant
  import opened WriteLogSteps
  import opened WriteLogTheorems
  import opened WriteLogAccounting
  import opened WriteLogPolicy
  import opened WriteLogEffects
  import Admission
  import Policy = EvictionState

  /** The largest distance `set_policy_gen` covers in one move. */
  const MAX_GAP: nat := 32767

  ghost predicate FewChanges(s: State) {
    forall id :: 0 <= id < |s.infos| ==> Changes(s.issued, id) <= MAX_GAP
  }

  /** The policy has caught up with every live record whose last operation is drained. */
  ghost predicate CaughtUp(s: State) {
    forall d :: d in s.drained && d.id < |s.infos| ==> CaughtUpAt(s.infos[d.id], d.gen)
  }

  predicate CaughtUpAt(e: EntryInfo, gen: nat) {
    !e.retired && gen == e.entryGen ==> e.policyGen == e.entryGen
  }

  // ----- generations below the bound ---------------------------------------------------------------------

  lemma DrainedIsIssued(s: State, d: WriteOp)
    requires Inv(s) && d in s.drained
    ensures d.serial < |s.issued| && s.issued[d.serial] == d && d.id < |s.infos|
  {
    assert ExactlyOnce(s) && IssuedOk(s);
    hide Inv;
    CountedInLog(s.drained, d);
    assert Pending(s, d) + InLog(s.drained, d) == IsIssued(s.issued, d);
  }

  /** Without wrap-around generations count, so an issued op's is at most its record's. */
  lemma IssuedGenBelow(s: State, n: nat)
    requires GensOk(s) && NoWrap(s) && n < |s.issued| && s.issued[n].id < |s.infos|
    ensures 1 <= s.issued[n].gen <= s.infos[s.issued[n].id].entryGen == Changes(s.issued, s.issued[n].id)
  {
    hide Changes;
    var id := s.issued[n].id;
    ChangesPrefix(s.issued, n + 1, id);
    ChangesPrefix(s.issued[..n + 1], n, id);
    assert s.issued[..n + 1][n] == s.issued[n];
  }

  lemma PolicyGenBelow(s: State, id: Id)
    requires Inv(s) && GensOk(s) && NoWrap(s) && id < |s.infos|
    ensures s.infos[id].policyGen <= s.infos[id].entryGen == Changes(s.issued, id)
  {
    hide Inv, Changes;
    if s.infos[id].policyGen != 0 {
      var d :| d in s.drained && d.id == id && d.gen == s.infos[id].policyGen;
      DrainedIsIssued(s, d);
      IssuedGenBelow(s, d.serial);
    }
  }

  lemma FewIsNoWrap(s: State)
    requires FewChanges(s)
    ensures NoWrap(s)
  {
    hide Changes;
  }

  // ----- catching up ---------------------------------------------------------------------------------------

  /** A step that finishes `op`: other records stay, and a live record is settled if `op` carries its
      generation. */
  ghost predicate SettlesOp(s: State, s': State, op: WriteOp) {
    && s'.issued == s.issued && s'.drained == s.drained + [op] && |s'.infos| == |s.infos| && op.id < |s.infos|
    && (forall id :: 0 <= id < |s.infos| && id != op.id ==> SameGens(s.infos[id], s'.infos[id]))
    && var e, e' := s.infos[op.id], s'.infos[op.id];
    && e'.entryGen == e.entryGen && (e.retired ==> e'.retired)
    && (e'.policyGen == e.policyGen || e'.policyGen == SetPolicyGen(e.policyGen, op.gen))
    && (!e'.retired && op.gen == e.entryGen ==> e'.policyGen == SetPolicyGen(e.policyGen, op.gen))
  }

  predicate SameGens(e: EntryInfo, e': EntryInfo) {
    e'.entryGen == e.entryGen && e'.policyGen == e.policyGen && (e.retired ==> e'.retired)
  }

  lemma SettlingCatchesUp(s: State, s': State, op: WriteOp)
    requires CaughtUp(s) && SettlesOp(s, s', op)
    requires s.infos[op.id].policyGen <= s.infos[op.id].entryGen <= MAX_GAP && op.gen <= s.infos[op.id].entryGen
    ensures CaughtUp(s')
  {
    forall d | d in s'.drained && d.id < |s'.infos| ensures CaughtUpAt(s'.infos[d.id], d.gen) {
      if d != op { assert CaughtUpAt(s.infos[d.id], d.gen); }
    }
  }

  lemma FinishSettles(c: Config, s: State, step: Step)
    requires MaintOk(s) && TableOk(s) && Enabled(c, s, step) && MayDrain(step)
    requires Apply(c, s, step).drained != s.drained
    ensures SettlesOp(s, Apply(c, s, step), if step.DrainRemove? then s.channel[0] else s.maint.op)
  {
    hide Without, SetPolicyGen, RemovePending;
  }

  lemma OtherStepsKeepGens(c: Config, s: State, step: Step)
    requires Enabled(c, s, step) && !Issuing(step)
    requires MayDrain(step) ==> Apply(c, s, step).drained == s.drained
    ensures var s' := Apply(c, s, step);
      && s'.drained == s.drained && s'.issued == s.issued && |s'.infos| == |s.infos|
      && forall id :: 0 <= id < |s.infos| ==> SameGens(s.infos[id], s'.infos[id])
  {
    hide Without, SetPolicyGen;
  }

  lemma SameGensCaughtUp(s: State, s': State)
    requires CaughtUp(s) && s'.drained == s.drained && |s'.infos| == |s.infos|
    requires forall id :: 0 <= id < |s.infos| ==> SameGens(s.infos[id], s'.infos[id])
    ensures CaughtUp(s')
  {
    forall d | d in s'.drained && d.id < |s'.infos| ensures CaughtUpAt(s'.infos[d.id], d.gen) {
      assert CaughtUpAt(s.infos[d.id], d.gen);
    }
  }

  /** A new change has a generation that nothing drained can have. */
  lemma IssueCaughtUp(s: State, s': State, op: WriteOp)
    requires Inv(s) && GensOk(s) && NoWrap(s) && CaughtUp(s) && IssuesOne(s, s', op) && NoWrap(s')
    requires forall id :: 0 <= id < |s.infos| && id != op.id ==> s'.infos[id] == s.infos[id]
    ensures CaughtUp(s')
  {
    hide Inv, Changes, GensOk;
    forall d | d in s'.drained && d.id < |s'.infos| ensures CaughtUpAt(s'.infos[d.id], d.gen) {
      DrainedIsIssued(s, d);
      IssuedGenBelow(s, d.serial);
      if d.id == op.id {
        ChangesNext(s.issued, op, d.id);
        assert Changes(s'.issued, d.id) < U16_MOD;
      } else {
        assert CaughtUpAt(s.infos[d.id], d.gen);
      }
    }
  }

  lemma IssueKeepsOthers(c: Config, s: State, step: Step)
    requires Enabled(c, s, step) && Issuing(step)
    ensures var s' := Apply(c, s, step);
      |s'.issued| == |s.issued| + 1 && forall id :: 0 <= id < |s.infos| && id != s'.issued[|s.issued|].id ==>
        id < |s'.infos| && s'.infos[id] == s.infos[id]
  {
  }

  lemma FewBefore(c: Config, s: State, step: Step)
    requires Enabled(c, s, step) && FewChanges(Apply(c, s, step))
    ensures FewChanges(s)
  {
    var s' := Apply(c, s, step);
    IssuedGrows(c, s, step);
    hide Changes, Apply, Enabled;
    forall id | 0 <= id < |s.infos| ensures Changes(s.issued, id) <= MAX_GAP {
      ChangesPrefix(s'.issued, |s.issued|, id);
    }
  }

  lemma IssuedGrows(c: Config, s: State, step: Step)
    requires Enabled(c, s, step)
    ensures var s' := Apply(c, s, step);
      |s.infos| <= |s'.infos| && |s.issued| <= |s'.issued| && s'.issued[..|s.issued|] == s.issued
  {
    hide Without, SetPolicyGen;
  }

  lemma StepCaughtUp(c: Config, s: State, step: Step)
    requires Inv(s) && GensOk(s) && CaughtUp(s) && Enabled(c, s, step) && FewChanges(Apply(c, s, step))
    ensures CaughtUp(Apply(c, s, step))
  {
    var s' := Apply(c, s, step);
    assert MaintOk(s) && TableOk(s);
    hide Inv, GensOk, CaughtUp, Enabled, Apply, FewChanges, NoWrap, MaintOk, TableOk, IssuesOne, SettlesOp;
    FewBefore(c, s, step);
    FewIsNoWrap(s);
    FewIsNoWrap(s');
    if Issuing(step) {
      var op := StepIssues(c, s, step);
      IssueKeepsOthers(c, s, step);
      IssuedIs(s, s', op);
      IssueCaughtUp(s, s', op);
    } else if MayDrain(step) && s'.drained != s.drained {
      FinishSettles(c, s, step);
      FinishCaughtUp(c, s, step, if step.DrainRemove? then s.channel[0] else s.maint.op);
    } else {
      OtherStepsKeepGens(c, s, step);
      SameGensCaughtUp(s, s');
    }
  }

  lemma IssuedIs(s: State, s': State, op: WriteOp)
    requires IssuesOne(s, s', op)
    ensures |s'.issued| == |s.issued| + 1 && s'.issued[|s.issued|] == op
  {
  }

  lemma FinishCaughtUp(c: Config, s: State, step: Step, op: WriteOp)
    requires Inv(s) && GensOk(s) && CaughtUp(s) && FewChanges(s) && NoWrap(s) && Enabled(c, s, step)
    requires SettlesOp(s, Apply(c, s, step), op)
    requires (step.DrainRemove? && s.channel != [] && op == s.channel[0]) || (!s.maint.Free? && op == s.maint.op)
    ensures CaughtUp(Apply(c, s, step))
  {
    assert op.serial < |s.issued| && s.issued[op.serial] == op && op.id < |s.infos| by {
      hide Apply, Enabled, GensOk, CaughtUp, FewChanges, NoWrap, SettlesOp;
      PendingOp(s, op);
    }
    hide Apply, Enabled, CaughtUp, Inv, GensOk, NoWrap, Changes;
    IssuedGenBelow(s, op.serial);
    PolicyGenBelow(s, op.id);
    SettlingCatchesUp(s, Apply(c, s, step), op);
  }

  lemma PendingOp(s: State, op: WriteOp)
    requires Inv(s) && ((s.channel != [] && op == s.channel[0]) || (!s.maint.Free? && op == s.maint.op))
    ensures op.serial < |s.issued| && s.issued[op.serial] == op && op.id < |s.infos|
  {
    assert ExactlyOnce(s) && IssuedOk(s);
    hide Inv;
    assert Pending(s, op) >= 1;
    assert IsIssued(s.issued, op) == 1;
  }

  /** Every record has an access time. */
  ghost predicate Timed(s: State) {
    forall id :: 0 <= id < |s.infos| ==> s.infos[id].lastAccessed.Some?
  }

  lemma StepTimed(c: Config, s: State, step: Step)
    requires Timed(s) && Enabled(c, s, step)
    ensures Timed(Apply(c, s, step))
  {
    if !step.TableUpsert? {
      ValuesKept(c, s, step);
      hide Apply, Enabled;
    }
  }

  lemma {:induction false} RunFewBefore(c: Config, s0: State, steps: seq<Step>, s: State)
    requires Run(c, s0, steps, s) && FewChanges(s)
    ensures FewChanges(s0)
    decreases |steps|
  {
    if steps != [] {
      hide Enabled, Apply, FewChanges;
      RunFewBefore(c, Apply(c, s0, steps[0]), steps[1..], s);
      FewBefore(c, s0, steps[0]);
    }
  }

  lemma {:induction false} RunCaughtUp(c: Config, s0: State, steps: seq<Step>, s: State)
    requires Inv(s0) && GensOk(s0) && CaughtUp(s0) && Timed(s0) && Run(c, s0, steps, s) && FewChanges(s)
    ensures CaughtUp(s) && Timed(s)
    decreases |steps|
  {
    if steps != [] {
      hide Inv, GensOk, CaughtUp, Timed, Enabled, Apply, FewChanges;
      RunFewBefore(c, Apply(c, s0, steps[0]), steps[1..], s);
      StepCaughtUp(c, s0, steps[0]);
      StepTimed(c, s0, steps[0]);
      StepInv(c, s0, steps[0]);
      StepGens(c, s0, steps[0]);
      RunCaughtUp(c, Apply(c, s0, steps[0]), steps[1..], s);
    }
  }

  // ----- drained caches --------------------------------------------------------------------------------------

  lemma NothingPending(s: State, op: WriteOp)
    requires Quiescent(s)
    ensures Pending(s, op) == 0
  {
    NothingInIdle(s.tasks, op);
  }

  lemma {:induction false} LastChange(ops: seq<WriteOp>, id: Id) returns (n: nat)
    requires Changes(ops, id) > 0
    ensures n < |ops| && ops[n].id == id && Changes(ops[..n + 1], id) == Changes(ops, id)
  {
    if ops[|ops| - 1].id == id {
      n := |ops| - 1;
      assert ops[..n + 1] == ops;
    } else {
      n := LastChange(ops[..|ops| - 1], id);
      assert ops[..|ops| - 1][..n + 1] == ops[..n + 1];
    }
  }

  lemma DrainedIsClean(s: State, id: Id)
    requires Inv(s) && GensOk(s) && CaughtUp(s) && NoWrap(s) && Quiescent(s)
    requires id < |s.infos| && !s.infos[id].retired
    ensures !IsDirty(s.infos[id])
  {
    PolicyGenBelow(s, id);
    if Changes(s.issued, id) > 0 {
      var n := LastChange(s.issued, id);
      var op := s.issued[n];
      assert IssuedOk(s) && ExactlyOnce(s);
      hide Inv, Changes;
      assert op.serial == n && op.gen == s.infos[id].entryGen;
      NothingPending(s, op);
      assert Pending(s, op) + InLog(s.drained, op) == IsIssued(s.issued, op);
      CountedInLog(s.drained, op);
      assert CaughtUpAt(s.infos[id], op.gen);
    }
  }

  lemma {:induction false} UnitLoadExact(st: Policy.State, ids: seq<Id>)
    requires forall id :: id in ids ==> Policy.Share(st, id) == 1
    ensures Policy.Load(st, ids) == |ids|
  {
    if ids != [] { UnitLoadExact(st, ids[..|ids| - 1]); }
  }

  lemma CleanNode(s: State, id: Id)
    requires TableOk(s) && Timed(s) && id < |s.infos| && !s.infos[id].retired && !IsDirty(s.infos[id])
    ensures var g := Policy.Peek(PolicyOf(s), id);
      Admission.Clean(g) && g.lastAccessed.Some? && g.weight == Some(s.infos[id].weight)
  {
    hide IsDirty;
  }

  /** Over every run without a weigher in which each entry's operations are drained in table order, and
      no entry is changed more than 32767 times: a drained cache is quiet, so that eviction and
      admission act on it exactly as their references say. */
  lemma DrainedIsQuiet(c: Config, s0: State, steps: seq<Step>, s: State)
    requires Init(s0) && Run(c, s0, steps, s) && |s.drained| < U64_MAX && Quiescent(s)
    requires forall i :: 0 <= i < |steps| ==> UnitStep(steps[i])
    requires InTableOrder(s.drained) && FewChanges(s)
    ensures Policy.Quiet(PolicyOf(s))
  {
    assert GensOk(s0) && CaughtUp(s0) && Timed(s0) && Accounted(s0) by { assert s0.issued == []; }
    assert s.hand == {};
    hide Inv, GensOk, CaughtUp, Timed, FewChanges, Accounted, Quiescent, NoWrap, Init, UnitStep, InTableOrder;
    InitInv(s0);
    RunInv(c, s0, steps, s);
    RunGens(c, s0, steps, s);
    RunCaughtUp(c, s0, steps, s);
    RunAccounted(c, s0, steps, s);
    FewIsNoWrap(s);
    assert Reachable(c, s);
    ConsistentWhenQuiescent(c, s);
    ReachableIsConsistent(c, s0, steps, s);
    UnitWeightAccounting(c, s0, steps, s);
    QuietNodes(s);
  }

  lemma QuietNodes(s: State)
    requires Inv(s) && GensOk(s) && CaughtUp(s) && NoWrap(s) && Quiescent(s) && Timed(s) && Accounted(s)
    requires s.weightedSize == s.entryCount == |s.deque| && Policy.Consistent(PolicyOf(s))
    requires forall id :: id in s.deque ==> id < |s.infos| && !s.infos[id].retired
    ensures Policy.Quiet(PolicyOf(s))
  {
    assert TableOk(s) && UnitOps(s);
    hide Inv, GensOk, CaughtUp, NoWrap, Quiescent, Timed, Accounted, TableOk, Policy.Consistent, IsDirty, Policy.Peek;
    var st := PolicyOf(s);
    forall id | id in s.deque
      ensures Admission.Clean(Policy.Peek(st, id)) && Policy.Peek(st, id).lastAccessed.Some?
      ensures Policy.Share(st, id) == 1
    {
      DrainedIsClean(s, id);
      CleanNode(s, id);
      assert s.infos[id].weight == 1;
    }
    UnitLoadExact(st, s.deque);
  }
}
