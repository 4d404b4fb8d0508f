/** When a weigher's accounting is exact: the operations of an entry are drained in table order, and
    entries are removed or evicted only while none of their operations is pending. */
module WriteLogOrder {
  import opened Common
  import opened PolicyRecord
  import opened WriteLog
  import opened WriteLogInvariant
  import opened WriteLogSteps
  import opened WriteLogTheorems
  import opened WriteLogWeights

  // ----- the ops of one record -----------------------------------------------------------------------

  function OpsOf(log: seq<WriteOp>, id: Id): seq<WriteOp> {
    if log == [] then []
    else
      var op, r := log[|log| - 1], OpsOf(log[..|log| - 1], id);
      if op.id == id then r + [op] else r
  }

  lemma {:induction false} InOpsOf(log: seq<WriteOp>, id: Id, op: WriteOp)
    ensures op in OpsOf(log, id) <==> op in log && op.id == id
  {
    if log != [] { InOpsOf(log[..|log| - 1], id, op); }
  }

  /** The weight the last upsert gave its entry. */
  function LastWeight(ops: seq<WriteOp>): nat {
    if ops == [] then 0
    else if ops[|ops| - 1].Upsert? then ops[|ops| - 1].newWeight
    else LastWeight(ops[..|ops| - 1])
  }

  lemma OpsOfNext(log: seq<WriteOp>, op: WriteOp, id: Id)
    ensures OpsOf(log + [op], id) == if op.id == id then OpsOf(log, id) + [op] else OpsOf(log, id)
  {
    assert (log + [op])[..|log|] == log;
  }

  lemma LastWeightNext(ops: seq<WriteOp>, op: WriteOp)
    ensures LastWeight(ops + [op]) == if op.Upsert? then op.newWeight else LastWeight(ops)
  {
    assert (ops + [op])[..|ops|] == ops;
  }

  ghost predicate NoUpsert(ops: seq<WriteOp>) {
    forall i :: 0 <= i < |ops| ==> ops[i].Remove?
  }

  lemma {:induction false} LastWeightOfPrefix(ops: seq<WriteOp>, n: nat)
    requires n <= |ops| && NoUpsert(ops[n..])
    ensures LastWeight(ops[..n]) == LastWeight(ops)
    decreases |ops|
  {
    if n < |ops| {
      var front := ops[..|ops| - 1];
      assert ops[n..][|ops| - 1 - n] == ops[|ops| - 1];
      assert front[n..] == ops[n..][..|ops| - 1 - n] && front[..n] == ops[..n];
      LastWeightOfPrefix(front, n);
    } else {
      assert ops[..n] == ops;
    }
  }

  // ----- orderly runs --------------------------------------------------------------------------------

  /** What has been drained of each record is what was issued for it first. */
  ghost predicate TableOrdered(s: State) {
    forall id: Id :: OpsOf(s.drained, id) <= OpsOf(s.issued, id)
  }

  /** No op of the record is pending. */
  ghost predicate AllDrained(s: State, id: Id) {
    OpsOf(s.drained, id) == OpsOf(s.issued, id)
  }

  /** A step after which draining is still in table order, and which takes an entry out of the table
      for a client or for eviction only when nothing is pending for it. */
  ghost predicate Orderly(c: Config, s: State, step: Step)
    requires Enabled(c, s, step)
  {
    && TableOrdered(Apply(c, s, step))
    && (step.TableRemove? || step.EvictRetire? ==> AllDrained(s, s.table[step.key]))
  }

  ghost predicate OrderlyRun(c: Config, s0: State, b0: Book, steps: seq<Step>, s: State, b: Book)
    decreases |steps|
  {
    if steps == [] then s == s0 && b == b0
    else
      && Enabled(c, s0, steps[0]) && Unsaturated(c, s0, steps[0]) && Orderly(c, s0, steps[0])
      && OrderlyRun(c, Apply(c, s0, steps[0]), Entered(c, s0, b0, steps[0]), steps[1..], s, b)
  }

  // ----- what they keep --------------------------------------------------------------------------------

  /** A record's weight is that of its last upsert. */
  ghost predicate Weighed(s: State) {
    forall id :: 0 <= id < |s.infos| ==> s.infos[id].weight == LastWeight(OpsOf(s.issued, id))
  }

  /** An upsert takes out what the one before it put in. */
  ghost predicate Chained(ops: seq<WriteOp>) {
    forall k :: 0 <= k < |ops| && ops[k].Upsert? ==> ops[k].oldWeight == LastWeight(ops[..k])
  }

  ghost predicate AllChained(s: State) {
    forall id: Id :: Chained(OpsOf(s.issued, id))
  }

  /** What is counted for an admitted record is the weight of its last drained upsert. */
  ghost predicate CountsDrained(s: State, b: Book) {
    forall id :: 0 <= id < |s.infos| && s.infos[id].admitted ==> CountOf(b, id) == LastWeight(OpsOf(s.drained, id))
  }

  /** Nothing is pending for record `id` but its removal. */
  ghost predicate OnlyRemovalLeft(s: State, id: Id) {
    |OpsOf(s.drained, id)| <= |OpsOf(s.issued, id)| && NoUpsert(OpsOf(s.issued, id)[|OpsOf(s.drained, id)|..])
  }

  ghost predicate RetiredClean(s: State) {
    && (forall id :: 0 <= id < |s.infos| && s.infos[id].admitted && s.infos[id].retired ==> OnlyRemovalLeft(s, id))
    && (s.maint.Admitting? && s.maint.op.id < |s.infos| ==> !s.infos[s.maint.op.id].retired)
  }

  ghost predicate InOrder(s: State, b: Book) {
    && Weighed(s) && AllChained(s) && CountsDrained(s, b) && RetiredClean(s) && TableOrdered(s)
    && b.leak == 0
  }

  /** The op a step drains is the next one of its record. */
  lemma NextOfRecord(s: State, op: WriteOp)
    requires TableOrdered(s) && OpsOf(s.drained + [op], op.id) <= OpsOf(s.issued, op.id)
    ensures var ops, n := OpsOf(s.issued, op.id), |OpsOf(s.drained, op.id)|;
      n < |ops| && ops[n] == op && ops[..n] == OpsOf(s.drained, op.id)
  {
    hide TableOrdered;
    OpsOfNext(s.drained, op, op.id);
  }

  // ----- table changes ---------------------------------------------------------------------------------

  lemma ChainedNext(ops: seq<WriteOp>, op: WriteOp)
    requires Chained(ops) && (op.Upsert? ==> op.oldWeight == LastWeight(ops))
    ensures Chained(ops + [op])
  {
    var next := ops + [op];
    hide LastWeight;
    forall k | 0 <= k < |next| && next[k].Upsert? ensures next[k].oldWeight == LastWeight(next[..k]) {
      assert next[..k] == ops[..k];
      assert k == |ops| ==> ops[..k] == ops;
    }
  }

  lemma RemovalLeft(s: State, s': State, op: WriteOp)
    requires AllDrained(s, op.id) && op.Remove? && s'.drained == s.drained
    requires OpsOf(s'.issued, op.id) == OpsOf(s.issued, op.id) + [op]
    ensures OnlyRemovalLeft(s', op.id)
  {
    hide OpsOf;
  }

  lemma SameLeft(s: State, s': State, id: Id)
    requires OnlyRemovalLeft(s, id)
    requires OpsOf(s'.issued, id) == OpsOf(s.issued, id) && OpsOf(s'.drained, id) == OpsOf(s.drained, id)
    ensures OnlyRemovalLeft(s', id)
  {
    hide OpsOf;
  }

  /** `op` is issued; records keep their place and admission. */
  lemma IssueInOrder(s: State, s': State, b: Book, op: WriteOp)
    requires InOrder(s, b) && TableOrdered(s')
    requires s'.issued == s.issued + [op] && s'.drained == s.drained && s'.maint == s.maint
    requires op.id < |s'.infos| && |s.infos| <= |s'.infos|
    requires op.Upsert? ==> op.oldWeight == LastWeight(OpsOf(s.issued, op.id)) && !s'.infos[op.id].retired
    requires s'.infos[op.id].weight == if op.Upsert? then op.newWeight else LastWeight(OpsOf(s.issued, op.id))
    requires forall id :: 0 <= id < |s'.infos| && id != op.id ==> id < |s.infos| && s'.infos[id] == s.infos[id]
    requires s'.infos[op.id].admitted ==> op.id < |s.infos| && s.infos[op.id].admitted
    requires s'.infos[op.id].retired ==> AllDrained(s, op.id)
    requires s.maint.Admitting? ==> s.maint.op.id < |s.infos| && (s.maint.op.id == op.id ==> !s'.infos[op.id].retired)
    ensures InOrder(s', b)
  {
    hide OpsOf, LastWeight, Chained, TableOrdered, OnlyRemovalLeft, AllDrained;
    var ops := OpsOf(s.issued, op.id);
    forall id: Id ensures OpsOf(s'.issued, id) == if id == op.id then ops + [op] else OpsOf(s.issued, id) {
      OpsOfNext(s.issued, op, id);
    }
    LastWeightNext(ops, op);
    ChainedNext(ops, op);
    if s'.infos[op.id].retired { RemovalLeft(s, s', op); }
    forall id | 0 <= id < |s'.infos| && id != op.id && s'.infos[id].admitted && s'.infos[id].retired
      ensures OnlyRemovalLeft(s', id)
    {
      SameLeft(s, s', id);
    }
  }

  lemma {:induction false} NoOpsYet(log: seq<WriteOp>, id: Id)
    requires forall i :: 0 <= i < |log| ==> log[i].id != id
    ensures OpsOf(log, id) == []
  {
    if log != [] { NoOpsYet(log[..|log| - 1], id); }
  }

  lemma UpsertInOrder(c: Config, s: State, b: Book, step: Step)
    requires Inv(s) && InOrder(s, b) && step.TableUpsert? && Enabled(c, s, step) && Orderly(c, s, step)
    ensures InOrder(Apply(c, s, step), b)
  {
    var s', id := Apply(c, s, step), if step.key in s.table then s.table[step.key] else |s.infos|;
    assert MaintOk(s) && TableOk(s) && IssuedOk(s) && Weighed(s);
    hide Inv, OpsOf, LastWeight, TableOrdered, InOrder, MaintOk;
    if id == |s.infos| {
      NoOpsYet(s.issued, id);
    }
    IssueInOrder(s, s', b, s'.issued[|s.issued|]);
  }

  lemma RemoveInOrder(c: Config, s: State, b: Book, step: Step)
    requires Inv(s) && InOrder(s, b) && step.TableRemove? && Enabled(c, s, step) && Orderly(c, s, step)
    ensures InOrder(Apply(c, s, step), b)
  {
    var s', id := Apply(c, s, step), s.table[step.key];
    assert MaintOk(s) && Weighed(s);
    if !s.maint.Free? {
      CurrentIsPending(s);
      InOpsOf(s.issued, id, s.maint.op);
      InOpsOf(s.drained, id, s.maint.op);
    }
    hide Inv, LastWeight, TableOrdered, InOrder, OpsOf;
    IssueInOrder(s, s', b, s'.issued[|s.issued|]);
  }

  // ----- draining --------------------------------------------------------------------------------------

  /** An admitted record with an upsert next in line is not retired. */
  lemma LiveWhileUpserting(s: State, op: WriteOp)
    requires TableOrdered(s) && RetiredClean(s) && op.Upsert? && op.id < |s.infos| && s.infos[op.id].admitted
    requires OpsOf(s.drained + [op], op.id) <= OpsOf(s.issued, op.id)
    ensures !s.infos[op.id].retired
  {
    NextOfRecord(s, op);
    hide TableOrdered, OpsOf;
    if s.infos[op.id].retired { assert false; }
  }

  /** What taking the old weight out and the new one in leaves counted. */
  lemma ExchangeIsExact(s: State, b: Book, op: WriteOp)
    requires InOrder(s, b) && op.Upsert? && op.id < |s.infos| && s.infos[op.id].admitted
    requires OpsOf(s.drained + [op], op.id) <= OpsOf(s.issued, op.id)
    ensures CountOf(b, op.id) == op.oldWeight
  {
    assert Chained(OpsOf(s.issued, op.id));
    NextOfRecord(s, op);
  }

  /** `op` is drained; what is left in the deque is counted by the last drained upsert. */
  lemma DrainInOrder(s: State, s': State, b: Book, b': Book, op: WriteOp)
    requires InOrder(s, b) && TableOrdered(s') && b'.leak == 0
    requires s'.issued == s.issued && s'.drained == s.drained + [op] && s'.maint.Free?
    requires |s'.infos| == |s.infos| && op.id < |s.infos|
    requires forall id :: 0 <= id < |s.infos| ==> s'.infos[id].weight == s.infos[id].weight
    requires forall id :: 0 <= id < |s.infos| && id != op.id ==> s'.infos[id] == s.infos[id]
    requires forall id :: id != op.id ==> CountOf(b', id) == CountOf(b, id)
    requires s'.infos[op.id].admitted ==> op.Upsert? && CountOf(b', op.id) == op.newWeight && !s'.infos[op.id].retired
    ensures InOrder(s', b')
  {
    hide OpsOf, LastWeight, Chained, TableOrdered, OnlyRemovalLeft, CountOf;
    forall id: Id | id != op.id ensures OpsOf(s'.drained, id) == OpsOf(s.drained, id) {
      OpsOfNext(s.drained, op, id);
    }
    OpsOfNext(s.drained, op, op.id);
    LastWeightNext(OpsOf(s.drained, op.id), op);
    forall id | 0 <= id < |s'.infos| && s'.infos[id].admitted && s'.infos[id].retired
      ensures OnlyRemovalLeft(s', id)
    {
      SameLeft(s, s', id);
    }
  }

  predicate FinishesUpsert(step: Step) {
    step.CheckAlive? || step.ApplyUpdate? || step.RejectCandidate? || step.AdmitCheck? || step.AdmitSet?
  }

  lemma FinishedUpsert(c: Config, s: State, step: Step)
    requires MaintOk(s) && Enabled(c, s, step) && FinishesUpsert(step) && Apply(c, s, step).maint.Free?
    ensures var s', op := Apply(c, s, step), s.maint.op;
      && s'.issued == s.issued && s'.drained == s.drained + [op] && |s'.infos| == |s.infos| && op.id < |s.infos|
      && (forall id :: 0 <= id < |s.infos| && id != op.id ==> s'.infos[id] == s.infos[id])
      && s'.infos[op.id].weight == s.infos[op.id].weight
      && (!step.RejectCandidate? ==> s'.infos[op.id].retired == s.infos[op.id].retired)
      && s'.infos[op.id].admitted == (step.AdmitSet? || s.infos[op.id].admitted)
      && (s'.infos[op.id].admitted && !s.infos[op.id].retired ==> step.AdmitSet? || step.ApplyUpdate?)
      && (s'.infos[op.id].admitted ==> !step.RejectCandidate?)
  {
    hide SetPolicyGen;
  }

  lemma UpsertDrained(c: Config, s: State, b: Book, step: Step)
    requires Inv(s) && InOrder(s, b) && Enabled(c, s, step) && Orderly(c, s, step)
    requires FinishesUpsert(step) && Apply(c, s, step).maint.Free?
    ensures InOrder(Apply(c, s, step), Entered(c, s, b, step))
  {
    hide Apply, OpsOf, LastWeight, Chained, OnlyRemovalLeft, RemovePending, Distinct;
    var s', op := Apply(c, s, step), s.maint.op;
    assert MaintOk(s) && RetiredClean(s) && TableOrdered(s) && b.leak == 0;
    hide Inv, InOrder;
    FinishedUpsert(c, s, step);
    assert OpsOf(s'.drained, op.id) <= OpsOf(s'.issued, op.id);
    hide TableOrdered;
    if s.infos[op.id].admitted {
      LiveWhileUpserting(s, op);
      ExchangeIsExact(s, b, op);
    }
    DrainInOrder(s, s', b, Entered(c, s, b, step), op);
  }

  lemma UpsertAdvanced(c: Config, s: State, b: Book, step: Step)
    requires Inv(s) && InOrder(s, b) && Enabled(c, s, step) && Orderly(c, s, step)
    requires FinishesUpsert(step) && !Apply(c, s, step).maint.Free?
    ensures InOrder(Apply(c, s, step), Entered(c, s, b, step))
  {
    hide Inv, OpsOf, LastWeight, Chained;
  }

  lemma RetiredIsCounted(s: State, b: Book, id: Id)
    requires InOrder(s, b) && id < |s.infos| && s.infos[id].retired && s.infos[id].admitted
    ensures CountOf(b, id) == s.infos[id].weight
  {
    hide OpsOf, LastWeight, CountOf, Chained;
    var drained, ops := OpsOf(s.drained, id), OpsOf(s.issued, id);
    assert OnlyRemovalLeft(s, id) && drained <= ops;
    LastWeightOfPrefix(ops, |drained|);
    assert ops[..|drained|] == drained;
  }

  /** A removal takes out exactly what is counted. */
  lemma CloseIsExact(s: State, b: Book, id: Id)
    requires InOrder(s, b) && id < |s.infos| && s.infos[id].retired
    ensures Close(s, b, id).leak == 0
    ensures forall x :: x != id ==> CountOf(Close(s, b, id), x) == CountOf(b, x)
  {
    hide Weighed, AllChained, CountsDrained, RetiredClean, TableOrdered;
    if s.infos[id].admitted { RetiredIsCounted(s, b, id); }
  }

  lemma RemovalDrained(c: Config, s: State, b: Book)
    requires Inv(s) && InOrder(s, b) && Enabled(c, s, DrainRemove) && Orderly(c, s, DrainRemove)
    ensures InOrder(Apply(c, s, DrainRemove), Entered(c, s, b, DrainRemove))
  {
    var op := s.channel[0];
    assert InLog(s.channel, op) >= 1;
    PendingIsIssued(s, op);
    hide Inv, OpsOf, LastWeight, Chained, OnlyRemovalLeft, InOrder, TableOrdered;
    CloseIsExact(s, b, op.id);
    DrainInOrder(s, Apply(c, s, DrainRemove), b, Entered(c, s, b, DrainRemove), op);
  }

  // ----- the other steps -------------------------------------------------------------------------------

  lemma RetireInOrder(c: Config, s: State, b: Book, step: Step)
    requires InOrder(s, b) && step.EvictRetire? && Enabled(c, s, step) && Orderly(c, s, step)
    ensures InOrder(Apply(c, s, step), b)
  {
    hide OpsOf, LastWeight, Chained, TableOrdered, CountOf;
    var s', gone := Apply(c, s, step), s.table[step.key];
    assert forall id: Id :: Chained(OpsOf(s'.issued, id)) by { assert s'.issued == s.issued; }
    forall id | 0 <= id < |s'.infos| && s'.infos[id].admitted && s'.infos[id].retired
      ensures OnlyRemovalLeft(s', id)
    {
      if id != gone { SameLeft(s, s', id); }
    }
  }

  lemma FinalizeInOrder(c: Config, s: State, b: Book, step: Step)
    requires Inv(s) && InOrder(s, b) && step.EvictFinalize? && Enabled(c, s, step) && Orderly(c, s, step)
    ensures InOrder(Apply(c, s, step), Entered(c, s, b, step))
  {
    assert HandOk(s);
    hide Inv, OpsOf, LastWeight, Chained, TableOrdered, CountOf, Close, OnlyRemovalLeft;
    CloseIsExact(s, b, step.id);
    var s' := Apply(c, s, step);
    assert s'.issued == s.issued && s'.drained == s.drained;
    forall id | 0 <= id < |s'.infos| && s'.infos[id].admitted && s'.infos[id].retired
      ensures OnlyRemovalLeft(s', id)
    {
      SameLeft(s, s', id);
    }
  }

  predicate Carries(step: Step) {
    step.BeginNotify? || step.FinishNotify? || step.BeginSend? || step.TrySend? || step.ClearGuard?
    || step.Cancel? || step.RetryReceive? || step.ReceiveUpsert? || step.DecideAdmit? || step.Reorder?
  }

  lemma CarryInOrder(c: Config, s: State, b: Book, step: Step)
    requires InOrder(s, b) && Enabled(c, s, step) && Carries(step)
    ensures InOrder(Apply(c, s, step), b)
  {
    hide OpsOf, LastWeight, Chained;
    var s' := Apply(c, s, step);
    assert s'.issued == s.issued && s'.drained == s.drained && s'.infos == s.infos;
  }

  lemma StepInOrder(c: Config, s: State, b: Book, step: Step)
    requires Inv(s) && InOrder(s, b) && Enabled(c, s, step) && Orderly(c, s, step)
    ensures InOrder(Apply(c, s, step), Entered(c, s, b, step))
  {
    hide Inv, InOrder, Orderly, Apply;
    if FinishesUpsert(step) {
      if Apply(c, s, step).maint.Free? { UpsertDrained(c, s, b, step); } else { UpsertAdvanced(c, s, b, step); }
    } else if Carries(step) {
      CarryInOrder(c, s, b, step);
    } else {
      match step
      case TableUpsert(_, _, _, _) => UpsertInOrder(c, s, b, step);
      case TableRemove(_, _) => RemoveInOrder(c, s, b, step);
      case DrainRemove => RemovalDrained(c, s, b);
      case EvictRetire(_) => RetireInOrder(c, s, b, step);
      case _ => FinalizeInOrder(c, s, b, step);
    }
  }

  lemma {:induction false} RunInOrder(c: Config, s0: State, b0: Book, steps: seq<Step>, s: State, b: Book)
    requires Inv(s0) && InOrder(s0, b0) && OrderlyRun(c, s0, b0, steps, s, b)
    ensures Inv(s) && InOrder(s, b) && BookRun(c, s0, b0, steps, s, b)
    decreases |steps|
  {
    if steps != [] {
      hide Inv, InOrder, Enabled, Apply, Unsaturated, Entered, Orderly;
      StepInOrder(c, s0, b0, steps[0]);
      StepInv(c, s0, steps[0]);
      RunInOrder(c, Apply(c, s0, steps[0]), Entered(c, s0, b0, steps[0]), steps[1..], s, b);
    }
  }

  /** Serial numbers grow along the ops of a record. */
  lemma {:induction false} OpsOfDistinct(log: seq<WriteOp>, id: Id)
    requires forall i :: 0 <= i < |log| ==> log[i].serial == i
    ensures Distinct(OpsOf(log, id))
  {
    if log != [] {
      var front := log[..|log| - 1];
      OpsOfDistinct(front, id);
      InOpsOf(front, id, log[|log| - 1]);
    }
  }

  /** Once everything is drained, it is drained record by record. */
  lemma QuiescentIsDrained(s: State, id: Id)
    requires Inv(s) && TableOrdered(s) && Quiescent(s)
    ensures AllDrained(s, id)
  {
    var drained, ops := OpsOf(s.drained, id), OpsOf(s.issued, id);
    assert drained <= ops;
    assert IssuedOk(s) && ExactlyOnce(s);
    hide Inv, TableOrdered, OpsOf;
    if |drained| < |ops| {
      var op := ops[|drained|];
      InOpsOf(s.issued, id, op);
      InOpsOf(s.drained, id, op);
      NothingInIdle(s.tasks, op);
      assert Pending(s, op) == 0;
      CountedInLog(s.drained, op);
      assert op in drained;
      OpsOfDistinct(s.issued, id);
    }
  }

  /** Over every orderly run in which nothing saturates, with any weigher, removals leave nothing
      behind: the counter is the sum of the weights last drained for the entries in the deque, and
      once everything is drained the sum of their current weights. */
  lemma OrderlyRunIsExact(c: Config, s0: State, steps: seq<Step>, s: State, b: Book)
    requires Init(s0) && OrderlyRun(c, s0, Book(map[], 0), steps, s, b)
    ensures b.leak == 0 && s.weightedSize == CountSum(b, s.deque)
    ensures forall id :: id in s.deque ==> id < |s.infos| && CountOf(b, id) == LastWeight(OpsOf(s.drained, id))
    ensures Quiescent(s) ==> forall id :: id in s.deque ==> id < |s.infos| && CountOf(b, id) == s.infos[id].weight
  {
    InitInv(s0);
    assert InOrder(s0, Book(map[], 0));
    RunInOrder(c, s0, Book(map[], 0), steps, s, b);
    WeightedSizeIsCounted(c, s0, steps, s, b);
    assert DequeOk(s);
    hide Inv, OpsOf, LastWeight, Chained, Quiescent;
    if Quiescent(s) {
      forall id | id in s.deque ensures CountOf(b, id) == s.infos[id].weight { QuiescentIsDrained(s, id); }
    }
  }
}
