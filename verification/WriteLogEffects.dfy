/** What the steps of the write-log protocol do to the cache as its clients see it, to the operations on
    their way, and to the policy's deque and counters. */
module WriteLogEffects {
  import opened Common
  import opened PolicyRecord
  import opened WriteLog
  import opened WriteLogInvariant
  import opened WriteLogSteps
  import opened WriteLogPolicy

  // ----- the table -----------------------------------------------------------------------------------

  /** The operation in maintenance is about the entry under `k`, and carries its present generation. */
  ghost predicate IsLatestOf(s: State, k: Key) {
    && k in s.table && s.table[k] < |s.infos| && !s.maint.Free?
    && s.maint.op.id == s.table[k] && s.maint.op.gen == s.infos[s.table[k]].entryGen
  }

  /** The steps that take a key out of the table: a client's removal, an eviction, and the rejection of
      a candidate by the operation that carries the entry's present generation.  An older operation
      never does. */
  ghost predicate Unlinks(s: State, step: Step, k: Key) {
    || (step.TableRemove? && step.key == k)
    || (step.EvictRetire? && step.key == k)
    || (step.RejectCandidate? && IsLatestOf(s, k))
  }

  predicate ChangesTable(step: Step) {
    step.TableUpsert? || step.TableRemove? || step.EvictRetire? || step.RejectCandidate?
  }

  lemma OtherStepsKeepTable(c: Config, s: State, step: Step)
    requires Enabled(c, s, step) && !ChangesTable(step)
    ensures Apply(c, s, step).table == s.table
  {
    hide Without, SetPolicyGen;
  }

  /** A key leaves the table exactly by those steps, its record is then retired, and otherwise the same
      record stays; only an insert adds a key, with a record of its own. */
  ghost predicate TableStep(s: State, step: Step, s': State, k: Key) {
    && (k in s.table ==> (k !in s'.table <==> Unlinks(s, step, k)))
    && (k in s.table && k in s'.table ==> s'.table[k] == s.table[k])
    && (k in s.table && k !in s'.table ==> s.table[k] < |s'.infos| && s'.infos[s.table[k]].retired)
    && (k !in s.table ==> (k in s'.table <==> step.TableUpsert? && step.key == k))
    && (k !in s.table && k in s'.table ==> s'.table[k] == |s.infos| < |s'.infos|)
  }

  lemma TableChangesBy(c: Config, s: State, step: Step, k: Key)
    requires TableOk(s) && Enabled(c, s, step) && ChangesTable(step)
    ensures TableStep(s, step, Apply(c, s, step), k)
  {
    hide SetPolicyGen;
  }

  lemma TableChanges(c: Config, s: State, step: Step, k: Key)
    requires Inv(s) && Enabled(c, s, step)
    ensures TableStep(s, step, Apply(c, s, step), k)
  {
    hide Apply, Enabled, IsLatestOf;
    assert TableOk(s);
    hide Inv, TableOk;
    if ChangesTable(step) { TableChangesBy(c, s, step, k); } else { OtherStepsKeepTable(c, s, step); }
  }

  /** What a lookup finds: the weight and the access time of the value. */
  ghost function Contents(s: State): map<Key, (nat, Option<nat>)>
    requires TableOk(s)
  {
    map k | k in s.table :: (s.infos[s.table[k]].weight, s.infos[s.table[k]].lastAccessed)
  }

  /** The cache is a map of last writes: a step writes one key, takes one out, or leaves all as it is. */
  lemma ContentsChange(c: Config, s: State, step: Step)
    requires Inv(s) && Enabled(c, s, step)
    ensures var s' := Apply(c, s, step);
      && TableOk(s) && TableOk(s')
      && (forall k :: k in Contents(s') <==>
            (k in Contents(s) && !Unlinks(s, step, k)) || (step.TableUpsert? && step.key == k))
      && (forall k :: k in Contents(s') ==>
            if step.TableUpsert? && step.key == k then Contents(s')[k] == (step.weight, Some(step.ts))
            else k in Contents(s) && Contents(s')[k] == Contents(s)[k])
  {
    StepInv(c, s, step);
    var s' := Apply(c, s, step);
    assert TableOk(s) && TableOk(s');
    hide Inv, TableOk, Unlinks, Apply;
    forall k ensures k in Contents(s') <==>
                       (k in Contents(s) && !Unlinks(s, step, k)) || (step.TableUpsert? && step.key == k)
    {
      TableChanges(c, s, step, k);
    }
    forall k | k in Contents(s')
      ensures if step.TableUpsert? && step.key == k then Contents(s')[k] == (step.weight, Some(step.ts))
              else k in Contents(s) && Contents(s')[k] == Contents(s)[k]
    {
      TableChanges(c, s, step, k);
      ValueOf(c, s, step, k);
    }
  }

  ghost predicate SameValues(infos: seq<EntryInfo>, infos': seq<EntryInfo>) {
    && |infos'| == |infos|
    && (forall id :: 0 <= id < |infos| ==>
          infos'[id].weight == infos[id].weight && infos'[id].lastAccessed == infos[id].lastAccessed)
  }

  lemma OneRecordChanged(infos: seq<EntryInfo>, id: Id, e: EntryInfo)
    requires id < |infos| && e.weight == infos[id].weight && e.lastAccessed == infos[id].lastAccessed
    ensures SameValues(infos, infos[id := e])
  {
  }

  /** Only an upsert changes what a record says about its value. */
  lemma ValuesKept(c: Config, s: State, step: Step)
    requires Enabled(c, s, step) && !step.TableUpsert?
    ensures SameValues(s.infos, Apply(c, s, step).infos)
  {
    var infos' := Apply(c, s, step).infos;
    var id := TouchedRecord(c, s, step);
    assert infos' == s.infos || (id < |s.infos| == |infos'| && infos' == s.infos[id := infos'[id]]);
    assert id < |s.infos| == |infos'| ==>
      infos'[id].weight == s.infos[id].weight && infos'[id].lastAccessed == s.infos[id].lastAccessed;
    hide Apply, Enabled, TouchedRecord;
    if infos' != s.infos { OneRecordChanged(s.infos, id, infos'[id]); }
  }

  /** The one record a step may change. */
  function TouchedRecord(c: Config, s: State, step: Step): Id
    requires Enabled(c, s, step)
  {
    match step
    case TableRemove(_, k) => s.table[k]
    case EvictRetire(k) => s.table[k]
    case EvictFinalize(id) => id
    case DrainRemove => s.channel[0].id
    case _ => if s.maint.Free? then 0 else s.maint.op.id
  }

  lemma UpsertValue(c: Config, s: State, step: Step, k: Key)
    requires TableOk(s) && step.TableUpsert? && Enabled(c, s, step) && k in Apply(c, s, step).table
    ensures var s' := Apply(c, s, step);
      s'.table[k] < |s'.infos| &&
      var e := s'.infos[s'.table[k]];
      if step.key == k then e.weight == step.weight && e.lastAccessed == Some(step.ts)
      else k in s.table && s.table[k] < |s.infos| && e == s.infos[s.table[k]]
  {
  }

  lemma ValueOf(c: Config, s: State, step: Step, k: Key)
    requires TableOk(s) && Enabled(c, s, step) && k in Apply(c, s, step).table
    requires TableStep(s, step, Apply(c, s, step), k)
    ensures var s' := Apply(c, s, step);
      s'.table[k] < |s'.infos| &&
      var e := s'.infos[s'.table[k]];
      if step.TableUpsert? && step.key == k then e.weight == step.weight && e.lastAccessed == Some(step.ts)
      else
        && k in s.table && s.table[k] < |s.infos|
        && e.weight == s.infos[s.table[k]].weight && e.lastAccessed == s.infos[s.table[k]].lastAccessed
  {
    hide Apply, Enabled, Unlinks;
    if step.TableUpsert? { UpsertValue(c, s, step, k); } else { ValuesKept(c, s, step); }
  }

  /** Over every run, while no record has been changed 65536 times: a rejection takes a key out of the
      table only for the last change of its entry.  A value written after the one being rejected, by
      whatever client, is not lost. */
  lemma NewerChangeSurvives(c: Config, s0: State, steps: seq<Step>, s: State, k: Key)
    requires Init(s0) && Run(c, s0, steps, s) && NoWrap(s)
    requires Enabled(c, s, RejectCandidate) && k in s.table
    requires exists n :: s.maint.op.serial < n < |s.issued| && s.issued[n].id == s.table[k]
    ensures var s' := Apply(c, s, RejectCandidate); k in s'.table && s'.table[k] == s.table[k]
  {
    assert GensOk(s0) by { assert s0.issued == []; }
    hide Inv, GensOk, NoWrap, Apply, Enabled;
    InitInv(s0);
    RunInv(c, s0, steps, s);
    RunGens(c, s0, steps, s);
    TableChanges(c, s, RejectCandidate, k);
    if IsLatestOf(s, k) {
      var n :| s.maint.op.serial < n < |s.issued| && s.issued[n].id == s.table[k];
      CurrentIsPending(s);
      OlderGen(s, s.maint.op.serial, n);
    }
  }

  /** Which verdict on a checked candidate is possible, in numbers: one that fits is admitted, one that
      can never fit is rejected, and any other is admitted under LRU and contested under TinyLFU. */
  lemma VerdictsPossible(c: Config, s: State)
    requires MaintOk(s) && s.maint.Checked? && s.hand == {} && !s.infos[s.maint.op.id].admitted
    ensures var w := s.maint.op.newWeight;
      if c.maxCapacity.None? || s.weightedSize + w <= c.maxCapacity.value then
        Enabled(c, s, DecideAdmit) && !Enabled(c, s, RejectCandidate)
      else if w > c.maxCapacity.value then
        !Enabled(c, s, DecideAdmit) && Enabled(c, s, RejectCandidate)
      else
        Enabled(c, s, DecideAdmit) && (Enabled(c, s, RejectCandidate) <==> c.policy == TinyLfu)
  {
    hide RemovePending;
  }

  // ----- the records ---------------------------------------------------------------------------------------

  /** The operation a step finishes, if it finishes one. */
  ghost function Finished(s: State, s': State): Option<WriteOp> {
    if |s'.drained| == |s.drained| + 1 then Some(s'.drained[|s.drained|]) else None
  }

  /** A candidate that could fit lost its contest, and has been changed since. */
  ghost predicate LostAsStale(c: Config, s: State, step: Step) {
    && step.RejectCandidate? && Enabled(c, s, step)
    && !IsLatestOf(s, s.infos[s.maint.op.id].key) && s.maint.op.newWeight <= c.maxCapacity.value
  }

  /** The flags and generations of record `id` after a step.  It is retired when its key leaves the table,
      admitted and dismissed by the steps that move its node, and settled by every operation on it that
      is finished, but for one that lost as stale. */
  ghost predicate RecordStep(c: Config, s: State, step: Step, s': State, id: Id)
    requires id < |s.infos|
  {
    && |s.infos| <= |s'.infos|
    && var e, e' := s.infos[id], s'.infos[id];
    && e'.key == e.key
    && (e'.retired <==> e.retired || (Unlinks(s, step, e.key) && e.key in s.table && s.table[e.key] == id))
    && (e'.admitted <==>
          || (step.AdmitSet? && !s.maint.Free? && s.maint.op.id == id)
          || (e.admitted && step != EvictFinalize(id)
              && !(step.DrainRemove? && s.channel != [] && s.channel[0].id == id)))
    && e'.policyGen ==
         (if Finished(s, s').Some? && Finished(s, s').value.id == id && !LostAsStale(c, s, step)
          then SetPolicyGen(e.policyGen, Finished(s, s').value.gen) else e.policyGen)
    && (e'.entryGen != e.entryGen ==> step.TableUpsert? || step.TableRemove?)
  }

  lemma ClientRecordStep(c: Config, s: State, step: Step, id: Id)
    requires TableOk(s) && Enabled(c, s, step) && !MayDrain(step) && id < |s.infos|
    ensures RecordStep(c, s, step, Apply(c, s, step), id)
  {
    hide SetPolicyGen, Without;
  }

  lemma DrainRecordStep(c: Config, s: State, step: Step, id: Id)
    requires MaintOk(s) && Enabled(c, s, step) && MayDrain(step) && !step.RejectCandidate? && id < |s.infos|
    ensures RecordStep(c, s, step, Apply(c, s, step), id)
  {
    hide SetPolicyGen, Without, RemovePending, IsLatestOf;
  }

  lemma RejectRecordStep(c: Config, s: State, id: Id)
    requires TableOk(s) && MaintOk(s) && Enabled(c, s, RejectCandidate) && id < |s.infos|
    ensures RecordStep(c, s, RejectCandidate, Apply(c, s, RejectCandidate), id)
  {
    hide SetPolicyGen, RemovePending;
  }

  lemma RecordChanges(c: Config, s: State, step: Step, id: Id)
    requires Inv(s) && Enabled(c, s, step) && id < |s.infos|
    ensures RecordStep(c, s, step, Apply(c, s, step), id)
  {
    hide Apply, Enabled, RecordStep;
    assert TableOk(s) && MaintOk(s);
    hide Inv, TableOk, MaintOk;
    if step.RejectCandidate? { RejectRecordStep(c, s, id); }
    else if MayDrain(step) { DrainRecordStep(c, s, step, id); }
    else { ClientRecordStep(c, s, step, id); }
  }

  // ----- operations on their way -----------------------------------------------------------------------

  /** A table change issues one operation and hands it to the client that made it. */
  ghost predicate Issues(s: State, s': State, t: nat, op: WriteOp) {
    && s'.issued == s.issued + [op] && op.serial == |s.issued|
    && t < |s.tasks| && s'.tasks == s.tasks[t := Task(Mutated, false, Some(op), EMPTY_GUARD)]
    && s'.channel == s.channel && s'.interrupted == s.interrupted && s'.maint == s.maint && s'.hand == s.hand
    && s'.drained == s.drained
    && s'.deque == s.deque && s'.entryCount == s.entryCount && s'.weightedSize == s.weightedSize
  }

  /** An insert makes a fresh record of generation 1; its operation takes nothing out. */
  lemma InsertIssues(c: Config, s: State, t: nat, k: Key, w: nat, ts: nat)
    requires Enabled(c, s, TableUpsert(t, k, w, ts)) && k !in s.table
    ensures var s' := Apply(c, s, TableUpsert(t, k, w, ts));
      && Issues(s, s', t, Upsert(|s.issued|, |s.infos|, 1, 0, w))
      && s'.infos == s.infos + [EntryInfo(k, false, false, 1, 0, w, Some(ts))]
  {
  }

  /** An update shares the record and moves its generation on; its operation takes out the weight the
      entry had and puts in the new one. */
  lemma UpdateIssues(c: Config, s: State, t: nat, k: Key, w: nat, ts: nat)
    requires Enabled(c, s, TableUpsert(t, k, w, ts)) && k in s.table
    ensures var s', id := Apply(c, s, TableUpsert(t, k, w, ts)), s.table[k];
      var e, gen := s.infos[id], (s.infos[id].entryGen + 1) % 65536;
      && Issues(s, s', t, Upsert(|s.issued|, id, gen, e.weight, w))
      && s'.infos == s.infos[id := EntryInfo(e.key, e.admitted, e.retired, gen, e.policyGen, w, Some(ts))]
  {
  }

  /** A removal retires the record and moves its generation on. */
  lemma RemovalIssues(c: Config, s: State, t: nat, k: Key)
    requires Enabled(c, s, TableRemove(t, k))
    ensures var s', id := Apply(c, s, TableRemove(t, k)), s.table[k];
      var e, gen := s.infos[id], (s.infos[id].entryGen + 1) % 65536;
      && Issues(s, s', t, Remove(|s.issued|, id, gen))
      && s'.infos == s.infos[id := EntryInfo(e.key, e.admitted, true, gen, e.policyGen, e.weight, e.lastAccessed)]
  {
  }

  /** The write channel is first in, first out: operations go in at its end as clients send what they
      owe, and come out at its front into the maintenance run. */
  lemma ChannelIsFifo(c: Config, s: State, step: Step)
    requires Inv(s) && Enabled(c, s, step)
    ensures var s' := Apply(c, s, step);
      if step.TrySend? then
        Owed(s.tasks[step.t]).Some? && s'.channel == s.channel + [Owed(s.tasks[step.t]).value]
      else if step.ReceiveUpsert? then
        s.channel != [] && s'.channel == s.channel[1..] && s'.maint == Received(s.channel[0]) && s'.drained == s.drained
      else if step.DrainRemove? then
        s.channel != [] && s'.channel == s.channel[1..] && s'.maint == Free && s'.drained == s.drained + [s.channel[0]]
      else s'.channel == s.channel
  {
    assert TasksOk(s);
    hide Inv, Without, SetPolicyGen;
    if step.TrySend? { assert TaskOk(s.tasks[step.t]); }
  }

  /** A call can be dropped wherever it awaits something, and can send unless the channel holds 384
      operations. */
  lemma ClientsMay(c: Config, s: State, t: nat)
    requires TasksOk(s) && t < |s.tasks|
    ensures Enabled(c, s, Cancel(t)) <==> s.tasks[t].pc.Idle? || s.tasks[t].pc.Notifying? || s.tasks[t].pc.Sending?
    ensures Enabled(c, s, TrySend(t)) <==> s.tasks[t].pc.Sending? && |s.channel| < 384
  {
    assert TaskOk(s.tasks[t]);
  }

  /** A call that is dropped leaves its operation behind, and the call that takes it up goes on where it
      was: notifying again if the listener had not returned, sending otherwise. */
  lemma ResumesWhereDropped(c: Config, s: State, t: nat, later: State, u: nat)
    requires Inv(s) && Enabled(c, s, Cancel(t)) && Enabled(c, later, RetryReceive(u))
    ensures Owed(s.tasks[t]).None? ==> Apply(c, s, Cancel(t)).interrupted == s.interrupted
    ensures Owed(s.tasks[t]).Some? ==>
      var dropped := Apply(c, s, Cancel(t));
      && |dropped.interrupted| == |s.interrupted| + 1 && dropped.interrupted[..|s.interrupted|] == s.interrupted
      && (later.interrupted[0] == dropped.interrupted[|s.interrupted|] ==>
            var resumed := Apply(c, later, RetryReceive(u));
            && resumed.tasks[u].pc == s.tasks[t].pc && Owed(resumed.tasks[u]) == Owed(s.tasks[t])
            && resumed.interrupted == later.interrupted[1..])
  {
    assert TasksOk(s) && TaskOk(s.tasks[t]);
    hide Inv;
  }

  // ----- deque and counters ------------------------------------------------------------------------------

  /** The counters and the deque after the record of `id` has left, if it was there. */
  ghost predicate LeftBy(s: State, s': State, id: Id)
    requires id < |s.infos|
  {
    if s.infos[id].admitted then
      && s'.deque == Without(s.deque, id) && s'.entryCount == s.entryCount - 1
      && s'.weightedSize == if s.infos[id].weight <= s.weightedSize then s.weightedSize - s.infos[id].weight else 0
    else s'.deque == s.deque && s'.entryCount == s.entryCount && s'.weightedSize == s.weightedSize
  }

  /** Admission appends a node and adds the operation's weight; an update makes its node the most recently
      used one and exchanges the weights; removals and evictions take one node and its record's weight out;
      no other step touches order or counters, but for moves of single nodes to the back. */
  lemma PolicyChanges(c: Config, s: State, step: Step)
    requires Inv(s) && Enabled(c, s, step)
    ensures var s' := Apply(c, s, step);
      match step
      case AdmitSet =>
        && s'.deque == s.deque + [s.maint.op.id] && s'.entryCount == s.entryCount + 1
        && s'.weightedSize == SatAdd(s.weightedSize, s.maint.op.newWeight)
      case ApplyUpdate =>
        && s'.deque == Without(s.deque, s.maint.op.id) + [s.maint.op.id] && s'.entryCount == s.entryCount
        && s'.weightedSize == SatAdd(SatSub(s.weightedSize, s.maint.op.oldWeight), s.maint.op.newWeight)
      case DrainRemove => LeftBy(s, s', s.channel[0].id)
      case EvictFinalize(id) => LeftBy(s, s', id)
      case Reorder(i) =>
        s'.deque == ToBack(s.deque, i) && s'.entryCount == s.entryCount && s'.weightedSize == s.weightedSize
      case _ => s'.deque == s.deque && s'.entryCount == s.entryCount && s'.weightedSize == s.weightedSize
  {
    assert DequeOk(s);
    hide Inv, Without, SetPolicyGen, Distinct;
  }
}
