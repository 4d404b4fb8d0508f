/** The write-log protocol of the asynchronous cache, as a transition system.

    A client call first changes the hash table and only later delivers the matching
    `WriteOp` to the maintenance task.  In between it may be suspended, cancelled, or
    overtaken by other clients, so ops can reach the write channel in an order other
    than the order of the table changes.  One maintenance task at a time drains the
    channel and updates the policy state (access-order deque and counters).

    The hash table is a map whose `insert_with_or_modify` and `remove_entry_if_and`
    are single steps; everything else is interleaved at the granularity at which
    another task can observe or change shared state. */
module WriteLog {
  import opened Common
  import opened PolicyRecord

  /** A logged table change.  `serial` numbers the table changes; it is not in the
      program and only gives every op an identity. */
  datatype WriteOp =
    | Upsert(serial: nat, id: Id, gen: nat, oldWeight: nat, newWeight: nat)
    | Remove(serial: nat, id: Id, gen: nat)

  datatype InterruptedOp =
    | CallEvictionListener(op: WriteOp)
    | SendWriteOp(op: WriteOp)

  /** Drop guard of a client task; `future` tells whether a listener future is saved. */
  datatype CancelGuard = CancelGuard(future: bool, op: Option<WriteOp>)

  const EMPTY_GUARD := CancelGuard(false, None)

  /** What dropping the guard sends to the interrupted-op channel. */
  function DropGuard(g: CancelGuard): (r: seq<InterruptedOp>) {
    match g.op
    case None => []
    case Some(op) => if g.future then [CallEvictionListener(op)] else [SendWriteOp(op)]
  }

  /** Where a client call stands.  `Idle`, `Notifying` and `Sending` are await points,
      the only places where a future can be dropped. */
  datatype Pc = Idle | Mutated | Notifying | Notified | Sending | Sent

  /** A client call: the op in its local variable and the op saved in its guard.
      `retrying` marks a call that is inside `retry_interrupted_ops`. */
  datatype Task = Task(pc: Pc, retrying: bool, op: Option<WriteOp>, guard: CancelGuard)

  const IDLE_TASK := Task(Idle, false, None, EMPTY_GUARD)

  /** Where the maintenance task stands in `handle_upsert`/`handle_admit`. */
  datatype Maint =
    | Free                    // between ops
    | Received(op: WriteOp)   // popped an upsert, liveness not yet checked
    | Checked(op: WriteOp)    // `is_alive` held at the top of `handle_upsert`
    | ToAdmit(op: WriteOp)    // about to call `handle_admit`
    | Admitting(op: WriteOp)  // `is_alive` held inside `handle_admit`

  datatype Policy = TinyLfu | Lru

  datatype Config = Config(maxCapacity: Option<nat>, policy: Policy)

  const WRITE_LOG_CH_SIZE: nat := 384

  datatype State = State(
    table: map<Key, Id>,
    infos: seq<EntryInfo>,
    tasks: seq<Task>,
    interrupted: seq<InterruptedOp>,
    channel: seq<WriteOp>,
    maint: Maint,
    hand: set<Id>,          // retired by maintenance, `handle_remove` still to come
    deque: seq<Id>,         // access-order (probation) deque
    entryCount: int,
    weightedSize: nat,
    issued: seq<WriteOp>,   // history: the op of every table change
    drained: seq<WriteOp>,  // history: ops whose handling is complete
    late: nat)              // history: insert ops drained after their entry was admitted

  ghost predicate Init(s: State) {
    && s.table == map[] && s.infos == [] && s.interrupted == [] && s.channel == []
    && (forall t :: 0 <= t < |s.tasks| ==> s.tasks[t] == IDLE_TASK)
    && s.maint == Free && s.hand == {} && s.deque == []
    && s.entryCount == 0 && s.weightedSize == 0 && s.issued == [] && s.drained == []
    && s.late == 0
  }

  function WithPolicyGen(infos: seq<EntryInfo>, id: Id, gen: nat): seq<EntryInfo>
    requires id < |infos|
  {
    infos[id := Settled(infos[id], gen)]
  }

  function Retire(infos: seq<EntryInfo>, id: Id): seq<EntryInfo>
    requires id < |infos|
  {
    infos[id := Retired(infos[id])]
  }

  predicate HasEnoughCapacity(c: Config, s: State, weight: nat) {
    c.maxCapacity.None? || s.weightedSize + weight <= c.maxCapacity.value
  }

  datatype Step =
    // client steps
    | TableUpsert(t: nat, key: Key, weight: nat, ts: nat)
    | TableRemove(t: nat, key: Key)
    | BeginNotify(t: nat)
    | FinishNotify(t: nat)
    | BeginSend(t: nat)
    | TrySend(t: nat)
    | ClearGuard(t: nat)
    | Cancel(t: nat)
    | RetryReceive(t: nat)
    // maintenance steps
    | DrainRemove
    | ReceiveUpsert
    | CheckAlive
    | ApplyUpdate
    | DecideAdmit
    | RejectCandidate
    | AdmitCheck
    | AdmitSet
    | EvictRetire(key: Key)
    | EvictFinalize(id: Id)
    | Reorder(i: nat)

  /** Maintenance may unlink table entries (expiry, invalidation, size eviction) between
      ops, and TinyLFU victims while a checked candidate is being decided. */
  predicate MayEvict(s: State) {
    s.maint.Free?
    || (s.maint.Checked? && s.maint.op.id < |s.infos| && !s.infos[s.maint.op.id].admitted)
  }

  predicate Enabled(c: Config, s: State, step: Step) {
    match step
    case TableUpsert(t, k, w, ts) =>
      t < |s.tasks| && s.tasks[t] == IDLE_TASK && (k in s.table ==> s.table[k] < |s.infos|)
    case TableRemove(t, k) =>
      t < |s.tasks| && s.tasks[t] == IDLE_TASK && k in s.table && s.table[k] < |s.infos|
    case BeginNotify(t) =>
      t < |s.tasks| && s.tasks[t].pc.Mutated? && s.tasks[t].op.Some?
    case FinishNotify(t) =>
      t < |s.tasks| && s.tasks[t].pc.Notifying? && s.tasks[t].guard.op.Some?
    case BeginSend(t) =>
      t < |s.tasks| && s.tasks[t].pc in {Mutated, Notified} && s.tasks[t].op.Some?
    case TrySend(t) =>
      && t < |s.tasks| && s.tasks[t].pc.Sending? && s.tasks[t].op.Some?
      && |s.channel| < WRITE_LOG_CH_SIZE
    case ClearGuard(t) =>
      t < |s.tasks| && s.tasks[t].pc.Sent?
    case Cancel(t) =>
      t < |s.tasks| && s.tasks[t].pc in {Idle, Notifying, Sending}
    case RetryReceive(t) =>
      t < |s.tasks| && s.tasks[t] == IDLE_TASK && s.interrupted != []
    case DrainRemove =>
      s.maint.Free? && s.hand == {} && s.channel != [] && s.channel[0].Remove?
      && s.channel[0].id < |s.infos|
    case ReceiveUpsert =>
      s.maint.Free? && s.hand == {} && s.channel != [] && s.channel[0].Upsert?
    case CheckAlive =>
      s.maint.Received? && s.maint.op.id < |s.infos|
    case ApplyUpdate =>
      s.maint.Checked? && s.maint.op.Upsert? && s.maint.op.id < |s.infos|
      && s.infos[s.maint.op.id].admitted
    case DecideAdmit =>
      && s.maint.Checked? && s.maint.op.Upsert? && s.maint.op.id < |s.infos|
      && s.hand == {} && !s.infos[s.maint.op.id].admitted
      && (HasEnoughCapacity(c, s, s.maint.op.newWeight)
          || s.maint.op.newWeight <= c.maxCapacity.value)
    case RejectCandidate =>
      && s.maint.Checked? && s.maint.op.Upsert? && s.maint.op.id < |s.infos|
      && s.hand == {} && !s.infos[s.maint.op.id].admitted
      && !HasEnoughCapacity(c, s, s.maint.op.newWeight)
      && (s.maint.op.newWeight > c.maxCapacity.value || c.policy.TinyLfu?)
    case AdmitCheck =>
      s.maint.ToAdmit? && s.maint.op.id < |s.infos|
    case AdmitSet =>
      s.maint.Admitting? && s.maint.op.Upsert? && s.maint.op.id < |s.infos|
    case EvictRetire(k) =>
      MayEvict(s) && k in s.table && s.table[k] < |s.infos|
    case EvictFinalize(id) =>
      MayEvict(s) && id in s.hand && id < |s.infos|
    case Reorder(i) =>
      MayEvict(s) && i < |s.deque|
  }

  /** The table change of an insert or an update: an insert allocates a fresh record, an
      update shares the existing one and bumps its generation. */
  function UpsertTable(s: State, t: nat, k: Key, w: nat, ts: nat): State
    requires t < |s.tasks| && (k in s.table ==> s.table[k] < |s.infos|)
  {
    if k in s.table then
      var id := s.table[k];
      var e := s.infos[id];
      var gen := (e.entryGen + 1) % U16_MOD;
      var op := Upsert(|s.issued|, id, gen, e.weight, w);
      s.(infos := s.infos[id := e.(entryGen := gen, weight := w, lastAccessed := Some(ts))],
         tasks := s.tasks[t := Task(Mutated, false, Some(op), EMPTY_GUARD)],
         issued := s.issued + [op])
    else
      var id := |s.infos|;
      var op := Upsert(|s.issued|, id, 1, 0, w);
      s.(table := s.table[k := id],
         infos := s.infos + [EntryInfo(k, false, false, 1, 0, w, Some(ts))],
         tasks := s.tasks[t := Task(Mutated, false, Some(op), EMPTY_GUARD)],
         issued := s.issued + [op])
  }

  /** Unlink from the table, retire, and build the `Remove` op.  The generation bump that
      follows the unlink is folded in: no other step reads the generation of a retired
      record. */
  function RemoveFromTable(s: State, t: nat, k: Key): State
    requires t < |s.tasks| && k in s.table && s.table[k] < |s.infos|
  {
    var id := s.table[k];
    var gen := (s.infos[id].entryGen + 1) % U16_MOD;
    var op := Remove(|s.issued|, id, gen);
    s.(table := s.table - {k},
       infos := s.infos[id := s.infos[id].(retired := true, entryGen := gen)],
       tasks := s.tasks[t := Task(Mutated, false, Some(op), EMPTY_GUARD)],
       issued := s.issued + [op])
  }

  function LedgerOf(s: State): Ledger {
    Ledger(s.deque, s.entryCount, s.weightedSize)
  }

  function WithLedger(s: State, l: Ledger): State {
    s.(deque := l.deque, entryCount := l.entryCount, weightedSize := l.weightedSize)
  }

  /** `handle_remove_without_timer_wheel`: undo the admission of a retired record. */
  function HandleRemove(s: State, id: Id): State
    requires id < |s.infos|
  {
    if s.infos[id].admitted then
      WithLedger(s, Leave(LedgerOf(s), id, s.infos[id].weight)).(
        infos := s.infos[id := s.infos[id].(admitted := false)])
    else
      s
  }

  /** The current op is completely handled. */
  function Finish(s: State, op: WriteOp, infos: seq<EntryInfo>): State {
    s.(infos := infos, maint := Free, drained := s.drained + [op])
  }

  function Apply(c: Config, s: State, step: Step): State
    requires Enabled(c, s, step)
  {
    match step
    case TableUpsert(t, k, w, ts) => UpsertTable(s, t, k, w, ts)
    case TableRemove(t, k) => RemoveFromTable(s, t, k)
    case BeginNotify(t) =>
      var task := s.tasks[t];
      s.(tasks := s.tasks[t := task.(pc := Notifying, guard := CancelGuard(true, task.op))])
    case FinishNotify(t) =>
      var task := s.tasks[t];
      if task.guard.op.value.Upsert? && !task.retrying then
        s.(tasks := s.tasks[t := task.(pc := Notified, op := task.guard.op, guard := EMPTY_GUARD)])
      else
        s.(tasks := s.tasks[t := task.(pc := Sending, op := task.guard.op,
                                       guard := CancelGuard(false, task.guard.op))])
    case BeginSend(t) =>
      var task := s.tasks[t];
      s.(tasks := s.tasks[t := task.(pc := Sending, guard := CancelGuard(false, task.op))])
    case TrySend(t) =>
      s.(tasks := s.tasks[t := s.tasks[t].(pc := Sent)],
         channel := s.channel + [s.tasks[t].op.value])
    case ClearGuard(t) =>
      s.(tasks := s.tasks[t := IDLE_TASK])
    case Cancel(t) =>
      s.(tasks := s.tasks[t := IDLE_TASK],
         interrupted := s.interrupted + DropGuard(s.tasks[t].guard))
    case RetryReceive(t) =>
      var task := match s.interrupted[0]
        case CallEvictionListener(op) => Task(Notifying, true, None, CancelGuard(true, Some(op)))
        case SendWriteOp(op) => Task(Sending, true, Some(op), CancelGuard(false, Some(op)));
      s.(tasks := s.tasks[t := task], interrupted := s.interrupted[1..])
    case DrainRemove =>
      var op := s.channel[0];
      var r := HandleRemove(s, op.id);
      Finish(r, op, WithPolicyGen(r.infos, op.id, op.gen)).(channel := s.channel[1..])
    case ReceiveUpsert =>
      s.(maint := Received(s.channel[0]), channel := s.channel[1..])
    case CheckAlive =>
      var op := s.maint.op;
      if s.infos[op.id].retired then Finish(s, op, WithPolicyGen(s.infos, op.id, op.gen))
      else s.(maint := Checked(op))
    case ApplyUpdate =>
      var op := s.maint.op;
      Finish(s, op, WithPolicyGen(s.infos, op.id, op.gen)).(
        weightedSize := SatAdd(SatSub(s.weightedSize, op.oldWeight), op.newWeight),
        deque := if op.id in s.deque then Without(s.deque, op.id) + [op.id] else s.deque,
        late := if op.oldWeight == 0 then s.late + 1 else s.late)
    case DecideAdmit => s.(maint := ToAdmit(s.maint.op))
    case RejectCandidate =>
      var op := s.maint.op;
      var k := s.infos[op.id].key;
      if k in s.table && s.table[k] == op.id && s.infos[op.id].entryGen == op.gen then
        var infos := Retire(s.infos, op.id);
        Finish(s, op, WithPolicyGen(infos, op.id, op.gen)).(table := s.table - {k})
      else if op.newWeight > c.maxCapacity.value then
        Finish(s, op, WithPolicyGen(s.infos, op.id, op.gen))
      else
        Finish(s, op, s.infos)
    case AdmitCheck =>
      var op := s.maint.op;
      if s.infos[op.id].retired then Finish(s, op, WithPolicyGen(s.infos, op.id, op.gen))
      else s.(maint := Admitting(op))
    case AdmitSet =>
      var op := s.maint.op;
      var infos := s.infos[op.id := s.infos[op.id].(admitted := true)];
      WithLedger(Finish(s, op, WithPolicyGen(infos, op.id, op.gen)), Join(LedgerOf(s), op.id, op.newWeight))
    case EvictRetire(k) =>
      s.(table := s.table - {k}, infos := Retire(s.infos, s.table[k]), hand := s.hand + {s.table[k]})
    case EvictFinalize(id) =>
      HandleRemove(s, id).(hand := s.hand - {id})
    case Reorder(i) =>
      s.(deque := ToBack(s.deque, i))
  }

  /** `s` is reached from `s0` by performing `steps` in order. */
  ghost predicate Run(c: Config, s0: State, steps: seq<Step>, s: State)
    decreases |steps|
  {
    if steps == [] then s == s0
    else Enabled(c, s0, steps[0]) && Run(c, Apply(c, s0, steps[0]), steps[1..], s)
  }

  ghost predicate Reachable(c: Config, s: State) {
    exists s0, steps :: Init(s0) && Run(c, s0, steps, s)
  }
}
