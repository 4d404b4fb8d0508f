/** The per-key single-flight protocol of `ValueInitializer`: `get_with`-style initialization
    (`try_init_or_read`) and per-key compute (`try_compute`, `try_compute_if_nobody_else`),
    as a transition system over concurrent calls that may panic or be aborted. */
module SingleFlight {
  import opened Common

  type Key = nat
  type V = int
  type CallId = nat   // a call; also identifies the one waiter it creates

  /** The second half of a waiter key: the error type of an initializer, or the marker type
      reserved for compute calls. */
  datatype Kind = ErrorType(n: nat) | ComputeNone

  datatype WKey = WKey(key: Key, kind: Kind)

  datatype Call =
    | InitCall(key: Key, errorType: nat)
    | ComputeCall(key: Key, ifNobodyElse: bool)

  function WKeyOf(c: Call): WKey {
    WKey(c.key, if c.InitCall? then ErrorType(c.errorType) else ComputeNone)
  }

  datatype Answer = Ok(v: V) | Err(e: int)

  datatype WaiterValue =
    | Computing
    | Ready(answer: Answer)
    | ReadyNone
    | InitFuturePanicked
    | EnclosingFutureAborted

  /** How a call ends. */
  datatype Outcome =
    | Initialized(v: V)
    | ReadExisting(v: V)
    | InitErr(e: int)
    | Computed            // a compute call that ran to its end, with or without a write
    | NotAlone            // `try_compute_if_nobody_else` that found a waiter
    | Panicked
    | Aborted
    | RetriesExhausted    // panic after too many failed owners
    | Unexpected          // the "unexpected state" panics

  datatype ComputeOp = Nop | Put(v: V) | Remove | Fail

  datatype Pc =
    | Start
    | Trying                                   // own waiter write-locked, about to insert it
    | Waiting(on: CallId)                      // for the read lock of another call's waiter
    | Owning                                   // own waiter inserted, guard created
    | Initializing                             // `init` future running
    | Inserting(v: V, written: bool)           // inside `insert_with_hash`
    | Running(seen: Option<V>)                 // compute closure and its future running
    | Writing(seen: Option<V>, op: ComputeOp, written: bool)
    | Removing(out: Outcome)                   // value set, waiter still in the map
    | Releasing(out: Outcome)                  // waiter removed, still write-locked
    | Done(out: Outcome)

  /** A call with the waiter it created: the waiter's value and whether it is write-locked.
      `owned` records that the waiter made it into the map, `joined` the owner whose answer
      was returned. */
  datatype Task = Task(call: Call, pc: Pc, retries: nat, value: WaiterValue, locked: bool,
                       owned: bool, joined: Option<CallId>)

  /** A table write by a compute call: what its closure was given, what it did. */
  datatype Write = Write(key: Key, seen: Option<V>, op: ComputeOp)

  datatype State = State(
    tasks: seq<Task>,
    waiters: map<WKey, CallId>,
    cells: map<Key, V>,     // live values in the table
    initial: map<Key, V>,   // history: the values the table started with
    log: seq<Write>,        // history: writes of compute calls
    foreign: set<Key>)      // history: keys also written by somebody else

  const MAX_RETRIES: nat := 200

  function Lookup(cells: map<Key, V>, k: Key): Option<V> {
    if k in cells then Some(cells[k]) else None
  }

  function CellOf(s: State, k: Key): Option<V> {
    Lookup(s.cells, k)
  }

  function WithCell(cells: map<Key, V>, k: Key, v: Option<V>): map<Key, V> {
    match v case None => cells - {k} case Some(x) => cells[k := x]
  }

  /** What a write leaves in the table. */
  function Result(op: ComputeOp, seen: Option<V>): Option<V> {
    match op
    case Put(v) => Some(v)
    case Remove => None
    case _ => seen
  }

  ghost predicate Init(s: State) {
    && (forall t :: 0 <= t < |s.tasks| ==>
          s.tasks[t] == Task(s.tasks[t].call, Start, 0, Computing, false, false, None))
    && s.waiters == map[] && s.cells == s.initial && s.log == [] && s.foreign == {}
  }

  datatype Resolution = Resolved(answer: Answer) | Panics
  datatype ComputeResolution = Yields(op: ComputeOp) | ComputePanics

  datatype Step =
    | Begin(t: CallId)
    | TryInsert(t: CallId)
    | Wake(t: CallId)
    | CheckCache(t: CallId, ignored: bool)
    | ResolveInit(t: CallId, r: Resolution)
    | InsertTable(t: CallId)
    | FinishInsert(t: CallId)
    | ReadCell(t: CallId)
    | ResolveCompute(t: CallId, c: ComputeResolution)
    | WriteTable(t: CallId)
    | FinishWrite(t: CallId)
    | RemoveWaiter(t: CallId)
    | Release(t: CallId)
    | Abort(t: CallId)
    | External(key: Key, v: Option<V>)

  /** The await points at which the guard exists. */
  predicate AbortableOwner(pc: Pc) {
    pc.Owning? || pc.Initializing? || pc.Inserting? || pc.Running? || pc.Writing?
  }

  predicate Enabled(s: State, step: Step) {
    if step.External? then true
    else step.t < |s.tasks| && EnabledFor(s, s.tasks[step.t], step)
  }

  predicate EnabledFor(s: State, task: Task, step: Step)
    requires !step.External?
  {
    match step
    case Begin(_) => task.pc.Start?
    case TryInsert(_) => task.pc.Trying?
    case Wake(_) => task.pc.Waiting? && task.pc.on < |s.tasks| && !s.tasks[task.pc.on].locked
    case CheckCache(_, _) => task.pc.Owning? && task.call.InitCall?
    case ResolveInit(_, _) => task.pc.Initializing?
    case InsertTable(_) => task.pc.Inserting? && !task.pc.written
    case FinishInsert(_) => task.pc.Inserting? && task.pc.written
    case ReadCell(_) => task.pc.Owning? && task.call.ComputeCall?
    case ResolveCompute(_, _) => task.pc.Running?
    case WriteTable(_) => task.pc.Writing? && !task.pc.written
    case FinishWrite(_) => task.pc.Writing? && task.pc.written
    case RemoveWaiter(_) => task.pc.Removing?
    case Release(_) => task.pc.Releasing?
    case Abort(_) => task.pc.Start? || task.pc.Waiting? || AbortableOwner(task.pc)
  }

  /** `WaiterGuard::set_waiter_value`: first the value, then the map, then the lock. */
  function Publish(task: Task, value: WaiterValue, out: Outcome): Task {
    task.(value := value, pc := Removing(out))
  }

  /** A call that gives up without owning the map entry drops its own, unpublished lock. */
  function Leave(task: Task, out: Outcome, joined: Option<CallId>): Task {
    task.(pc := Done(out), locked := false, joined := joined)
  }

  /** A joiner reads the waiter value of call `u`. */
  function Awake(task: Task, u: CallId, value: WaiterValue): Task {
    if task.call.ComputeCall? then
      if value.Computing? then Leave(task, Unexpected, None) else task.(pc := Trying)
    else
      match value
      case Ready(Ok(v)) => Leave(task, ReadExisting(v), Some(u))
      case Ready(Err(e)) => Leave(task, InitErr(e), Some(u))
      case InitFuturePanicked => Retry(task)
      case EnclosingFutureAborted => Retry(task)
      case Computing => Leave(task, Unexpected, None)
      case ReadyNone => Leave(task, Unexpected, None)
  }

  function Retry(task: Task): Task {
    if task.retries + 1 < MAX_RETRIES then task.(pc := Trying, retries := task.retries + 1)
    else Leave(task, RetriesExhausted, None)
  }

  function ResolvedInit(task: Task, r: Resolution): Task {
    match r
    case Resolved(Ok(v)) => task.(pc := Inserting(v, false))
    case Resolved(Err(e)) => Publish(task, Ready(Err(e)), InitErr(e))
    case Panics => Publish(task, InitFuturePanicked, Panicked)
  }

  function ResolvedCompute(task: Task, c: ComputeResolution): Task
    requires task.pc.Running?
  {
    match c
    case Yields(Put(v)) => task.(pc := Writing(task.pc.seen, Put(v), false))
    case Yields(Remove) => task.(pc := Writing(task.pc.seen, Remove, false))
    case Yields(_) => Publish(task, ReadyNone, Computed)
    case ComputePanics => Publish(task, InitFuturePanicked, Panicked)
  }

  function Aborting(task: Task): Task {
    if AbortableOwner(task.pc) then Publish(task, EnclosingFutureAborted, Aborted)
    else Leave(task, Aborted, None)
  }

  /** The record of a call after a step that touches nothing else but `waiters`. */
  function NextTask(s: State, task: Task, step: Step): Task
    requires !step.External? && EnabledFor(s, task, step)
  {
    match step
    case Begin(_) => task.(pc := Trying, value := Computing, locked := true)
    case TryInsert(t) =>
      if WKeyOf(task.call) !in s.waiters then task.(pc := Owning, owned := true)
      else if task.call.ComputeCall? && task.call.ifNobodyElse then Leave(task, NotAlone, None)
      else task.(pc := Waiting(s.waiters[WKeyOf(task.call)]))
    case Wake(_) => Awake(task, task.pc.on, s.tasks[task.pc.on].value)
    case CheckCache(_, ignored) =>
      if task.call.key in s.cells && !ignored
      then Publish(task, Ready(Ok(s.cells[task.call.key])), ReadExisting(s.cells[task.call.key]))
      else task.(pc := Initializing)
    case ResolveInit(_, r) => ResolvedInit(task, r)
    case InsertTable(_) => task.(pc := Inserting(task.pc.v, true))
    case FinishInsert(_) => Publish(task, Ready(Ok(task.pc.v)), Initialized(task.pc.v))
    case ReadCell(_) => task.(pc := Running(CellOf(s, task.call.key)))
    case ResolveCompute(_, c) => ResolvedCompute(task, c)
    case WriteTable(_) => task.(pc := Writing(task.pc.seen, task.pc.op, true))
    case FinishWrite(_) => Publish(task, ReadyNone, Computed)
    case RemoveWaiter(_) => task.(pc := Releasing(task.pc.out))
    case Release(_) => task.(pc := Done(task.pc.out), locked := false)
    case Abort(_) => Aborting(task)
  }

  function Apply(s: State, step: Step): State
    requires Enabled(s, step)
  {
    if step.External? then
      s.(cells := WithCell(s.cells, step.key, step.v), foreign := s.foreign + {step.key})
    else
      var t := step.t;
      var task := s.tasks[t];
      var k := task.call.key;
      var s' := s.(tasks := s.tasks[t := NextTask(s, task, step)]);
      match step
      case TryInsert(_) =>
        if WKeyOf(task.call) !in s.waiters then s'.(waiters := s.waiters[WKeyOf(task.call) := t]) else s'
      case InsertTable(_) =>
        s'.(cells := s.cells[k := task.pc.v], foreign := s.foreign + {k})
      case WriteTable(_) =>
        s'.(cells := WithCell(s.cells, k, Result(task.pc.op, task.pc.seen)),
            log := s.log + [Write(k, task.pc.seen, task.pc.op)])
      case RemoveWaiter(_) => s'.(waiters := s.waiters - {WKeyOf(task.call)})
      case _ => s'
  }

  ghost predicate Run(s0: State, steps: seq<Step>, s: State)
    decreases |steps|
  {
    if steps == [] then s == s0
    else Enabled(s0, steps[0]) && Run(Apply(s0, steps[0]), steps[1..], s)
  }

  ghost predicate Reachable(s: State) {
    exists s0, steps :: Init(s0) && Run(s0, steps, s)
  }
}
