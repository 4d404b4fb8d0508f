/** Safety of the single-flight protocol over every run. */
module SingleFlightProof {
  import opened Common
  import opened SingleFlight

  // ----- the invariant -----------------------------------------------------------------

  /** Between inserting and removing its waiter. */
  predicate InFlight(pc: Pc) {
    AbortableOwner(pc) || pc.Removing?
  }

  /** The published waiter value says what became of the owner. */
  predicate Matches(call: Call, value: WaiterValue, out: Outcome) {
    match value
    case Computing => false
    case Ready(Ok(v)) => call.InitCall? && (out == Initialized(v) || out == ReadExisting(v))
    case Ready(Err(e)) => call.InitCall? && out == InitErr(e)
    case ReadyNone => call.ComputeCall? && out == Computed
    case InitFuturePanicked => out == Panicked
    case EnclosingFutureAborted => out == Aborted
  }

  /** The call ended with an answer rather than a panic, an abort or a refusal. */
  predicate HasAnswer(out: Outcome) {
    out.Initialized? || out.ReadExisting? || out.InitErr? || out.Computed?
  }

  ghost predicate TaskOk(task: Task) {
    && (task.joined.Some? ==> task.pc.Done? && !task.owned)
    && match task.pc
       case Start => !task.locked && !task.owned && task.value.Computing?
       case Trying => task.locked && !task.owned && task.value.Computing?
       case Waiting(_) => task.locked && !task.owned && task.value.Computing?
       case Removing(out) => task.locked && task.owned && Matches(task.call, task.value, out)
       case Releasing(out) => task.locked && task.owned && Matches(task.call, task.value, out)
       case Done(out) =>
         && !task.locked && !out.Unexpected?
         && (task.owned ==> Matches(task.call, task.value, out))
         && (!task.owned && HasAnswer(out) ==> task.joined.Some?)
       case _ =>
         && task.locked && task.owned && task.value.Computing?
         && (task.pc.Initializing? || task.pc.Inserting? ==> task.call.InitCall?)
         && (task.pc.Running? || task.pc.Writing? ==> task.call.ComputeCall?)
         && (task.pc.Writing? ==> task.pc.op.Put? || task.pc.op.Remove?)
  }

  ghost predicate TasksOk(s: State) {
    forall t :: 0 <= t < |s.tasks| ==> TaskOk(s.tasks[t])
  }

  /** The waiter map holds exactly the waiters of the calls in flight. */
  ghost predicate WaitersOk(s: State) {
    && (forall k :: k in s.waiters ==>
          s.waiters[k] < |s.tasks| && WKeyOf(s.tasks[s.waiters[k]].call) == k
          && InFlight(s.tasks[s.waiters[k]].pc))
    && (forall t :: 0 <= t < |s.tasks| && InFlight(s.tasks[t].pc) ==>
          WKeyOf(s.tasks[t].call) in s.waiters && s.waiters[WKeyOf(s.tasks[t].call)] == t)
  }

  /** A call waits for, and takes its answer from, a call that owned the same waiter key. */
  ghost predicate OwnerFor(s: State, t: CallId, u: CallId)
    requires t < |s.tasks|
  {
    u < |s.tasks| && s.tasks[u].owned && WKeyOf(s.tasks[u].call) == WKeyOf(s.tasks[t].call)
  }

  ghost predicate WaitingOk(s: State) {
    forall t :: 0 <= t < |s.tasks| && s.tasks[t].pc.Waiting? ==> OwnerFor(s, t, s.tasks[t].pc.on)
  }

  predicate SameAnswer(joiner: Outcome, owner: Outcome) {
    match joiner
    case ReadExisting(v) => owner == Initialized(v) || owner == ReadExisting(v)
    case InitErr(e) => owner == InitErr(e)
    case _ => false
  }

  ghost predicate JoinedTo(s: State, t: CallId, u: CallId)
    requires t < |s.tasks| && s.tasks[t].pc.Done?
  {
    OwnerFor(s, t, u) && s.tasks[u].pc.Done? && SameAnswer(s.tasks[t].pc.out, s.tasks[u].pc.out)
  }

  ghost predicate JoinedOk(s: State) {
    forall t :: 0 <= t < |s.tasks| && s.tasks[t].joined.Some? ==>
      s.tasks[t].pc.Done? && JoinedTo(s, t, s.tasks[t].joined.value)
  }

  ghost predicate Inv(s: State) {
    TasksOk(s) && WaitersOk(s) && WaitingOk(s) && JoinedOk(s)
  }

  // ----- preservation --------------------------------------------------------------------

  /** What every step does to the call that takes it. */
  ghost predicate Evolves(a: Task, b: Task) {
    b.call == a.call && (a.owned ==> b.owned) && !a.pc.Done?
  }

  /** An owner whose lock has been released is done, and its waiter value tells how. */
  lemma UnlockedOwnerIsDone(task: Task)
    requires TaskOk(task) && task.owned && !task.locked
    ensures task.pc.Done? && Matches(task.call, task.value, task.pc.out)
  {
  }

  /** Waking up: the owner of the waiter is done, so its value is one a joiner expects. */
  lemma WakeTaskOk(s: State, t: CallId)
    requires Inv(s) && Enabled(s, Wake(t))
    ensures TaskOk(NextTask(s, s.tasks[t], Wake(t))) && Evolves(s.tasks[t], NextTask(s, s.tasks[t], Wake(t)))
  {
  }

  lemma OwnTaskOk(s: State, task: Task, step: Step)
    requires !step.External? && !step.Wake? && TaskOk(task) && EnabledFor(s, task, step)
    ensures TaskOk(NextTask(s, task, step)) && Evolves(task, NextTask(s, task, step))
  {
  }

  lemma StepTaskOk(s: State, step: Step)
    requires Inv(s) && Enabled(s, step) && !step.External?
    ensures var task := s.tasks[step.t]; var task' := NextTask(s, task, step);
            TaskOk(task') && Evolves(task, task')
  {
    hide NextTask, TaskOk, Evolves, WaitersOk, WaitingOk, JoinedOk;
    if step.Wake? {
      WakeTaskOk(s, step.t);
    } else {
      assert TaskOk(s.tasks[step.t]);
      OwnTaskOk(s, s.tasks[step.t], step);
    }
  }

  lemma TasksOkUpdate(s: State, t: CallId, task: Task)
    requires TasksOk(s) && t < |s.tasks| && TaskOk(task)
    ensures TasksOk(s.(tasks := s.tasks[t := task]))
  {
  }

  /** What one call waits for or joined stays in place when another call moves on. */
  lemma LinksUpdate(s: State, s': State, t: CallId)
    requires WaitingOk(s) && JoinedOk(s) && TasksOk(s)
    requires t < |s.tasks| == |s'.tasks| && s'.tasks == s.tasks[t := s'.tasks[t]]
    requires Evolves(s.tasks[t], s'.tasks[t])
    requires s'.tasks[t].pc.Waiting? ==> OwnerFor(s', t, s'.tasks[t].pc.on)
    requires s'.tasks[t].joined.Some? ==>
               s'.tasks[t].pc.Done? && JoinedTo(s', t, s'.tasks[t].joined.value)
    ensures WaitingOk(s') && JoinedOk(s')
  {
  }

  /** What call `t` now waits for, or has joined, is another call that owned its waiter key. */
  ghost predicate LinksOk(s: State, t: CallId, task: Task)
    requires t < |s.tasks|
  {
    && (task.pc.Waiting? ==> OwnerFor(s, t, task.pc.on) && task.pc.on != t)
    && (task.joined.Some? ==>
          && task.pc.Done? && OwnerFor(s, t, task.joined.value) && task.joined.value != t
          && s.tasks[task.joined.value].pc.Done?
          && SameAnswer(task.pc.out, s.tasks[task.joined.value].pc.out))
  }

  lemma WakeLinks(s: State, t: CallId)
    requires Inv(s) && Enabled(s, Wake(t))
    ensures LinksOk(s, t, NextTask(s, s.tasks[t], Wake(t)))
  {
    var task := s.tasks[t];
    assert TaskOk(task) && OwnerFor(s, t, task.pc.on) && TaskOk(s.tasks[task.pc.on]);
    hide Inv, TasksOk, WaitersOk, WaitingOk, JoinedOk;
    UnlockedOwnerIsDone(s.tasks[task.pc.on]);
  }

  lemma InsertLinks(s: State, t: CallId)
    requires Inv(s) && Enabled(s, TryInsert(t))
    ensures LinksOk(s, t, NextTask(s, s.tasks[t], TryInsert(t)))
  {
    var task := s.tasks[t];
    assert TaskOk(task) && WaitersOk(s);
    if WKeyOf(task.call) in s.waiters { assert TaskOk(s.tasks[s.waiters[WKeyOf(task.call)]]); }
    hide Inv, TasksOk, WaitingOk, JoinedOk;
  }

  lemma OtherLinks(s: State, t: CallId, step: Step)
    requires t < |s.tasks| && !step.External? && !step.Wake? && !step.TryInsert?
    requires TaskOk(s.tasks[t]) && EnabledFor(s, s.tasks[t], step)
    ensures LinksOk(s, t, NextTask(s, s.tasks[t], step))
  {
  }

  /** The new links a step makes. */
  lemma NewLinks(s: State, step: Step)
    requires Inv(s) && Enabled(s, step) && !step.External?
    ensures LinksOk(s, step.t, NextTask(s, s.tasks[step.t], step))
  {
    assert TaskOk(s.tasks[step.t]);
    hide Inv, TaskOk, NextTask, LinksOk;
    if step.Wake? { WakeLinks(s, step.t); }
    else if step.TryInsert? { InsertLinks(s, step.t); }
    else { OtherLinks(s, step.t, step); }
  }

  /** Waiter map: a step of call `t` either leaves its in-flight status and the map alone, or
      changes both together. */
  lemma WaitersUpdate(s: State, s': State, t: CallId)
    requires WaitersOk(s) && t < |s.tasks| == |s'.tasks| && s'.tasks == s.tasks[t := s'.tasks[t]]
    requires s'.tasks[t].call == s.tasks[t].call
    requires
      var k := WKeyOf(s.tasks[t].call);
      || (s'.waiters == s.waiters && (InFlight(s'.tasks[t].pc) <==> InFlight(s.tasks[t].pc)))
      || (k !in s.waiters && s'.waiters == s.waiters[k := t] && InFlight(s'.tasks[t].pc))
      || (s'.waiters == s.waiters - {k} && InFlight(s.tasks[t].pc) && !InFlight(s'.tasks[t].pc))
    ensures WaitersOk(s')
  {
  }

  /** Only inserting and removing a waiter change whether a call is in flight. */
  lemma FlightChanges(s: State, task: Task, step: Step)
    requires !step.External? && TaskOk(task) && EnabledFor(s, task, step)
    ensures var task' := NextTask(s, task, step);
      if step.TryInsert? && WKeyOf(task.call) !in s.waiters then InFlight(task'.pc)
      else if step.RemoveWaiter? then InFlight(task.pc) && !InFlight(task'.pc)
      else InFlight(task'.pc) <==> InFlight(task.pc)
  {
  }

  lemma StepWaiters(s: State, step: Step)
    requires Inv(s) && Enabled(s, step) && !step.External?
    ensures WaitersOk(Apply(s, step))
  {
    var t := step.t;
    assert TaskOk(s.tasks[t]) && WaitersOk(s);
    hide NextTask, TaskOk, TasksOk, WaitingOk, JoinedOk, InFlight, WKeyOf, WaitersOk;
    StepTaskOk(s, step);
    FlightChanges(s, s.tasks[t], step);
    WaitersUpdate(s, Apply(s, step), t);
  }

  lemma StepInv(s: State, step: Step)
    requires Inv(s) && Enabled(s, step)
    ensures Inv(Apply(s, step))
  {
    if !step.External? {
      var s', t := Apply(s, step), step.t;
      assert s'.tasks == s.tasks[t := NextTask(s, s.tasks[t], step)];
      StepTaskOk(s, step);
      TasksOkUpdate(s, t, s'.tasks[t]);
      NewLinks(s, step);
      LinksUpdate(s, s', t);
      StepWaiters(s, step);
    }
  }

  lemma {:induction false} RunInv(s0: State, steps: seq<Step>, s: State)
    requires Inv(s0) && Run(s0, steps, s)
    ensures Inv(s)
    decreases |steps|
  {
    if steps != [] {
      StepInv(s0, steps[0]);
      RunInv(Apply(s0, steps[0]), steps[1..], s);
    }
  }

  lemma InitInv(s: State)
    requires Init(s)
    ensures Inv(s)
  {
  }

  lemma ReachableInv(s: State)
    requires Reachable(s)
    ensures Inv(s)
  {
    var s0, steps :| Init(s0) && Run(s0, steps, s);
    InitInv(s0);
    RunInv(s0, steps, s);
  }

  /** Two calls that fly together: computes of one key, or initializers of one key and error type. */
  predicate SameFlight(a: Call, b: Call) {
    a.key == b.key && if a.InitCall? then b.InitCall? && a.errorType == b.errorType else b.ComputeCall?
  }

  // ----- single flight -----------------------------------------------------------------------

  /** Of the calls that fly together at most one is between inserting and removing its waiter. */
  lemma AtMostOneInFlight(s: State, t: CallId, u: CallId)
    requires Reachable(s) && t < |s.tasks| && u < |s.tasks|
    requires InFlight(s.tasks[t].pc) && InFlight(s.tasks[u].pc)
    requires SameFlight(s.tasks[t].call, s.tasks[u].call)
    ensures t == u
  {
    ReachableInv(s);
  }

  /** A call that removes a waiter removes its own. */
  lemma RemovesOwnWaiter(s: State, t: CallId)
    requires Reachable(s) && Enabled(s, RemoveWaiter(t))
    ensures WKeyOf(s.tasks[t].call) in s.waiters && s.waiters[WKeyOf(s.tasks[t].call)] == t
  {
    ReachableInv(s);
  }

  /** A call that did not compute its answer got exactly the answer of one finished owner that flew
      with it; and the "unexpected state" panics never happen. */
  lemma JoinersGetTheOwnersAnswer(s: State, t: CallId)
    requires Reachable(s) && t < |s.tasks| && s.tasks[t].pc.Done?
    ensures !s.tasks[t].pc.out.Unexpected?
    ensures !s.tasks[t].owned && HasAnswer(s.tasks[t].pc.out) ==>
      && s.tasks[t].joined.Some?
      && var u := s.tasks[t].joined.value;
      && u < |s.tasks| && u != t && s.tasks[u].owned && s.tasks[u].pc.Done?
      && SameFlight(s.tasks[u].call, s.tasks[t].call)
      && SameAnswer(s.tasks[t].pc.out, s.tasks[u].pc.out)
  {
    ReachableInv(s);
    assert TaskOk(s.tasks[t]);
    if s.tasks[t].joined.Some? {
      assert JoinedTo(s, t, s.tasks[t].joined.value);
    }
  }

  /** Once all calls have completed, panicked or been aborted, no waiter is left behind. */
  lemma NoWaiterLeaks(s: State)
    requires Reachable(s) && forall t :: 0 <= t < |s.tasks| ==> s.tasks[t].pc.Done?
    ensures s.waiters == map[]
  {
    ReachableInv(s);
    assert forall k :: k !in s.waiters;
  }

  /** No deadlock: while some call is unfinished, some call can take a step of its own. */
  lemma NoDeadlock(s: State, t: CallId) returns (step: Step)
    requires Reachable(s) && t < |s.tasks| && !s.tasks[t].pc.Done?
    ensures Enabled(s, step) && !step.External? && !step.Abort?
  {
    ReachableInv(s);
    assert TaskOk(s.tasks[t]);
    if s.tasks[t].pc.Waiting? {
      var u := s.tasks[t].pc.on;
      assert OwnerFor(s, t, u) && TaskOk(s.tasks[u]);
      step := if s.tasks[u].locked then OwnStep(s.tasks[u], u) else Wake(t);
    } else {
      step := OwnStep(s.tasks[t], t);
    }
  }

  function OwnStep(task: Task, t: CallId): Step {
    match task.pc
    case Start => Begin(t)
    case Trying => TryInsert(t)
    case Waiting(_) => Wake(t)
    case Owning => if task.call.InitCall? then CheckCache(t, false) else ReadCell(t)
    case Initializing => ResolveInit(t, Panics)
    case Inserting(_, w) => if w then FinishInsert(t) else InsertTable(t)
    case Running(_) => ResolveCompute(t, ComputePanics)
    case Writing(_, _, w) => if w then FinishWrite(t) else WriteTable(t)
    case Removing(_) => RemoveWaiter(t)
    case Releasing(_) => Release(t)
    case Done(_) => Begin(t)
  }

  // ----- no lost update ------------------------------------------------------------------------

  /** The value of key `k` after replaying the logged writes one after the other, from the value
      the table started with. */
  function Replay(init: map<Key, V>, log: seq<Write>, k: Key): Option<V> {
    if log == [] then Lookup(init, k)
    else
      var w := log[|log| - 1];
      var before := Replay(init, log[..|log| - 1], k);
      if w.key != k then before
      else match w.op
        case Put(v) => Some(v)
        case Remove => None
        case _ => before
  }

  /** Each write's closure was given exactly the value left by the writes before it. */
  ghost predicate Sequential(init: map<Key, V>, log: seq<Write>, k: Key) {
    forall i :: 0 <= i < |log| && log[i].key == k ==> log[i].seen == Replay(init, log[..i], k)
  }

  /** A running compute call still sees the present value of its key. */
  ghost predicate UpToDate(s: State, task: Task) {
    && (task.pc.Running? ==> task.pc.seen == CellOf(s, task.call.key))
    && (task.pc.Writing? && !task.pc.written ==> task.pc.seen == CellOf(s, task.call.key))
  }

  ghost predicate NoLost(s: State) {
    && (forall k :: k !in s.foreign ==> CellOf(s, k) == Replay(s.initial, s.log, k) && Sequential(s.initial, s.log, k))
    && (forall t :: 0 <= t < |s.tasks| && s.tasks[t].call.key !in s.foreign ==> UpToDate(s, s.tasks[t]))
  }

  lemma SequentialAppend(init: map<Key, V>, log: seq<Write>, w: Write, k: Key)
    requires Sequential(init, log, k) && (w.key == k ==> w.seen == Replay(init, log, k))
    ensures Sequential(init, log + [w], k)
    ensures Replay(init, log + [w], k) == if w.key == k then Result(w.op, w.seen) else Replay(init, log, k)
  {
    var log' := log + [w];
    assert log'[..|log|] == log;
    forall i | 0 <= i < |log'| && log'[i].key == k ensures log'[i].seen == Replay(init, log'[..i], k) {
      if i < |log| { assert log'[..i] == log[..i]; }
    }
  }

  /** The call of a step that writes no cell still sees the present value. */
  lemma QuietUpToDate(s: State, task: Task, step: Step)
    requires !step.External? && EnabledFor(s, task, step) && !step.InsertTable? && !step.WriteTable?
    ensures NextTask(s, task, step).call == task.call
    ensures UpToDate(s, task) ==> UpToDate(s, NextTask(s, task, step))
  {
  }

  /** Steps that write no cell. */
  lemma QuietNoLost(s: State, step: Step)
    requires NoLost(s) && Enabled(s, step)
    requires !step.External? && !step.InsertTable? && !step.WriteTable?
    ensures NoLost(Apply(s, step))
  {
    var s', t := Apply(s, step), step.t;
    hide NextTask, EnabledFor, Replay, Sequential;
    QuietUpToDate(s, s.tasks[t], step);
    assert s'.cells == s.cells && s'.log == s.log && s'.foreign == s.foreign && s'.initial == s.initial;
    assert s'.tasks == s.tasks[t := NextTask(s, s.tasks[t], step)];
    assert forall k :: CellOf(s', k) == CellOf(s, k);
    forall x | 0 <= x < |s'.tasks| && s'.tasks[x].call.key !in s'.foreign
      ensures UpToDate(s', s'.tasks[x])
    {
      assert UpToDate(s, s.tasks[x]);
    }
  }

  lemma ForeignNoLost(s: State, s': State, k: Key)
    requires NoLost(s) && s'.log == s.log && s'.initial == s.initial && s'.foreign == s.foreign + {k}
    requires forall x :: x != k ==> CellOf(s', x) == CellOf(s, x)
    requires |s'.tasks| == |s.tasks|
    requires forall t :: 0 <= t < |s.tasks| && s.tasks[t].call.key != k ==> s'.tasks[t] == s.tasks[t]
    requires forall t :: 0 <= t < |s.tasks| ==> s'.tasks[t].call == s.tasks[t].call
    ensures NoLost(s')
  {
  }

  lemma WriteNoLost(s: State, t: CallId)
    requires Inv(s) && NoLost(s) && Enabled(s, WriteTable(t))
    ensures NoLost(Apply(s, WriteTable(t)))
  {
    var s', task := Apply(s, WriteTable(t)), s.tasks[t];
    var k, w := task.call.key, Write(task.call.key, task.pc.seen, task.pc.op);
    forall x | x !in s'.foreign
      ensures CellOf(s', x) == Replay(s'.initial, s'.log, x) && Sequential(s'.initial, s'.log, x)
    {
      if x == k { assert UpToDate(s, task); }
      SequentialAppend(s.initial, s.log, w, x);
    }
    forall x | 0 <= x < |s'.tasks| && s'.tasks[x].call.key !in s'.foreign
      ensures UpToDate(s', s'.tasks[x])
    {
      if x != t {
        assert UpToDate(s, s.tasks[x]) && TaskOk(s.tasks[x]) && TaskOk(task);
        OtherKey(s, t, x);
      }
    }
  }

  /** No second compute call of the same key is in flight. */
  lemma OtherKey(s: State, t: CallId, x: CallId)
    requires Inv(s) && t < |s.tasks| && x < |s.tasks| && x != t
    requires s.tasks[t].pc.Writing?
    ensures s.tasks[x].pc.Running? || s.tasks[x].pc.Writing? ==>
              s.tasks[x].call.key != s.tasks[t].call.key
  {
  }

  lemma StepNoLost(s: State, step: Step)
    requires Inv(s) && NoLost(s) && Enabled(s, step)
    ensures NoLost(Apply(s, step))
  {
    if step.WriteTable? {
      WriteNoLost(s, step.t);
    } else if step.External? {
      ForeignNoLost(s, Apply(s, step), step.key);
    } else if step.InsertTable? {
      ForeignNoLost(s, Apply(s, step), s.tasks[step.t].call.key);
    } else {
      QuietNoLost(s, step);
    }
  }

  lemma {:induction false} RunNoLost(s0: State, steps: seq<Step>, s: State)
    requires Inv(s0) && NoLost(s0) && Run(s0, steps, s)
    ensures NoLost(s) && s.initial == s0.initial
    decreases |steps|
  {
    if steps != [] {
      StepInv(s0, steps[0]);
      StepNoLost(s0, steps[0]);
      RunNoLost(Apply(s0, steps[0]), steps[1..], s);
    }
  }

  /** No lost update: over every run, for a key that only compute calls write, the writes form one
      sequence in which every closure was given exactly the value its predecessor left, the first
      one the value the table held before; and the table holds what replaying it yields. */
  lemma NoLostUpdate(s0: State, steps: seq<Step>, s: State, k: Key)
    requires Init(s0) && Run(s0, steps, s) && k !in s.foreign
    ensures CellOf(s, k) == Replay(s0.cells, s.log, k)
    ensures forall i :: 0 <= i < |s.log| && s.log[i].key == k ==>
              s.log[i].seen == Replay(s0.cells, s.log[..i], k)
  {
    InitInv(s0);
    forall t | 0 <= t < |s0.tasks| ensures UpToDate(s0, s0.tasks[t]) {
      assert s0.tasks[t] == Task(s0.tasks[t].call, Start, 0, Computing, false, false, None);
    }
    RunNoLost(s0, steps, s);
  }
}
