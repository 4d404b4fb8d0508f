/** What calls do to the table, and where their answers come from, over every run. */
module SingleFlightAnswers {
  import opened Common
  import opened SingleFlight
  import opened SingleFlightProof

  // ----- the table -----------------------------------------------------------------------------------

  ghost predicate Holds(cells: map<Key, V>, k: Key, v: V) {
    k in cells && cells[k] == v
  }

  /** The only steps that change the value of a key, and what they leave there: a write by somebody
      else, the insertion of a resolved initializer's value, and the write of a compute call, which puts
      the value or takes the key out of the table. */
  lemma CellsChange(s: State, step: Step, k: Key)
    requires Inv(s) && Enabled(s, step)
    ensures var s' := Apply(s, step);
      if step.External? && step.key == k then
        if step.v.Some? then Holds(s'.cells, k, step.v.value) else k !in s'.cells
      else if step.InsertTable? && s.tasks[step.t].call.key == k then
        Holds(s'.cells, k, s.tasks[step.t].pc.v)
      else if step.WriteTable? && s.tasks[step.t].call.key == k then
        var op := s.tasks[step.t].pc.op;
        (op.Put? && Holds(s'.cells, k, op.v)) || (op.Remove? && k !in s'.cells)
      else
        (k in s'.cells <==> k in s.cells) && (k in s.cells ==> s'.cells[k] == s.cells[k])
    ensures Apply(s, step).log ==
      if step.WriteTable? then s.log + [Write(s.tasks[step.t].call.key, s.tasks[step.t].pc.seen, s.tasks[step.t].pc.op)]
      else s.log
  {
    if step.WriteTable? { assert TaskOk(s.tasks[step.t]); }
    hide Inv, TaskOk, NextTask;
  }

  /** A value that is in the table, and not to be ignored, is the answer: nothing is computed.  The
      initializer runs exactly if there is none. */
  lemma CachedIsNotComputed(s: State, t: CallId, ignored: bool)
    requires Enabled(s, CheckCache(t, ignored))
    ensures var k, task' := s.tasks[t].call.key, Apply(s, CheckCache(t, ignored)).tasks[t];
      && (task'.pc.Initializing? <==> k !in s.cells || ignored)
      && (!task'.pc.Initializing? ==>
            task'.pc == Removing(ReadExisting(s.cells[k])) && task'.value == Ready(Ok(s.cells[k])))
  {
  }

  /** Some call that flies with call `t` is in flight. */
  ghost predicate Company(s: State, t: CallId, u: CallId) {
    t < |s.tasks| && u < |s.tasks| && InFlight(s.tasks[u].pc) && SameFlight(s.tasks[u].call, s.tasks[t].call)
  }

  /** A call becomes an owner exactly if none that flies with it is in flight; otherwise it waits for that
      one, unless it wanted to be alone. */
  lemma OwnsIfAlone(s: State, t: CallId)
    requires Inv(s) && Enabled(s, TryInsert(t))
    ensures var call, pc := s.tasks[t].call, Apply(s, TryInsert(t)).tasks[t].pc;
      if forall u: CallId :: !Company(s, t, u) then pc == Owning
      else if call.ComputeCall? && call.ifNobodyElse then pc == Done(NotAlone)
      else pc.Waiting? && Company(s, t, pc.on)
  {
    assert WaitersOk(s);
    hide Inv, InFlight;
    var k := WKeyOf(s.tasks[t].call);
    if k in s.waiters {
      assert Company(s, t, s.waiters[k]);
    } else {
      forall u: CallId ensures !Company(s, t, u) { }
    }
  }

  /** A call that wakes up finds its owner finished.  An initializer takes the owner's value or error, and
      tries again after a panic or an abort, 200 times at most; a compute call tries again in any case. */
  lemma WokenTakesTheAnswer(s: State, t: CallId)
    requires Inv(s) && Enabled(s, Wake(t))
    ensures var task, task' := s.tasks[t], Apply(s, Wake(t)).tasks[t];
      task.pc.on < |s.tasks| && s.tasks[task.pc.on].pc.Done? &&
      var out := s.tasks[task.pc.on].pc.out;
      if task.call.ComputeCall? then task' == task.(pc := Trying)
      else if out.Initialized? || out.ReadExisting? then task'.pc == Done(ReadExisting(out.v))
      else if out.InitErr? then task'.pc == Done(InitErr(out.e))
      else
        && (out.Panicked? || out.Aborted?)
        && (if task.retries + 1 < 200 then task' == task.(pc := Trying, retries := task.retries + 1)
            else task'.pc == Done(RetriesExhausted))
  {
    var task := s.tasks[t];
    assert WaitingOk(s) && OwnerFor(s, t, task.pc.on) && TaskOk(s.tasks[task.pc.on]);
    UnlockedOwnerIsDone(s.tasks[task.pc.on]);
    hide Inv, TaskOk;
  }

  // ----- the answers -----------------------------------------------------------------------------------

  /** How often a future of call `t` has been resolved. */
  function Resolutions(done: seq<Step>, t: CallId): nat {
    if done == [] then 0
    else
      var last := done[|done| - 1];
      Resolutions(done[..|done| - 1], t) + if (last.ResolveInit? || last.ResolveCompute?) && last.t == t then 1 else 0
  }

  /** How often it has been woken up by another call's end. */
  function Wakes(done: seq<Step>, t: CallId): nat {
    if done == [] then 0
    else Wakes(done[..|done| - 1], t) + if done[|done| - 1] == Wake(t) then 1 else 0
  }

  predicate Unresolved(pc: Pc) {
    pc.Start? || pc.Trying? || pc.Waiting? || pc.Owning? || pc.Initializing? || pc.Running?
  }

  /** The steps that led to an outcome. */
  ghost predicate Justified(done: seq<Step>, t: CallId, task: Task, out: Outcome) {
    match out
    case Initialized(v) => ResolveInit(t, Resolved(Ok(v))) in done && InsertTable(t) in done
    case ReadExisting(_) => task.joined.Some? || CheckCache(t, false) in done
    case InitErr(e) => task.joined.Some? || ResolveInit(t, Resolved(Err(e))) in done
    case Computed => Yielded(done, t)
    case NotAlone => task.call.ComputeCall? && task.call.ifNobodyElse
    case Panicked => ResolveInit(t, Panics) in done || ResolveCompute(t, ComputePanics) in done
    case Aborted => Abort(t) in done
    case RetriesExhausted => Wakes(done, t) == 200
    case Unexpected => true
  }

  /** The closure's answer was left alone, or written to the table. */
  ghost predicate Yielded(done: seq<Step>, t: CallId) {
    || ResolveCompute(t, Yields(Nop)) in done
    || ResolveCompute(t, Yields(Fail)) in done
    || (WriteTable(t) in done
        && exists op: ComputeOp :: (op.Put? || op.Remove?) && ResolveCompute(t, Yields(op)) in done)
  }

  ghost predicate Told(done: seq<Step>, t: CallId, task: Task) {
    && (if Unresolved(task.pc) then Resolutions(done, t) == 0 else Resolutions(done, t) <= 1)
    && (task.call.InitCall? && !task.pc.Done? ==> Wakes(done, t) == task.retries < 200)
    && match task.pc
       case Inserting(v, written) =>
         ResolveInit(t, Resolved(Ok(v))) in done && (written ==> InsertTable(t) in done)
       case Writing(_, op, written) =>
         ResolveCompute(t, Yields(op)) in done && (written ==> WriteTable(t) in done)
       case Removing(out) => Justified(done, t, task, out)
       case Releasing(out) => Justified(done, t, task, out)
       case Done(out) => Justified(done, t, task, out)
       case _ => true
  }

  ghost predicate AllTold(done: seq<Step>, s: State) {
    forall t :: 0 <= t < |s.tasks| ==> Told(done, t, s.tasks[t])
  }

  lemma CountsNext(done: seq<Step>, step: Step, t: CallId)
    ensures Resolutions(done + [step], t)
         == Resolutions(done, t) + if (step.ResolveInit? || step.ResolveCompute?) && step.t == t then 1 else 0
    ensures Wakes(done + [step], t) == Wakes(done, t) + if step == Wake(t) then 1 else 0
  {
    assert (done + [step])[..|done|] == done;
  }

  /** What was told stays told. */
  lemma StillTold(done: seq<Step>, step: Step, t: CallId, task: Task)
    requires Told(done, t, task) && (step.External? || step.t != t)
    ensures Told(done + [step], t, task)
  {
    CountsNext(done, step, t);
    hide Resolutions, Wakes;
    assert forall x :: x in done ==> x in done + [step];
  }

  /** `after` is `done` with `step` at its end, as far as call `step.t` is concerned. */
  ghost predicate Extends(done: seq<Step>, step: Step, after: seq<Step>)
    requires !step.External?
  {
    && step in after && (forall x :: x in done ==> x in after)
    && Resolutions(after, step.t)
       == Resolutions(done, step.t) + (if step.ResolveInit? || step.ResolveCompute? then 1 else 0)
    && Wakes(after, step.t) == Wakes(done, step.t) + (if step.Wake? then 1 else 0)
  }

  predicate ComesToOwn(step: Step) {
    step.Begin? || step.TryInsert? || step.Wake? || step.CheckCache? || step.ReadCell?
  }

  lemma OwningTold(done: seq<Step>, after: seq<Step>, s: State, step: Step, task: Task)
    requires !step.External? && ComesToOwn(step) && TaskOk(task) && EnabledFor(s, task, step)
    requires Told(done, step.t, task) && Extends(done, step, after)
    ensures Told(after, step.t, NextTask(s, task, step))
  {
    hide Resolutions, Wakes;
  }

  lemma ResolvingTold(done: seq<Step>, after: seq<Step>, s: State, step: Step, task: Task)
    requires step.ResolveInit? || step.ResolveCompute?
    requires TaskOk(task) && EnabledFor(s, task, step) && Told(done, step.t, task) && Extends(done, step, after)
    ensures Told(after, step.t, NextTask(s, task, step))
  {
    hide Resolutions, Wakes;
  }

  lemma EndingTold(done: seq<Step>, after: seq<Step>, s: State, step: Step, task: Task)
    requires !step.External? && !ComesToOwn(step) && !step.ResolveInit? && !step.ResolveCompute?
    requires TaskOk(task) && EnabledFor(s, task, step) && Told(done, step.t, task) && Extends(done, step, after)
    ensures Told(after, step.t, NextTask(s, task, step))
  {
    hide Resolutions, Wakes;
  }

  lemma OwnTold(done: seq<Step>, s: State, step: Step, task: Task)
    requires !step.External? && TaskOk(task) && EnabledFor(s, task, step) && Told(done, step.t, task)
    ensures Told(done + [step], step.t, NextTask(s, task, step))
  {
    hide Resolutions, Wakes, Told, NextTask, EnabledFor, TaskOk;
    CountsNext(done, step, step.t);
    var after := done + [step];
    assert after[|done|] == step;
    if ComesToOwn(step) {
      OwningTold(done, after, s, step, task);
    } else if step.ResolveInit? || step.ResolveCompute? {
      ResolvingTold(done, after, s, step, task);
    } else {
      EndingTold(done, after, s, step, task);
    }
  }

  lemma StepTold(done: seq<Step>, s: State, step: Step)
    requires Inv(s) && Enabled(s, step) && AllTold(done, s)
    ensures AllTold(done + [step], Apply(s, step))
  {
    hide Told, NextTask, EnabledFor, TaskOk;
    var s' := Apply(s, step);
    forall t | 0 <= t < |s'.tasks| ensures Told(done + [step], t, s'.tasks[t]) {
      if !step.External? && step.t == t {
        OwnTold(done, s, step, s.tasks[t]);
      } else {
        StillTold(done, step, t, s.tasks[t]);
      }
    }
  }

  lemma {:induction false} RunTold(done: seq<Step>, s0: State, steps: seq<Step>, s: State)
    requires Inv(s0) && AllTold(done, s0) && Run(s0, steps, s)
    ensures AllTold(done + steps, s)
    decreases |steps|
  {
    if steps == [] {
      assert done + steps == done;
    } else {
      hide Inv, AllTold, Apply, Enabled;
      StepInv(s0, steps[0]);
      StepTold(done, s0, steps[0]);
      RunTold(done + [steps[0]], Apply(s0, steps[0]), steps[1..], s);
      assert done + [steps[0]] + steps[1..] == done + steps;
    }
  }

  /** Every answer is accounted for by the steps of the run.  An initialized value is the one the
      initializer resolved to, the only future of that call that was resolved, and it was inserted; an
      error is the initializer's; a compute call that is done wrote what its closure yielded, unless that
      was to do nothing or to fail; a call gives up after being woken 200 times by failed owners. */
  lemma AnswersAreJustified(s0: State, steps: seq<Step>, s: State, t: CallId)
    requires Init(s0) && Run(s0, steps, s) && t < |s.tasks|
    ensures Resolutions(steps, t) <= 1
    ensures s.tasks[t].pc.Inserting? ==> ResolveInit(t, Resolved(Ok(s.tasks[t].pc.v))) in steps
    ensures s.tasks[t].pc.Writing? ==> ResolveCompute(t, Yields(s.tasks[t].pc.op)) in steps
    ensures s.tasks[t].pc.Done? ==> Justified(steps, t, s.tasks[t], s.tasks[t].pc.out)
  {
    InitInv(s0);
    NothingTold(s0);
    hide Inv, Init, Told, Apply, Enabled;
    RunTold([], s0, steps, s);
    assert [] + steps == steps;
    ToldMeans(steps, t, s.tasks[t]);
  }

  lemma NothingTold(s: State)
    requires Init(s)
    ensures AllTold([], s)
  {
    forall t | 0 <= t < |s.tasks| ensures Told([], t, s.tasks[t]) {
      assert s.tasks[t] == Task(s.tasks[t].call, Start, 0, Computing, false, false, None);
    }
  }

  lemma ToldMeans(done: seq<Step>, t: CallId, task: Task)
    requires Told(done, t, task)
    ensures Resolutions(done, t) <= 1
    ensures task.pc.Inserting? ==> ResolveInit(t, Resolved(Ok(task.pc.v))) in done
    ensures task.pc.Writing? ==> ResolveCompute(t, Yields(task.pc.op)) in done
    ensures task.pc.Done? ==> Justified(done, t, task, task.pc.out)
  {
    hide Resolutions, Wakes, Justified;
  }
}
