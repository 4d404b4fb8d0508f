/** Building concrete runs of the write-log protocol step by step. */
module WriteLogRuns {
  import opened Common
  import opened PolicyRecord
  import opened WriteLog

  function SentTask(op: WriteOp): Task {
    Task(Sent, false, Some(op), CancelGuard(false, Some(op)))
  }

  function Held(op: WriteOp): Task {
    Task(Mutated, false, Some(op), EMPTY_GUARD)
  }

  /** The steps added insert or update nothing. */
  ghost predicate Extends(before: seq<Step>, steps: seq<Step>) {
    && |before| <= |steps|
    && (forall i :: 0 <= i < |before| ==> steps[i] == before[i])
    && (forall i :: |before| <= i < |steps| ==> !steps[i].TableUpsert?)
  }

  lemma {:induction false} RunStep(c: Config, s0: State, steps: seq<Step>, s1: State, step: Step)
    requires Run(c, s0, steps, s1) && Enabled(c, s1, step)
    ensures Run(c, s0, steps + [step], Apply(c, s1, step))
    decreases |steps|
  {
    if steps == [] {
      assert steps + [step] == [step];
      assert [step][1..] == [];
    } else {
      assert (steps + [step])[1..] == steps[1..] + [step];
      RunStep(c, Apply(c, s0, steps[0]), steps[1..], s1, step);
    }
  }

  /** A client that holds its op sends it. */
  lemma SendHeld(c: Config, s0: State, before: seq<Step>, s: State, t: nat, op: WriteOp) returns (steps: seq<Step>)
    requires Run(c, s0, before, s)
    requires t < |s.tasks| && s.tasks[t] == Held(op) && |s.channel| < WRITE_LOG_CH_SIZE
    ensures Run(c, s0, steps, s.(tasks := s.tasks[t := SentTask(op)], channel := s.channel + [op]))
    ensures Extends(before, steps)
  {
    hide Run;
    RunStep(c, s0, before, s, BeginSend(t));
    var s1 := Apply(c, s, BeginSend(t));
    RunStep(c, s0, before + [BeginSend(t)], s1, TrySend(t));
    steps := before + [BeginSend(t)] + [TrySend(t)];
    assert Apply(c, s1, TrySend(t)).tasks == s.tasks[t := SentTask(op)];
  }

  /** It sends its op and returns. */
  lemma SendAndReturn(c: Config, s0: State, before: seq<Step>, s: State, t: nat, op: WriteOp) returns (steps: seq<Step>)
    requires Run(c, s0, before, s)
    requires t < |s.tasks| && s.tasks[t] == Held(op) && |s.channel| < WRITE_LOG_CH_SIZE
    ensures Run(c, s0, steps, s.(tasks := s.tasks[t := IDLE_TASK], channel := s.channel + [op]))
    ensures Extends(before, steps)
  {
    hide Run;
    var b := SendHeld(c, s0, before, s, t, op);
    var s1 := s.(tasks := s.tasks[t := SentTask(op)], channel := s.channel + [op]);
    RunStep(c, s0, b, s1, ClearGuard(t));
    steps := b + [ClearGuard(t)];
    assert Apply(c, s1, ClearGuard(t)).tasks == s.tasks[t := IDLE_TASK];
  }

  /** Popping an upsert of a live entry and passing the first liveness check. */
  lemma CheckHead(c: Config, s0: State, before: seq<Step>, s: State) returns (steps: seq<Step>)
    requires Run(c, s0, before, s)
    requires s.maint == Free && s.hand == {} && s.channel != [] && s.channel[0].Upsert?
    requires s.channel[0].id < |s.infos| && !s.infos[s.channel[0].id].retired
    ensures Run(c, s0, steps, s.(channel := s.channel[1..], maint := Checked(s.channel[0])))
    ensures Extends(before, steps)
  {
    hide Run;
    RunStep(c, s0, before, s, ReceiveUpsert);
    RunStep(c, s0, before + [ReceiveUpsert],
            s.(maint := Received(s.channel[0]), channel := s.channel[1..]), CheckAlive);
    steps := before + [ReceiveUpsert] + [CheckAlive];
  }

  /** Draining the head of the channel, an upsert of a live unadmitted entry that is admitted. */
  lemma AdmitHead(c: Config, s0: State, before: seq<Step>, s: State) returns (s': State, steps: seq<Step>)
    requires Run(c, s0, before, s)
    requires s.maint == Free && s.hand == {} && s.channel != [] && s.channel[0].Upsert?
    requires c.maxCapacity.None? || s.channel[0].newWeight <= c.maxCapacity.value
    requires s.channel[0].id < |s.infos|
    requires !s.infos[s.channel[0].id].retired && !s.infos[s.channel[0].id].admitted
    ensures Run(c, s0, steps, s') && Extends(before, steps)
    ensures var op := s.channel[0];
      s' == s.(channel := s.channel[1..], drained := s.drained + [op], deque := s.deque + [op.id],
               infos := WithPolicyGen(s.infos[op.id := s.infos[op.id].(admitted := true)], op.id, op.gen),
               entryCount := s.entryCount + 1, weightedSize := SatAdd(s.weightedSize, op.newWeight))
  {
    hide Run, WithPolicyGen;
    var op := s.channel[0];
    var b := CheckHead(c, s0, before, s);
    var s1 := s.(channel := s.channel[1..]);
    RunStep(c, s0, b, s1.(maint := Checked(op)), DecideAdmit);
    RunStep(c, s0, b + [DecideAdmit], s1.(maint := ToAdmit(op)), AdmitCheck);
    RunStep(c, s0, b + [DecideAdmit] + [AdmitCheck], s1.(maint := Admitting(op)), AdmitSet);
    steps := b + [DecideAdmit] + [AdmitCheck] + [AdmitSet];
    s' := Apply(c, s1.(maint := Admitting(op)), AdmitSet);
  }

  /** Draining the head of the channel, an update of an admitted live entry. */
  lemma UpdateHead(c: Config, s0: State, before: seq<Step>, s: State) returns (s': State, steps: seq<Step>)
    requires Run(c, s0, before, s)
    requires s.maint == Free && s.hand == {} && s.channel != [] && s.channel[0].Upsert?
    requires s.channel[0].id < |s.infos|
    requires !s.infos[s.channel[0].id].retired && s.infos[s.channel[0].id].admitted
    ensures Run(c, s0, steps, s') && Extends(before, steps)
    ensures s' == Apply(c, s.(channel := s.channel[1..], maint := Checked(s.channel[0])), ApplyUpdate)
  {
    hide Run;
    var b := CheckHead(c, s0, before, s);
    var s1 := s.(channel := s.channel[1..], maint := Checked(s.channel[0]));
    RunStep(c, s0, b, s1, ApplyUpdate);
    steps := b + [ApplyUpdate];
    s' := Apply(c, s1, ApplyUpdate);
  }
}
