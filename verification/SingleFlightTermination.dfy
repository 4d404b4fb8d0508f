/** Every call comes to its end: the calls of the single-flight protocol can take only boundedly many
    steps, in whatever order they are taken, and can only stop when all are done. */
module SingleFlightTermination {
  import opened Common
  import opened SingleFlight
  import opened SingleFlightProof

  const TOP: nat := 14

  /** How far a call is from its end.  A call that waits for a locked waiter can do nothing until the
      owner is done; then it may have to try again, but there is one unfinished call less. */
  function Rank(s: State, task: Task): (r: nat)
    ensures r <= TOP
  {
    match task.pc
    case Start => 14
    case Waiting(u) => if u < |s.tasks| && s.tasks[u].locked then 1 else 13
    case Trying => 12
    case Owning => 11
    case Initializing => 10
    case Running(_) => 10
    case Inserting(_, written) => if written then 8 else 9
    case Writing(_, _, written) => if written then 8 else 9
    case Removing(_) => 7
    case Releasing(_) => 6
    case Done(_) => 0
  }

  function RankSum(s: State, n: nat): nat
    requires n <= |s.tasks|
  {
    if n == 0 then 0 else RankSum(s, n - 1) + Rank(s, s.tasks[n - 1])
  }

  function Unfinished(tasks: seq<Task>): nat {
    if tasks == [] then 0
    else Unfinished(tasks[..|tasks| - 1]) + if tasks[|tasks| - 1].pc.Done? then 0 else 1
  }

  /** Unfinished calls first, then how far they are. */
  function Distance(s: State): nat {
    Unfinished(s.tasks) * (TOP * |s.tasks| + 1) + RankSum(s, |s.tasks|)
  }

  lemma {:induction false} RankSumBound(s: State, n: nat)
    requires n <= |s.tasks|
    ensures RankSum(s, n) <= TOP * n
  {
    if n > 0 { RankSumBound(s, n - 1); }
  }

  lemma {:induction false} RankSumUpdate(s: State, s': State, t: nat, n: nat)
    requires n <= |s.tasks| == |s'.tasks| && t < |s.tasks|
    requires forall x :: 0 <= x < |s.tasks| && x != t ==> Rank(s', s'.tasks[x]) == Rank(s, s.tasks[x])
    ensures RankSum(s', n) == RankSum(s, n) + if t < n then Rank(s', s'.tasks[t]) - Rank(s, s.tasks[t]) else 0
  {
    hide Rank;
    if n > 0 { RankSumUpdate(s, s', t, n - 1); }
  }

  lemma {:induction false} UnfinishedUpdate(tasks: seq<Task>, t: nat, task: Task)
    requires t < |tasks| && !tasks[t].pc.Done?
    ensures Unfinished(tasks[t := task]) == Unfinished(tasks) - if task.pc.Done? then 1 else 0
  {
    var n := |tasks| - 1;
    if t == n {
      assert tasks[t := task][..n] == tasks[..n];
    } else {
      assert tasks[t := task][..n] == tasks[..n][t := task];
      UnfinishedUpdate(tasks[..n], t, task);
    }
  }

  /** The call that takes a step without ending gets nearer to its end. */
  lemma OwnRankFalls(s: State, task: Task, step: Step)
    requires !step.External? && !step.TryInsert? && TaskOk(task) && EnabledFor(s, task, step)
    ensures NextTask(s, task, step).pc.Done? || Rank(s, NextTask(s, task, step)) < Rank(s, task)
  {
  }

  lemma InsertRankFalls(s: State, t: CallId)
    requires Inv(s) && Enabled(s, TryInsert(t))
    ensures var task' := NextTask(s, s.tasks[t], TryInsert(t));
      task'.pc.Done? || Rank(s, task') < Rank(s, s.tasks[t])
  {
    var task := s.tasks[t];
    assert TaskOk(task) && WaitersOk(s);
    if WKeyOf(task.call) in s.waiters { assert TaskOk(s.tasks[s.waiters[WKeyOf(task.call)]]); }
    hide Inv, TasksOk, WaitingOk, JoinedOk;
  }

  lemma RankFalls(s: State, step: Step)
    requires Inv(s) && Enabled(s, step) && !step.External?
    ensures var task := s.tasks[step.t]; var task' := NextTask(s, task, step);
      task'.pc.Done? || Rank(s, task') < Rank(s, task)
  {
    assert TaskOk(s.tasks[step.t]);
    hide Inv, TaskOk, NextTask, Rank;
    if step.TryInsert? { InsertRankFalls(s, step.t); } else { OwnRankFalls(s, s.tasks[step.t], step); }
  }

  /** The others' ranks only depend on the locks of the calls they wait for. */
  lemma OtherRanksStay(s: State, s': State, t: CallId)
    requires Inv(s) && t < |s.tasks|
    requires |s'.tasks| == |s.tasks| && s'.tasks == s.tasks[t := s'.tasks[t]]
    requires s.tasks[t].owned ==> s'.tasks[t].locked == s.tasks[t].locked
    ensures forall x :: 0 <= x < |s.tasks| && x != t ==> Rank(s', s'.tasks[x]) == Rank(s, s.tasks[x])
  {
    assert WaitingOk(s);
    hide Inv, TasksOk, WaitersOk, JoinedOk;
    forall x | 0 <= x < |s.tasks| && x != t ensures Rank(s', s'.tasks[x]) == Rank(s, s.tasks[x]) {
      if s.tasks[x].pc.Waiting? { assert OwnerFor(s, x, s.tasks[x].pc.on); }
    }
  }

  lemma OwnRankStays(s: State, s': State, t: CallId, task: Task)
    requires t < |s.tasks| == |s'.tasks| && s'.tasks == s.tasks[t := task] && LinksOk(s, t, task)
    ensures Rank(s', task) == Rank(s, task)
  {
  }

  /** An owned waiter stays locked until its call is done. */
  lemma LockStays(a: Task, b: Task)
    requires TaskOk(a) && TaskOk(b) && Evolves(a, b) && !b.pc.Done?
    ensures a.owned ==> b.locked == a.locked
  {
  }

  lemma StepTasks(s: State, step: Step)
    requires Enabled(s, step) && !step.External?
    ensures Apply(s, step).tasks == s.tasks[step.t := NextTask(s, s.tasks[step.t], step)]
  {
    hide NextTask, EnabledFor;
  }

  lemma EndLowersDistance(s: State, s': State, t: CallId)
    requires t < |s.tasks| == |s'.tasks| && s'.tasks == s.tasks[t := s'.tasks[t]]
    requires !s.tasks[t].pc.Done? && s'.tasks[t].pc.Done?
    ensures Distance(s') < Distance(s)
  {
    hide Rank, RankSum, Unfinished;
    UnfinishedUpdate(s.tasks, t, s'.tasks[t]);
    RankSumBound(s', |s'.tasks|);
    OneLess(Unfinished(s.tasks), TOP * |s.tasks|, RankSum(s', |s'.tasks|), RankSum(s, |s.tasks|));
  }

  lemma MoveLowersDistance(s: State, s': State, t: CallId)
    requires t < |s.tasks| == |s'.tasks| && s'.tasks == s.tasks[t := s'.tasks[t]]
    requires !s.tasks[t].pc.Done? && !s'.tasks[t].pc.Done?
    requires Rank(s', s'.tasks[t]) < Rank(s, s.tasks[t])
    requires forall x :: 0 <= x < |s.tasks| && x != t ==> Rank(s', s'.tasks[x]) == Rank(s, s.tasks[x])
    ensures Distance(s') < Distance(s)
  {
    hide Rank, RankSum, Unfinished;
    UnfinishedUpdate(s.tasks, t, s'.tasks[t]);
    RankSumUpdate(s, s', t, |s.tasks|);
  }

  lemma TaskOkAt(s: State, t: CallId)
    requires Inv(s) && t < |s.tasks|
    ensures TaskOk(s.tasks[t])
  {
  }

  /** Every step of a call, completions, panics and aborts included, lowers the distance. */
  lemma CallStepLowersDistance(s: State, step: Step)
    requires Inv(s) && Enabled(s, step) && !step.External?
    ensures Distance(Apply(s, step)) < Distance(s)
  {
    hide Apply, NextTask, TaskOk, Inv, Rank, EnabledFor, Distance, LinksOk;
    var s', t := Apply(s, step), step.t;
    StepTasks(s, step);
    StepTaskOk(s, step);
    TaskOkAt(s, t);
    if s'.tasks[t].pc.Done? {
      EndLowersDistance(s, s', t);
    } else {
      RankFalls(s, step);
      NewLinks(s, step);
      OwnRankStays(s, s', t, s'.tasks[t]);
      LockStays(s.tasks[t], s'.tasks[t]);
      OtherRanksStay(s, s', t);
      MoveLowersDistance(s, s', t);
    }
  }

  lemma OneLess(u: nat, b: nat, r': nat, r: nat)
    requires u > 0 && r' <= b
    ensures (u - 1) * (b + 1) + r' < u * (b + 1) + r
  {
    assert u * (b + 1) == (u - 1) * (b + 1) + (b + 1);
  }

  function CallSteps(steps: seq<Step>): nat {
    if steps == [] then 0 else (if steps[0].External? then 0 else 1) + CallSteps(steps[1..])
  }

  /** Whoever else writes the table meanwhile, a run contains at most `Distance(s)` steps of calls. */
  lemma {:induction false} CallStepsAreBounded(s: State, steps: seq<Step>, s': State)
    requires Inv(s) && Run(s, steps, s')
    ensures Inv(s') && CallSteps(steps) + Distance(s') <= Distance(s)
    decreases |steps|
  {
    if steps != [] {
      StepInv(s, steps[0]);
      if steps[0].External? {
        WriteKeepsDistance(s, steps[0]);
      } else {
        CallStepLowersDistance(s, steps[0]);
      }
      hide Inv, Distance, Apply, Enabled;
      CallStepsAreBounded(Apply(s, steps[0]), steps[1..], s');
    }
  }

  lemma WriteKeepsDistance(s: State, step: Step)
    requires step.External?
    ensures Distance(Apply(s, step)) == Distance(s)
  {
    SameRanks(s, Apply(s, step), |s.tasks|);
  }

  lemma {:induction false} SameRanks(s: State, s': State, n: nat)
    requires s'.tasks == s.tasks && n <= |s.tasks|
    ensures RankSum(s', n) == RankSum(s, n)
  {
    if n > 0 { SameRanks(s, s', n - 1); }
  }

  /** From every reachable state, every run takes boundedly many steps of calls; and where no call can
      take a step of its own any more, all calls are done and no waiter is left. */
  lemma EveryCallFinishes(s: State, steps: seq<Step>, s': State)
    requires Reachable(s) && Run(s, steps, s')
    ensures CallSteps(steps) <= Distance(s)
    ensures (forall step :: Enabled(s', step) ==> step.External? || step.Abort?) ==>
      s'.waiters == map[] && forall t :: 0 <= t < |s'.tasks| ==> s'.tasks[t].pc.Done?
  {
    hide Inv, Distance, Apply, Enabled;
    ReachableInv(s);
    CallStepsAreBounded(s, steps, s');
    if forall step :: Enabled(s', step) ==> step.External? || step.Abort? {
      ReachableOnwards(s, steps, s');
      AllDone(s');
      NoWaiterLeaks(s');
    }
  }

  lemma AllDone(s: State)
    requires Reachable(s) && forall step :: Enabled(s, step) ==> step.External? || step.Abort?
    ensures forall t :: 0 <= t < |s.tasks| ==> s.tasks[t].pc.Done?
  {
    hide Enabled;
    forall t | 0 <= t < |s.tasks| ensures s.tasks[t].pc.Done? {
      if !s.tasks[t].pc.Done? {
        var step := NoDeadlock(s, t);
        assert false;
      }
    }
  }

  lemma ReachableOnwards(s: State, steps: seq<Step>, s': State)
    requires Reachable(s) && Run(s, steps, s')
    ensures Reachable(s')
  {
    var s0, before :| Init(s0) && Run(s0, before, s);
    hide Init;
    RunAppend(s0, before, s, steps, s');
  }

  lemma {:induction false} RunAppend(s0: State, a: seq<Step>, s1: State, b: seq<Step>, s2: State)
    requires Run(s0, a, s1) && Run(s1, b, s2)
    ensures Run(s0, a + b, s2)
    decreases |a|
  {
    hide Enabled, Apply;
    if a == [] {
      assert a + b == b;
    } else {
      assert (a + b)[1..] == a[1..] + b;
      RunAppend(Apply(s0, a[0]), a[1..], s1, b, s2);
    }
  }
}
