/** A run that loses weight for good: an update that raises the weight of an entry is still pending
    when the entry is removed. */
module WriteLogUndercount {
  import opened Common
  import opened PolicyRecord
  import opened WriteLog
  import opened WriteLogRuns
  import opened WriteLogTheorems

  const INSERT_A := Upsert(0, 0, 1, 0, 1)
  const INSERT_B := Upsert(1, 1, 1, 0, 5)
  const RAISE_A := Upsert(2, 0, 2, 1, 3)
  const REMOVE_A := Remove(3, 0, 3)
  const CLIENTS := [IDLE_TASK, IDLE_TASK]

  function B(): EntryInfo {
    EntryInfo(1, true, false, 1, 1, 5, Some(0))
  }

  function Empty(): State {
    State(map[], [], CLIENTS, [], [], Free, {}, [], 0, 0, [], [], 0)
  }

  /** Entry A, of weight 1, is admitted. */
  function OneEntry(): State {
    Empty().(table := map[0 := 0], infos := [EntryInfo(0, true, false, 1, 1, 1, Some(0))],
             deque := [0], entryCount := 1, weightedSize := 1, issued := [INSERT_A], drained := [INSERT_A])
  }

  /** And entry B, of weight 5. */
  function TwoEntries(): State {
    OneEntry().(table := map[0 := 0, 1 := 1], infos := [EntryInfo(0, true, false, 1, 1, 1, Some(0)), B()],
                deque := [0, 1], entryCount := 2, weightedSize := 6,
                issued := [INSERT_A, INSERT_B], drained := [INSERT_A, INSERT_B])
  }

  /** The update that raises A to weight 3 is in the channel. */
  function Raised(): State {
    TwoEntries().(infos := [EntryInfo(0, true, false, 2, 1, 3, Some(0)), B()],
                  channel := [RAISE_A], issued := [INSERT_A, INSERT_B, RAISE_A])
  }

  /** And after it the removal of A. */
  function Removed(): State {
    Raised().(table := map[1 := 1], infos := [EntryInfo(0, true, true, 3, 1, 3, Some(0)), B()],
              channel := [RAISE_A, REMOVE_A], issued := [INSERT_A, INSERT_B, RAISE_A, REMOVE_A])
  }

  /** The update found its entry dead. */
  function Skipped(): State {
    Removed().(infos := [EntryInfo(0, true, true, 3, 2, 3, Some(0)), B()],
               channel := [REMOVE_A], drained := [INSERT_A, INSERT_B, RAISE_A])
  }

  /** The removal took out weight 3. */
  function Lost(): State {
    Skipped().(infos := [EntryInfo(0, false, true, 3, 3, 3, Some(0)), B()], channel := [],
               deque := [1], entryCount := 1, weightedSize := 3,
               drained := [INSERT_A, INSERT_B, RAISE_A, REMOVE_A])
  }

  /** A client changes the table, sends its op and returns. */
  lemma ChangeAndSend(c: Config, s0: State, before: seq<Step>, s: State, step: Step, op: WriteOp)
    returns (steps: seq<Step>, s': State)
    requires Run(c, s0, before, s) && (step.TableUpsert? || step.TableRemove?) && Enabled(c, s, step)
    requires s.tasks == CLIENTS && |s.channel| < WRITE_LOG_CH_SIZE
    requires Apply(c, s, step).issued == s.issued + [op]
    ensures Run(c, s0, steps, s') && s' == Apply(c, s, step).(tasks := CLIENTS, channel := s.channel + [op])
  {
    RunStep(c, s0, before, s, step);
    hide Run;
    var s1 := Apply(c, s, step);
    assert s1.issued[|s.issued|] == op;
    assert s1.tasks[step.t] == Held(op);
    steps := SendAndReturn(c, s0, before + [step], s1, step.t, op);
    s' := s1.(tasks := s1.tasks[step.t := IDLE_TASK], channel := s1.channel + [op]);
    assert s'.tasks == CLIENTS;
  }

  lemma OneEntryReached(c: Config) returns (steps: seq<Step>)
    requires c.maxCapacity.None?
    ensures Run(c, Empty(), steps, OneEntry())
  {
    var s, s';
    assert Run(c, Empty(), [], Empty());
    hide Run;
    assert [] + [INSERT_A] == [INSERT_A];
    steps, s := ChangeAndSend(c, Empty(), [], Empty(), TableUpsert(0, 0, 1, 0), INSERT_A);
    s', steps := AdmitHead(c, Empty(), steps, s);
    assert s'.infos == OneEntry().infos;
    assert s' == OneEntry();
  }

  lemma TwoEntriesReached(c: Config) returns (steps: seq<Step>)
    requires c.maxCapacity.None?
    ensures Run(c, Empty(), steps, TwoEntries())
  {
    var s, s';
    steps := OneEntryReached(c);
    hide Run;
    steps, s := ChangeAndSend(c, Empty(), steps, OneEntry(), TableUpsert(0, 1, 5, 0), INSERT_B);
    s', steps := AdmitHead(c, Empty(), steps, s);
    assert s'.infos == TwoEntries().infos;
    assert s' == TwoEntries();
  }

  lemma RaisedReached(c: Config) returns (steps: seq<Step>)
    requires c.maxCapacity.None?
    ensures Run(c, Empty(), steps, Raised())
  {
    var s;
    steps := TwoEntriesReached(c);
    hide Run;
    steps, s := ChangeAndSend(c, Empty(), steps, TwoEntries(), TableUpsert(0, 0, 3, 0), RAISE_A);
    assert s.infos == Raised().infos;
    assert s == Raised();
  }

  lemma RemovedReached(c: Config) returns (steps: seq<Step>)
    requires c.maxCapacity.None?
    ensures Run(c, Empty(), steps, Removed())
  {
    var s;
    steps := RaisedReached(c);
    hide Run;
    steps, s := ChangeAndSend(c, Empty(), steps, Raised(), TableRemove(1, 0), REMOVE_A);
    assert s.table == Removed().table;
    assert s.infos == Removed().infos;
    assert s == Removed();
  }

  lemma SkippedReached(c: Config) returns (steps: seq<Step>)
    requires c.maxCapacity.None?
    ensures Run(c, Empty(), steps, Skipped())
  {
    steps := RemovedReached(c);
    hide Run;
    RunStep(c, Empty(), steps, Removed(), ReceiveUpsert);
    var s := Apply(c, Removed(), ReceiveUpsert);
    RunStep(c, Empty(), steps + [ReceiveUpsert], s, CheckAlive);
    steps := steps + [ReceiveUpsert] + [CheckAlive];
    var s' := Apply(c, s, CheckAlive);
    assert s'.infos == Skipped().infos;
    assert s' == Skipped();
  }

  lemma RemovalTakesThree(c: Config)
    ensures Enabled(c, Skipped(), DrainRemove) && Apply(c, Skipped(), DrainRemove) == Lost()
  {
    var s := Apply(c, Skipped(), DrainRemove);
    WithoutFirst([0, 1]);
    hide PositionOf, Without;
    assert s.infos == Lost().infos;
  }

  /** Table order alone is not enough: every op is drained, in the order of the table changes, and the
      one entry left weighs 5 while 3 is counted. */
  lemma PendingUpdateUndercounts(c: Config) returns (s0: State, steps: seq<Step>, s: State)
    requires c.maxCapacity.None?
    ensures Init(s0) && Run(c, s0, steps, s) && Quiescent(s) && s.drained == s.issued
    ensures s.deque == [1] && |s.infos| == 2 && s.infos[1].weight == 5 && s.weightedSize == 3
  {
    hide Run, Apply, Enabled;
    s0 := Empty();
    steps := SkippedReached(c);
    RemovalTakesThree(c);
    RunStep(c, s0, steps, Skipped(), DrainRemove);
    steps := steps + [DrainRemove];
    s := Lost();
  }
}
