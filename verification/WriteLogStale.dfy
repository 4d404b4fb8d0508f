/** Runs that need the bound on changes: an entry that is updated faster than its operations are drained
    loses every contest without being settled, and is then admitted. */
module WriteLogStale {
  import opened Common
  import opened PolicyRecord
  import opened WriteLog
  import opened WriteLogRuns
  import opened WriteLogTheorems
  import opened WriteLogAccounting

  /** The operation of the n-th change of entry 1, the second one in the cache. */
  function ChangeOp(n: nat): WriteOp {
    Upsert(n, 1, n, if n <= 1 then 0 else 1, 1)
  }

  const FIRST := EntryInfo(0, true, false, 1, 1, 1, Some(0))

  ghost predicate InSerialOrder(ops: seq<WriteOp>) {
    forall i :: 0 <= i < |ops| ==> ops[i].serial == i
  }

  /** The cache is full with entry 0; entry 1 has been changed `n` times, and all its operations but the last
      are drained. */
  ghost predicate Lagging(s: State, n: nat) {
    && s.tasks == [IDLE_TASK] && s.interrupted == [] && s.maint == Free && s.hand == {}
    && s.table == map[0 := 0, 7 := 1] && s.infos == [FIRST, EntryInfo(7, false, false, n, 0, 1, Some(0))]
    && s.deque == [0] && s.entryCount == 1 && s.weightedSize == 1
    && s.channel == [ChangeOp(n)] && |s.issued| == n + 1 && |s.drained| == n && InSerialOrder(s.drained)
  }

  ghost predicate AllUnit(steps: seq<Step>) {
    forall i :: 0 <= i < |steps| ==> UnitStep(steps[i])
  }

  lemma {:induction false} FullCache(c: Config) returns (s0: State, steps: seq<Step>, s: State)
    requires c == Config(Some(1), TinyLfu)
    ensures Init(s0) && Run(c, s0, steps, s) && AllUnit(steps)
    ensures s == State(map[0 := 0], [FIRST], [IDLE_TASK], [], [], Free, {}, [0], 1, 1,
                       [Upsert(0, 0, 1, 0, 1)], [Upsert(0, 0, 1, 0, 1)], 0)
  {
    s0 := State(map[], [], [IDLE_TASK], [], [], Free, {}, [], 0, 0, [], [], 0);
    var a, op := TableUpsert(0, 0, 1, 0), Upsert(0, 0, 1, 0, 1);
    RunStep(c, s0, [], s0, a);
    var s1 := Apply(c, s0, a);
    hide Run;
    assert s1.tasks == [Held(op)];
    steps := SendAndReturn(c, s0, [] + [a], s1, 0, op);
    var s2 := s1.(tasks := s1.tasks[0 := IDLE_TASK], channel := s1.channel + [op]);
    s, steps := AdmitHead(c, s0, steps, s2);
    assert s.infos == [FIRST];
  }

  lemma FirstLagging(c: Config) returns (s0: State, steps: seq<Step>, s: State)
    requires c == Config(Some(1), TinyLfu)
    ensures Init(s0) && Run(c, s0, steps, s) && Lagging(s, 1) && AllUnit(steps)
  {
    s0, steps, s := FullCache(c);
    hide Run, Init;
    var a, op := TableUpsert(0, 7, 1, 0), ChangeOp(1);
    RunStep(c, s0, steps, s, a);
    var s1 := Apply(c, s, a);
    assert s1.tasks == [Held(op)];
    steps := SendAndReturn(c, s0, steps + [a], s1, 0, op);
    s := s1.(tasks := s1.tasks[0 := IDLE_TASK], channel := s1.channel + [op]);
  }

  /** The entry is changed once more, and then the operation before is drained: it loses, and as it is no
      longer the latest, the entry is neither removed nor settled. */
  lemma NextLagging(c: Config, s0: State, before: seq<Step>, s: State, n: nat) returns (steps: seq<Step>, s': State)
    requires c == Config(Some(1), TinyLfu) && Run(c, s0, before, s) && AllUnit(before)
    requires Lagging(s, n) && 0 < n < 65535
    ensures Run(c, s0, steps, s') && Lagging(s', n + 1) && AllUnit(steps)
  {
    hide Run;
    var a, op := TableUpsert(0, 7, 1, 0), ChangeOp(n + 1);
    RunStep(c, s0, before, s, a);
    var s1 := Apply(c, s, a);
    assert s1.infos == [FIRST, EntryInfo(7, false, false, n + 1, 0, 1, Some(0))] && s1.tasks == [Held(op)];
    steps := CheckHead(c, s0, before + [a], s1);
    var s2 := s1.(channel := [], maint := Checked(ChangeOp(n)));
    assert s1.channel[1..] == [];
    RunStep(c, s0, steps, s2, RejectCandidate);
    var s3 := s2.(maint := Free, drained := s2.drained + [ChangeOp(n)]);
    assert Apply(c, s2, RejectCandidate) == s3;
    steps := SendAndReturn(c, s0, steps + [RejectCandidate], s3, 0, op);
    s' := s3.(tasks := s3.tasks[0 := IDLE_TASK], channel := s3.channel + [op]);
    assert s'.channel == [op];
  }

  lemma {:induction false} LaggingReached(c: Config, n: nat) returns (s0: State, steps: seq<Step>, s: State)
    requires c == Config(Some(1), TinyLfu) && 0 < n < 65536
    ensures Init(s0) && Run(c, s0, steps, s) && Lagging(s, n) && AllUnit(steps)
  {
    hide Run, Lagging, Init, AllUnit;
    if n == 1 {
      s0, steps, s := FirstLagging(c);
    } else {
      s0, steps, s := LaggingReached(c, n - 1);
      steps, s := NextLagging(c, s0, steps, s, n - 1);
    }
  }

  /** Entry 0 is evicted and entry 1 admitted by its last operation. */
  lemma LastWins(c: Config, s0: State, before: seq<Step>, s: State, n: nat) returns (steps: seq<Step>, s': State)
    requires c == Config(Some(1), TinyLfu) && Run(c, s0, before, s) && AllUnit(before) && Lagging(s, n)
    ensures Run(c, s0, steps, s') && AllUnit(steps) && Quiescent(s') && InSerialOrder(s'.drained)
    ensures s'.deque == [1] && |s'.infos| == 2
    ensures s'.infos[1] == EntryInfo(7, true, false, n, SetPolicyGen(0, n), 1, Some(0))
  {
    hide Run, SetPolicyGen;
    steps := CheckHead(c, s0, before, s);
    var s1 := s.(channel := [], maint := Checked(ChangeOp(n)));
    assert s.channel[1..] == [];
    steps, s' := VictimGone(c, s0, steps, s1, n);
    RunStep(c, s0, steps, s', DecideAdmit);
    RunStep(c, s0, steps + [DecideAdmit], s'.(maint := ToAdmit(ChangeOp(n))), AdmitCheck);
    RunStep(c, s0, steps + [DecideAdmit] + [AdmitCheck], s'.(maint := Admitting(ChangeOp(n))), AdmitSet);
    steps := steps + [DecideAdmit] + [AdmitCheck] + [AdmitSet];
    s' := Apply(c, s'.(maint := Admitting(ChangeOp(n))), AdmitSet);
  }

  lemma VictimGone(c: Config, s0: State, before: seq<Step>, s: State, n: nat) returns (steps: seq<Step>, s': State)
    requires Run(c, s0, before, s) && AllUnit(before) && s.maint == Checked(ChangeOp(n)) && s.hand == {}
    requires s.infos == [FIRST, EntryInfo(7, false, false, n, 0, 1, Some(0))] && s.table == map[0 := 0, 7 := 1]
    requires s.deque == [0] && s.entryCount == 1 && s.weightedSize == 1
    ensures Run(c, s0, steps, s') && AllUnit(steps)
    ensures s' == s.(infos := [FIRST.(retired := true, admitted := false), s.infos[1]], table := map[7 := 1],
                     deque := [], entryCount := 0, weightedSize := 0)
  {
    hide Run, Apply;
    var s1 := s.(infos := [FIRST.(retired := true), s.infos[1]], table := map[7 := 1], hand := {0});
    VictimRetired(c, s, s1);
    VictimLeaves(c, s1);
    RunStep(c, s0, before, s, EvictRetire(0));
    RunStep(c, s0, before + [EvictRetire(0)], s1, EvictFinalize(0));
    steps := before + [EvictRetire(0)] + [EvictFinalize(0)];
    s' := Apply(c, s1, EvictFinalize(0));
  }

  lemma VictimRetired(c: Config, s: State, s1: State)
    requires |s.infos| == 2 && s.infos[0] == FIRST && s.table == map[0 := 0, 7 := 1] && s.hand == {}
    requires s1 == s.(infos := [FIRST.(retired := true), s.infos[1]], table := map[7 := 1], hand := {0})
    requires Enabled(c, s, EvictRetire(0))
    ensures Apply(c, s, EvictRetire(0)) == s1
  {
    var r := Apply(c, s, EvictRetire(0));
    assert r.infos == s1.infos && r.table == s1.table && r.hand == s1.hand;
  }

  lemma VictimLeaves(c: Config, s: State)
    requires |s.infos| == 2 && s.infos[0] == FIRST.(retired := true) && s.hand == {0}
    requires s.deque == [0] && s.entryCount == 1 && s.weightedSize == 1 && Enabled(c, s, EvictFinalize(0))
    ensures Apply(c, s, EvictFinalize(0)) ==
      s.(infos := [FIRST.(retired := true, admitted := false), s.infos[1]], hand := {},
         deque := [], entryCount := 0, weightedSize := 0)
  {
    var r := Apply(c, s, EvictFinalize(0));
    WithoutFirst([0]);
    hide Without;
    assert r.infos == [FIRST.(retired := true, admitted := false), s.infos[1]] && r.hand == {};
  }

  /** For every number of changes before the generations wrap around there is a run, drained in table
      order, that ends with everything drained and the entry in the deque; and there it is dirty, so
      that eviction passes it over, if and only if it was changed more than 32767 times. */
  lemma LaggingEntryIsDirtyIff(c: Config, n: nat) returns (s0: State, steps: seq<Step>, s: State)
    requires c == Config(Some(1), TinyLfu) && 0 < n < 65536
    ensures Init(s0) && Run(c, s0, steps, s) && (forall i :: 0 <= i < |steps| ==> UnitStep(steps[i]))
    ensures Quiescent(s) && InTableOrder(s.drained) && s.deque == [1] && |s.infos| == 2 && s.infos[1].entryGen == n
    ensures IsDirty(s.infos[1]) <==> n > 32767
  {
    hide Run, Lagging, Init;
    s0, steps, s := LaggingReached(c, n);
    steps, s := LastWins(c, s0, steps, s, n);
  }
}
