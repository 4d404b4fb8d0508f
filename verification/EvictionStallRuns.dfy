/** The stalled states are reached: runs of the write-log protocol, from an empty cache of the same
    capacity, that end in them. */
module EvictionStallRuns {
  import opened Common
  import opened PolicyRecord
  import opened EntryGeneration
  import opened WriteLog
  import opened WriteLogRuns
  import opened WriteLogTheorems
  import opened WriteLogPolicy
  import EvictionStalls

  function EmptyCache(clients: seq<Task>): State {
    State(map[], [], clients, [], [], Free, {}, [], 0, 0, [], [], 0)
  }

  // ----- one entry, changed again and again --------------------------------------------------------

  /** It is inserted with weight 1 and then always updated to weight 2. */
  function WeightAfter(n: nat): nat {
    if n <= 1 then 1 else 2
  }

  function EntryAfter(n: nat): EntryInfo {
    Drained(EntryInfo(0, true, false, 0, 0, WeightAfter(n), Some(0)), n)
  }

  /** The entry has been changed `n` times and everything is drained. */
  ghost predicate ChangedAndDrained(s: State, n: nat) {
    && s.tasks == [IDLE_TASK] && s.interrupted == [] && s.channel == [] && s.maint == Free && s.hand == {}
    && s.table == map[0 := 0] && s.infos == [EntryAfter(n)]
    && s.deque == [0] && s.entryCount == 1 && s.weightedSize == WeightAfter(n)
  }

  lemma FirstChange(c: Config) returns (s0: State, steps: seq<Step>, s: State)
    requires c.maxCapacity == Some(1)
    ensures Init(s0) && Run(c, s0, steps, s) && ChangedAndDrained(s, 1)
  {
    s0 := EmptyCache([IDLE_TASK]);
    var a := TableUpsert(0, 0, 1, 0);
    RunStep(c, s0, [], s0, a);
    var s1 := Apply(c, s0, a);
    hide Run;
    var op := Upsert(0, 0, 1, 0, 1);
    assert s1.tasks == [Held(op)];
    steps := SendAndReturn(c, s0, [] + [a], s1, 0, op);
    var s2 := s1.(tasks := s1.tasks[0 := IDLE_TASK], channel := s1.channel + [op]);
    s, steps := AdmitHead(c, s0, steps, s2);
    PolicyGenSticks(1);
    assert s.infos[0] == EntryAfter(1);
  }

  lemma NextChange(c: Config, s0: State, before: seq<Step>, s: State, n: nat) returns (steps: seq<Step>, s': State)
    requires Run(c, s0, before, s) && ChangedAndDrained(s, n) && n > 0
    ensures Run(c, s0, steps, s') && ChangedAndDrained(s', n + 1)
  {
    hide Run;
    var a := TableUpsert(0, 0, 2, 0);
    RunStep(c, s0, before, s, a);
    var s1 := Apply(c, s, a);
    var op := Upsert(|s.issued|, 0, EntryGenAfter(n + 1), WeightAfter(n), 2);
    ModNext(n);
    assert s1.tasks == [Held(op)];
    steps := SendAndReturn(c, s0, before + [a], s1, 0, op);
    var s2 := s1.(tasks := s1.tasks[0 := IDLE_TASK], channel := s1.channel + [op]);
    s', steps := UpdateHead(c, s0, steps, s2);
    assert s'.infos[0] == EntryAfter(n + 1);
    assert s'.deque == [0];
  }

  lemma {:induction false} ChangesReached(c: Config, n: nat) returns (s0: State, steps: seq<Step>, s: State)
    requires c.maxCapacity == Some(1) && n > 0
    ensures Init(s0) && Run(c, s0, steps, s) && ChangedAndDrained(s, n)
  {
    hide Run, ChangedAndDrained, Init;
    if n == 1 {
      s0, steps, s := FirstChange(c);
    } else {
      s0, steps, s := ChangesReached(c, n - 1);
      steps, s := NextChange(c, s0, steps, s, n - 1);
    }
  }

  /** After 65536 changes of one entry, all drained, the cache is the one that stays over its capacity. */
  lemma WrappedCacheIsReached(c: Config) returns (s0: State, steps: seq<Step>, s: State)
    requires c.maxCapacity == Some(1)
    ensures Init(s0) && Run(c, s0, steps, s) && Quiescent(s)
    ensures PolicyOf(s) == EvictionStalls.WrappedCache()
  {
    s0, steps, s := ChangesReached(c, U16_MOD);
    hide Run, Init, Drained;
    assert PolicyOf(s).infos == map[0 := EntryAfter(U16_MOD)];
  }

  // ----- an entry removed and inserted again -----------------------------------------------------------

  /** The first client's entry has been inserted and admitted. */
  function Inserted(): State {
    var op := Upsert(0, 0, 1, 0, 1);
    State(map[7 := 0], [EntryInfo(7, true, false, 1, 1, 1, Some(0))], [IDLE_TASK, IDLE_TASK], [], [], Free, {},
          [0], 1, 1, [op], [op], 0)
  }

  lemma InsertedReached(c: Config) returns (s0: State, steps: seq<Step>)
    requires c == Config(Some(2), Lru)
    ensures Init(s0) && Run(c, s0, steps, Inserted())
  {
    s0 := EmptyCache([IDLE_TASK, IDLE_TASK]);
    var a := TableUpsert(0, 7, 1, 0);
    RunStep(c, s0, [], s0, a);
    var s1 := Apply(c, s0, a);
    hide Run;
    var op := Upsert(0, 0, 1, 0, 1);
    assert s1.tasks == [Held(op), IDLE_TASK];
    steps := SendAndReturn(c, s0, [] + [a], s1, 0, op);
    var s2 := s1.(tasks := s1.tasks[0 := IDLE_TASK], channel := s1.channel + [op]);
    assert s2.channel == [op] && s2.tasks == [IDLE_TASK, IDLE_TASK];
    var s;
    s, steps := AdmitHead(c, s0, steps, s2);
    assert s == Inserted();
  }

  /** The second client removes it, and keeps its op; the first client inserts the key anew. */
  function Replaced(): State {
    var ins, rem, again := Upsert(0, 0, 1, 0, 1), Remove(1, 0, 2), Upsert(2, 1, 1, 0, 2);
    State(map[7 := 1],
          [EntryInfo(7, true, true, 2, 1, 1, Some(0)), EntryInfo(7, false, false, 1, 0, 2, Some(1))],
          [Held(again), Held(rem)], [], [], Free, {}, [0], 1, 1, [ins, rem, again], [ins], 0)
  }

  lemma ReplacedReached(c: Config) returns (s0: State, steps: seq<Step>)
    requires c == Config(Some(2), Lru)
    ensures Init(s0) && Run(c, s0, steps, Replaced())
  {
    s0, steps := InsertedReached(c);
    hide Run;
    var a, b := TableRemove(1, 7), TableUpsert(0, 7, 2, 1);
    RunStep(c, s0, steps, Inserted(), a);
    RemoveIt(c);
    InsertAgain(c);
    hide Inserted, Taken, Replaced, Apply, Enabled;
    RunStep(c, s0, steps + [a], Taken(), b);
    steps := steps + [a] + [b];
  }

  function Taken(): State {
    var ins, rem := Upsert(0, 0, 1, 0, 1), Remove(1, 0, 2);
    State(map[], [EntryInfo(7, true, true, 2, 1, 1, Some(0))], [IDLE_TASK, Held(rem)], [], [], Free, {},
          [0], 1, 1, [ins, rem], [ins], 0)
  }

  lemma RemoveIt(c: Config)
    ensures Enabled(c, Inserted(), TableRemove(1, 7)) && Apply(c, Inserted(), TableRemove(1, 7)) == Taken()
  {
    var s := Apply(c, Inserted(), TableRemove(1, 7));
    assert s.table == map[] && s.infos == Taken().infos && s.tasks == Taken().tasks && s.issued == Taken().issued;
  }

  lemma InsertAgain(c: Config)
    ensures Enabled(c, Taken(), TableUpsert(0, 7, 2, 1)) && Apply(c, Taken(), TableUpsert(0, 7, 2, 1)) == Replaced()
  {
    var s := Apply(c, Taken(), TableUpsert(0, 7, 2, 1));
    assert s.infos == Replaced().infos && s.tasks == Replaced().tasks && s.issued == Replaced().issued;
  }

  /** With capacity 2 and the LRU policy the new entry is admitted while the removal of the old one is
      still pending: the cache is the one whose front node stalls eviction. */
  lemma ShadowedCacheIsReached(c: Config) returns (s0: State, steps: seq<Step>, s: State)
    requires c == Config(Some(2), Lru)
    ensures Init(s0) && Run(c, s0, steps, s) && PolicyOf(s) == EvictionStalls.ShadowedCache()
  {
    s0, steps := ReplacedReached(c);
    hide Run, Init;
    var s1, op := Replaced(), Upsert(2, 1, 1, 0, 2);
    steps := SendAndReturn(c, s0, steps, s1, 0, op);
    var s2 := s1.(tasks := s1.tasks[0 := IDLE_TASK], channel := s1.channel + [op]);
    assert s2.channel == [op];
    s, steps := AdmitHead(c, s0, steps, s2);
    assert s.infos == [EntryInfo(7, true, true, 2, 1, 1, Some(0)), EntryInfo(7, true, false, 1, 1, 2, Some(1))];
    assert PolicyOf(s).infos == EvictionStalls.ShadowedCache().infos;
    assert s.deque == [0, 1];
  }
}
