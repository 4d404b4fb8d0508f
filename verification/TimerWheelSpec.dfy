/** The hierarchical timer wheel: bucket arithmetic, and the invariants on values. */
module TimerWheelSpec {
  import opened Common

  type Id = nat      // identity of a timer node
  type Time = nat    // nanoseconds since the clock was created

  const LEVELS: nat := 5

  function Count(level: nat): nat
    requires level < LEVELS
  {
    if level == 0 then 64 else if level == 1 then 64 else if level == 2 then 32
    else if level == 3 then 4 else 1
  }

  /** Duration of one bucket, per level: powers of two nanoseconds. */
  function Span(level: nat): nat
    requires level < LEVELS
  {
    if level == 0 then 0x4000_0000             // 1.07 s
    else if level == 1 then 0x10_0000_0000     // 1.14 min
    else if level == 2 then 0x400_0000_0000    // 1.22 h
    else if level == 3 then 0x8000_0000_0000   // 1.63 d
    else 0x2_0000_0000_0000                    // 6.5 d
  }

  /** The spans are the next powers of two of a second, a minute, an hour and a day, and
      every level covers exactly one bucket of the level above it. */
  lemma SpansAreAligned()
    ensures Pow2(29) < 1_000_000_000 <= Pow2(30) == Span(0)
    ensures Pow2(35) < 60 * 1_000_000_000 <= Pow2(36) == Span(1)
    ensures Pow2(41) < 3600 * 1_000_000_000 <= Pow2(42) == Span(2)
    ensures Pow2(46) < 86400 * 1_000_000_000 <= Pow2(47) == Span(3)
    ensures forall l :: 0 <= l < 4 ==> Span(l + 1) == Span(l) * Count(l)
  {
    assert Pow2(10) == 1024 && Pow2(5) == 32 && Pow2(6) == 64 && Pow2(9) == 512;
    Pow2Sum(10, 10); Pow2Sum(20, 9); Pow2Sum(29, 1); Pow2Sum(30, 5); Pow2Sum(35, 1);
    Pow2Sum(36, 5); Pow2Sum(41, 1); Pow2Sum(41, 5); Pow2Sum(46, 1);
  }

  datatype Pos = Pos(level: nat, index: nat)
  datatype Node = Sentinel | Entry(id: Id)

  /** Nanoseconds since the wheel was created. */
  function Nanos(origin: Time, t: Time): nat {
    SatSub(t, origin)
  }

  function Tick(origin: Time, level: nat, t: Time): nat
    requires level < LEVELS
  {
    Nanos(origin, t) / Span(level)
  }

  ghost predicate ValidPos(p: Pos) {
    p.level < LEVELS && p.index < Count(p.level)
  }

  /** Where a node due at `t` goes when the wheel stands at `current`. */
  function BucketIndices(origin: Time, current: Time, t: Time): (p: Pos)
    ensures ValidPos(p)
  {
    var duration := SatSub(t, current);
    if duration < Span(1) then Pos(0, Tick(origin, 0, t) % 64)
    else if duration < Span(2) then Pos(1, Tick(origin, 1, t) % 64)
    else if duration < Span(3) then Pos(2, Tick(origin, 2, t) % 32)
    else if duration < Span(4) then Pos(3, Tick(origin, 3, t) % 4)
    else Pos(4, 0)
  }

  /** The right place for a node due at `t` when the wheel stands at `current`: the finest level that
      reaches that far, where the last level reaches as far as one likes, and there the bucket of `t`. */
  ghost predicate Placed(origin: Time, current: Time, t: Time, p: Pos) {
    && ValidPos(p)
    && p.index == Tick(origin, p.level, t) % Count(p.level)
    && (p.level < 4 ==> SatSub(t, current) < Span(p.level + 1))
    && (forall l :: 0 < l <= p.level ==> SatSub(t, current) >= Span(l))
  }

  /** There is exactly one right place, and the code finds it. */
  lemma PlacedIff(origin: Time, current: Time, t: Time, p: Pos)
    ensures Placed(origin, current, t, p) <==> p == BucketIndices(origin, current, t)
  {
  }

  /** What the levels are for: only nodes due within a minute or so are on level 0, and a node is on a
      level above only if it is at least one bucket of that level away. */
  lemma LevelFollowsDistance(origin: Time, current: Time, t: Time, p: Pos)
    requires Placed(origin, current, t, p)
    ensures p.level == 0 <==> SatSub(t, current) < Span(1)
    ensures p.level > 0 ==> SatSub(t, current) >= Span(p.level)
  {
    assert p.level > 0 ==> SatSub(t, current) >= Span(1);
  }

  /** A node whose tick has come but which is not due yet is filed again on a lower level,
      or on level 0 if it was there: a timer sinks towards level 0 while its time approaches. */
  lemma RefilingDescends(origin: Time, current: Time, t: Time, now: Time, p: Pos, q: Pos)
    requires Placed(origin, current, t, p) && origin <= now < t
    requires Tick(origin, p.level, now) >= Tick(origin, p.level, t)
    requires Placed(origin, now, t, q)
    ensures p.level == 0 ==> q.level == 0
    ensures p.level > 0 ==> q.level < p.level
  {
    SameTickIsNear(origin, p.level, now, t);
    LevelFollowsDistance(origin, now, t, q);
  }

  lemma SameTickIsNear(origin: Time, level: nat, now: Time, t: Time)
    requires level < LEVELS && origin <= now <= t && Tick(origin, level, now) >= Tick(origin, level, t)
    ensures t - now < Span(level)
  {
  }

  // ----- placement invariant ------------------------------------------------------------

  /** A node due at `d` is in the bucket of its tick, and that bucket lies ahead of `now`:
      its tick is not in the past at level 0 and strictly in the future above. */
  ghost predicate Ahead(origin: Time, p: Pos, d: Time, now: Time) {
    && ValidPos(p)
    && p.index == Tick(origin, p.level, d) % Count(p.level)
    && (if p.level == 0 then Tick(origin, 0, d) >= Tick(origin, 0, now)
        else Tick(origin, p.level, d) > Tick(origin, p.level, now))
  }

  lemma TickMonotone(origin: Time, level: nat, a: Time, b: Time)
    requires level < LEVELS && a <= b
    ensures Tick(origin, level, a) <= Tick(origin, level, b)
  {
  }

  /** Equal ticks at one level are equal ticks at every coarser level. */
  lemma TickCoarser(origin: Time, level: nat, coarser: nat, a: Time, b: Time)
    requires level <= coarser < LEVELS && Tick(origin, level, a) == Tick(origin, level, b)
    ensures Tick(origin, coarser, a) == Tick(origin, coarser, b)
    decreases coarser - level
  {
    if level < coarser {
      TickRefines(origin, level, a);
      TickRefines(origin, level, b);
      TickCoarser(origin, level + 1, coarser, a, b);
    }
  }

  lemma TickRefines(origin: Time, level: nat, a: Time)
    requires level < 4
    ensures Tick(origin, level + 1, a) == Tick(origin, level, a) / Count(level)
  {
  }

  /** Placing is right exactly when the due time is not in a past level-0 tick. */
  lemma PlacedAheadIff(origin: Time, current: Time, t: Time)
    requires origin <= current
    ensures Ahead(origin, BucketIndices(origin, current, t), t, current)
            <==> Tick(origin, 0, t) >= Tick(origin, 0, current)
  {
  }

  /** What lies ahead of a later time lies ahead of an earlier one. */
  lemma AheadOfEarlier(origin: Time, p: Pos, d: Time, earlier: Time, now: Time)
    requires earlier <= now && Ahead(origin, p, d, now)
    ensures Ahead(origin, p, d, earlier)
  {
  }

  /** A node ahead of `now` is due after `now` or in the same level-0 tick. */
  lemma AheadIsTimely(origin: Time, p: Pos, d: Time, now: Time)
    requires origin <= now && Ahead(origin, p, d, now)
    ensures d > now || Tick(origin, 0, d) == Tick(origin, 0, now)
  {
    hide Tick;
    if d <= now { TickMonotone(origin, p.level, d, now); }
  }

  /** The time a node is filed for: its due time, unless that lies in a past level-0 tick.  Then it
      goes to the bucket of that tick all the same, which comes up again within 64 ticks. */
  function FiledFor(origin: Time, current: Time, t: Time): Time {
    var a: int, x: int := Tick(origin, 0, current), Tick(origin, 0, t);
    if x >= a then t else origin + Span(0) * (a + (x - a) % 64)
  }

  lemma FiledForTick(origin: Time, current: Time, t: Time)
    requires Tick(origin, 0, t) < Tick(origin, 0, current)
    ensures var a, x := Tick(origin, 0, current), Tick(origin, 0, t);
      && Tick(origin, 0, FiledFor(origin, current, t)) == a + (x - a) % 64
      && (a + (x - a) % 64) % 64 == x % 64
  {
    var a: int, x: int := Tick(origin, 0, current), Tick(origin, 0, t);
    var e := a + (x - a) % 64;
    assert Nanos(origin, origin + Span(0) * e) == Span(0) * e;
  }

  /** Filing puts the node ahead of the wheel for the time it is filed for; that is not before its
      due time, is the due time exactly when that is not in a past tick, and otherwise lies at
      most 63 ticks after the wheel's current time. */
  lemma FiledForAhead(origin: Time, current: Time, t: Time)
    requires origin <= current
    ensures Ahead(origin, BucketIndices(origin, current, t), FiledFor(origin, current, t), current)
    ensures t <= FiledFor(origin, current, t)
    ensures FiledFor(origin, current, t) == t <==> Tick(origin, 0, t) >= Tick(origin, 0, current)
    ensures FiledFor(origin, current, t) > t ==> FiledFor(origin, current, t) <= current + 63 * Span(0)
  {
    PlacedAheadIff(origin, current, t);
    if Tick(origin, 0, t) < Tick(origin, 0, current) {
      FiledForTick(origin, current, t);
      assert SatSub(t, current) == 0;
    }
  }

  // ----- which buckets one level of an advance visits ------------------------------------

  /** Number of buckets visited when the tick moves from `previous` to `now`. */
  function Steps(level: nat, previous: nat, now: nat): nat
    requires level < LEVELS && previous <= now
  {
    if now - previous + 1 < Count(level) then now - previous + 1 else Count(level)
  }

  /** The bucket `j` places after `start`, cyclically. */
  function Turn(level: nat, start: nat, j: nat): nat
    requires level < LEVELS
  {
    (start + j) % Count(level)
  }

  /** Bucket `i` is among the `n` buckets from `start` on. */
  ghost predicate Visited(level: nat, start: nat, n: nat, i: nat)
    requires level < LEVELS
  {
    exists j :: 0 <= j < n && i == Turn(level, start, j)
  }

  /** The sweep from `previous` to `now` visits bucket `p`. */
  ghost predicate InSweep(origin: Time, previous: Time, now: Time, p: Pos) {
    && p.level < LEVELS && Tick(origin, p.level, previous) <= Tick(origin, p.level, now)
    && Visited(p.level, Tick(origin, p.level, previous) % Count(p.level),
               Steps(p.level, Tick(origin, p.level, previous), Tick(origin, p.level, now)), p.index)
  }

  /** Those are the buckets of the ticks from the one of `previous` to the one of `now`, and no others. */
  lemma InSweepIff(origin: Time, previous: Time, now: Time, p: Pos)
    requires p.level < LEVELS && Tick(origin, p.level, previous) <= Tick(origin, p.level, now)
    ensures InSweep(origin, previous, now, p) <==>
      exists tick: nat :: Tick(origin, p.level, previous) <= tick <= Tick(origin, p.level, now)
                          && p.index == Turn(p.level, 0, tick)
  {
    var a, b, n := Tick(origin, p.level, previous), Tick(origin, p.level, now), Count(p.level);
    hide Tick, Count;
    if InSweep(origin, previous, now, p) {
      var j :| 0 <= j < Steps(p.level, a, b) && p.index == Turn(p.level, a % n, j);
      ModShift(p.level, a, j);
      assert p.index == Turn(p.level, 0, a + j);
    }
    if tick: nat :| a <= tick <= b && p.index == Turn(p.level, 0, tick) {
      if b - a + 1 < n {
        ModShift(p.level, a, tick - a);
        assert p.index == Turn(p.level, a % n, tick - a);
      } else {
        var j := OffsetOf(p.level, a % n, p.index);
      }
    }
  }

  /** Where the nodes are, and what they are filed for. */
  datatype Filing = Filing(pos: map<Id, Pos>, due: map<Id, Time>)

  /** Nodes in other buckets stay as they are. */
  ghost predicate OthersStay(origin: Time, previous: Time, now: Time, before: Filing, after: Filing) {
    forall id :: id in before.pos && id in before.due && !InSweep(origin, previous, now, before.pos[id]) ==>
      && id in after.pos && after.pos[id] == before.pos[id]
      && id in after.due && after.due[id] == before.due[id]
  }

  /** A node ahead of the previous time in a bucket the sweep does not visit is ahead of the
      new time as well. */
  lemma UnvisitedIsAhead(origin: Time, p: Pos, d: Time, previous: Time, now: Time)
    requires previous <= now && Ahead(origin, p, d, previous)
    requires Tick(origin, p.level, previous) <= Tick(origin, p.level, now)
    requires !Visited(p.level, Tick(origin, p.level, previous) % Count(p.level),
                      Steps(p.level, Tick(origin, p.level, previous), Tick(origin, p.level, now)),
                      p.index)
    ensures Ahead(origin, p, d, now)
  {
    var a, b, x := Tick(origin, p.level, previous), Tick(origin, p.level, now), Tick(origin, p.level, d);
    var n := Count(p.level);
    if x <= b {
      if b - a + 1 < n {
        ModShift(p.level, a, x - a);
      } else {
        var j := OffsetOf(p.level, a % n, p.index);
      }
      assert false;
    }
  }

  /** Counting on from a tick is turning on from its bucket. */
  lemma ModShift(level: nat, a: nat, j: nat)
    requires level < LEVELS
    ensures (a + j) % Count(level) == Turn(level, a % Count(level), j)
  {
    ShiftedMod(Count(level), a / Count(level), a % Count(level) + j);
    assert a == Count(level) * (a / Count(level)) + a % Count(level);
  }

  lemma {:induction false} ShiftedMod(n: nat, q: nat, r: nat)
    requires n == 1 || n == 4 || n == 32 || n == 64
    ensures (n * q + r) % n == r % n
  {
    if q > 0 {
      ShiftedMod(n, q - 1, r);
      assert n * q + r == n * (q - 1) + r + n;
      AddedMod(n, n * (q - 1) + r);
    }
  }

  lemma AddedMod(n: nat, x: nat)
    requires n == 1 || n == 4 || n == 32 || n == 64
    ensures (x + n) % n == x % n
  {
    if n == 64 { assert (x + 64) % 64 == x % 64; }
    else if n == 32 { assert (x + 32) % 32 == x % 32; }
    else if n == 4 { assert (x + 4) % 4 == x % 4; }
  }

  /** A full turn visits every bucket. */
  lemma OffsetOf(level: nat, start: nat, i: nat) returns (j: nat)
    requires level < LEVELS && start < Count(level) && i < Count(level)
    ensures j < Count(level) && i == Turn(level, start, j)
  {
    j := if i >= start then i - start else i + Count(level) - start;
    if i < start {
      assert start + j == i + Count(level);
      if level == 0 {} else if level == 1 {} else if level == 2 {} else if level == 3 {} else {}
    }
  }

  // ----- bucket contents and node positions ------------------------------------------------

  type Buckets = map<Pos, seq<Node>>

  /** Position agreement: a node's recorded position names the one bucket that contains it,
      no bucket contains a node twice, and every bucket has exactly one sentinel. */
  ghost predicate Agree(buckets: Buckets, pos: map<Id, Pos>) {
    && (forall p :: p in buckets <==> ValidPos(p))
    && (forall p :: p in buckets ==> Distinct(buckets[p]) && Sentinel in buckets[p])
    && (forall p, id :: p in buckets && Entry(id) in buckets[p] ==> id in pos && pos[id] == p)
    && (forall id :: id in pos ==> pos[id] in buckets && Entry(id) in buckets[pos[id]])
  }

  /** Every node lies ahead of `now`, judged by the due time it was filed under. */
  ghost predicate AllAhead(origin: Time, pos: map<Id, Pos>, due: map<Id, Time>, now: Time) {
    forall id :: id in pos ==> id in due && Ahead(origin, pos[id], due[id], now)
  }

  function Push(buckets: Buckets, p: Pos, n: Node): Buckets
    requires p in buckets
  {
    buckets[p := buckets[p] + [n]]
  }

  lemma PushAgree(buckets: Buckets, pos: map<Id, Pos>, id: Id, p: Pos)
    requires Agree(buckets, pos) && id !in pos && ValidPos(p)
    ensures Agree(Push(buckets, p, Entry(id)), pos[id := p])
  {
    var b, b' := buckets[p], buckets[p] + [Entry(id)];
    assert forall x :: x in b' <==> x in b || x == Entry(id);
    assert Entry(id) !in b;
  }

  lemma UnlinkAgree(buckets: Buckets, pos: map<Id, Pos>, id: Id)
    requires Agree(buckets, pos) && id in pos
    ensures Agree(buckets[pos[id] := Without(buckets[pos[id]], Entry(id))], pos - {id})
  {
    WithoutKeeps(buckets[pos[id]], Entry(id));
  }

  /** Reordering one bucket keeps the agreement. */
  lemma ReorderAgree(buckets: Buckets, pos: map<Id, Pos>, p: Pos, b: seq<Node>)
    requires Agree(buckets, pos) && p in buckets && Distinct(b)
    requires forall x :: x in b <==> x in buckets[p]
    ensures Agree(buckets[p := b], pos)
  {
  }

  function SentinelAt(b: seq<Node>): nat
    requires Sentinel in b
  {
    if b[0] == Sentinel then 0 else 1 + SentinelAt(b[1..])
  }

  lemma {:induction false} SentinelAtProps(b: seq<Node>)
    requires Sentinel in b && Distinct(b)
    ensures SentinelAt(b) < |b| && b[SentinelAt(b)] == Sentinel
    ensures forall k :: 0 <= k < |b| && k != SentinelAt(b) ==> b[k].Entry?
  {
    if b[0] != Sentinel {
      assert b == [b[0]] + b[1..];
      SentinelAtProps(b[1..]);
      forall k | 0 <= k < |b| && k != SentinelAt(b) ensures b[k].Entry? {
        if k > 0 { assert b[k] == b[1..][k - 1]; }
      }
    }
  }

  lemma {:induction false} SentinelAtAppend(b: seq<Node>, n: Node)
    requires Sentinel in b
    ensures SentinelAt(b + [n]) == SentinelAt(b)
  {
    if b[0] != Sentinel {
      assert (b + [n])[1..] == b[1..] + [n];
      SentinelAtAppend(b[1..], n);
    }
  }

  // ----- the state of an unfinished sweep ----------------------------------------------------

  /** Where the event iterator stands.  `start` is the first bucket of the current level. */
  datatype Cursor = Cursor(level: nat, start: nat, index: nat, endIndex: nat,
                           newLevel: bool, newIndex: bool)

  function BucketOf(c: Cursor): Pos
    requires c.level < LEVELS
  {
    Pos(c.level, c.index % Count(c.level))
  }

  /** The current level is being swept: the bounds are those of the two ticks, and fit u8. */
  ghost predicate InLevel(origin: Time, previous: Time, now: Time, c: Cursor)
    requires c.level < LEVELS
  {
    var a, b := Tick(origin, c.level, previous), Tick(origin, c.level, now);
    && a < b && c.start == a % Count(c.level)
    && c.start <= c.index < c.endIndex == c.start + Steps(c.level, a, b)
    && c.endIndex <= 127
  }

  /** The bucket the sweep stands at is one of those it visits. */
  lemma CursorInSweep(origin: Time, previous: Time, now: Time, c: Cursor)
    requires c.level < LEVELS && InLevel(origin, previous, now, c)
    ensures InSweep(origin, previous, now, BucketOf(c))
  {
    hide Tick;
    assert BucketOf(c).index == Turn(c.level, c.start, c.index - c.start);
  }

  /** Everything behind the sentinel was filed during this sweep. */
  ghost predicate BehindIsFiled(b: seq<Node>, filed: set<Id>) {
    Sentinel in b && forall k :: SentinelAt(b) < k < |b| ==> b[k].Entry? && b[k].id in filed
  }

  /** The nodes in the first `n` buckets of the sweep of `level` are all in `filed`. */
  ghost predicate VisitedFiled(pos: map<Id, Pos>, filed: set<Id>, level: nat, start: nat, n: nat)
    requires level < LEVELS
  {
    forall id :: id in pos && pos[id].level == level && Visited(level, start, n, pos[id].index) ==>
      id in filed
  }

  /** Nodes in buckets the sweep is done with are in `filed`: filed against the new time,
      or known to lie ahead of it. */
  ghost predicate Swept(buckets: Buckets, pos: map<Id, Pos>, filed: set<Id>, c: Cursor)
    requires c.level < LEVELS
  {
    && (forall id :: id in pos && pos[id].level < c.level ==> id in filed)
    && (!c.newLevel ==>
          c.start <= c.index && VisitedFiled(pos, filed, c.level, c.start, c.index - c.start))
    && (!c.newLevel && !c.newIndex ==>
          BucketOf(c) in buckets && BehindIsFiled(buckets[BucketOf(c)], filed))
  }

  ghost predicate FiledAhead(origin: Time, pos: map<Id, Pos>, due: map<Id, Time>, filed: set<Id>, now: Time) {
    forall id :: id in pos && id in filed ==> id in due && Ahead(origin, pos[id], due[id], now)
  }

  /** Beginning a level: nothing visited yet. */
  lemma EnterLevelSwept(buckets: Buckets, pos: map<Id, Pos>, filed: set<Id>, c: Cursor, start: nat, endIndex: nat)
    requires c.level < LEVELS && c.newLevel && Swept(buckets, pos, filed, c)
    ensures Swept(buckets, pos, filed, Cursor(c.level, start, start, endIndex, false, true))
  {
  }

  /** When the tick of a level has not moved, nothing at this level or above has to move. */
  lemma UnmovedTickIsAhead(origin: Time, pos: map<Id, Pos>, due: map<Id, Time>, filed: set<Id>,
                           previous: Time, now: Time, level: nat)
    requires level < LEVELS && previous <= now
    requires AllAhead(origin, pos, due, previous) && FiledAhead(origin, pos, due, filed, now)
    requires forall id :: id in pos && pos[id].level < level ==> id in filed
    requires Tick(origin, level, now) <= Tick(origin, level, previous)
    ensures AllAhead(origin, pos, due, now)
  {
    TickMonotone(origin, level, previous, now);
    forall id | id in pos ensures id in due && Ahead(origin, pos[id], due[id], now) {
      if pos[id].level >= level {
        TickCoarser(origin, level, pos[id].level, previous, now);
      }
    }
  }

  /** Popping the front node of the current bucket. */
  lemma PopSwept(buckets: Buckets, pos: map<Id, Pos>, filed: set<Id>, c: Cursor)
    requires c.level < LEVELS && !c.newLevel && !c.newIndex
    requires Swept(buckets, pos, filed, c) && Agree(buckets, pos)
    requires buckets[BucketOf(c)][0].Entry?
    ensures var b := buckets[BucketOf(c)];
            var buckets', pos' := buckets[BucketOf(c) := b[1..]], pos - {b[0].id};
            && b[0].id in pos && pos[b[0].id] == BucketOf(c)
            && Agree(buckets', pos') && Swept(buckets', pos', filed, c)
            && SentinelAt(b[1..]) == SentinelAt(b) - 1
  {
    hide Without, Distinct;
    var b := buckets[BucketOf(c)];
    assert b[0] in b;
    WithoutFirst(b);
    UnlinkAgree(buckets, pos, b[0].id);
    forall k | SentinelAt(b[1..]) < k < |b[1..]|
      ensures b[1..][k].Entry? && b[1..][k].id in filed
    {
      assert b[1..][k] == b[k + 1];
    }
  }

  /** Filing a node against the new time during the sweep. */
  lemma FileSwept(buckets: Buckets, pos: map<Id, Pos>, filed: set<Id>, c: Cursor, id: Id, p: Pos)
    requires c.level < LEVELS && Swept(buckets, pos, filed, c) && Agree(buckets, pos)
    requires id !in pos && ValidPos(p)
    ensures Swept(Push(buckets, p, Entry(id)), pos[id := p], filed + {id}, c)
    ensures !c.newLevel && !c.newIndex ==>
      SentinelAt(Push(buckets, p, Entry(id))[BucketOf(c)]) == SentinelAt(buckets[BucketOf(c)])
  {
    if !c.newLevel && !c.newIndex {
      var b := buckets[BucketOf(c)];
      SentinelAtAppend(b, Entry(id));
      assert BehindIsFiled(b, filed + {id});
      if p == BucketOf(c) { assert BehindIsFiled(b + [Entry(id)], filed + {id}); }
    }
  }

  lemma FileAhead(origin: Time, pos: map<Id, Pos>, due: map<Id, Time>, filed: set<Id>,
                  previous: Time, now: Time, id: Id, t: Time)
    requires origin <= previous <= now && id !in pos
    requires AllAhead(origin, pos, due, previous) && FiledAhead(origin, pos, due, filed, now)
    ensures var pos', due' := pos[id := BucketIndices(origin, now, t)], due[id := FiledFor(origin, now, t)];
      AllAhead(origin, pos', due', previous) && FiledAhead(origin, pos', due', filed + {id}, now)
  {
    hide Ahead, FiledFor, BucketIndices;
    FiledForAhead(origin, now, t);
    AheadOfEarlier(origin, BucketIndices(origin, now, t), FiledFor(origin, now, t), previous, now);
  }

  /** The sentinel is at the front: every node of the current bucket was filed in this sweep,
      so the bucket counts as visited. */
  lemma BucketDone(buckets: Buckets, pos: map<Id, Pos>, filed: set<Id>, c: Cursor)
    requires c.level < LEVELS && !c.newLevel && !c.newIndex
    requires Swept(buckets, pos, filed, c) && Agree(buckets, pos)
    requires buckets[BucketOf(c)][0] == Sentinel
    ensures VisitedFiled(pos, filed, c.level, c.start, c.index + 1 - c.start)
    ensures Swept(buckets, pos, filed, c.(index := c.index + 1, newIndex := true))
  {
  }

  ghost function NodesAt(pos: map<Id, Pos>, level: nat): set<Id> {
    set id | id in pos && pos[id].level == level
  }

  /** The last bucket of a level is done: the visited buckets hold only filed nodes, and the
      nodes of the others lie ahead of the new time anyway. */
  lemma LevelDone(origin: Time, buckets: Buckets, pos: map<Id, Pos>, due: map<Id, Time>, filed: set<Id>,
                  previous: Time, now: Time, c: Cursor)
    requires c.level < LEVELS && previous <= now && InLevel(origin, previous, now, c)
    requires c.index + 1 == c.endIndex
    requires AllAhead(origin, pos, due, previous) && FiledAhead(origin, pos, due, filed, now)
    requires VisitedFiled(pos, filed, c.level, c.start, c.index + 1 - c.start)
    ensures FiledAhead(origin, pos, due, filed + NodesAt(pos, c.level), now)
  {
    forall id | id in NodesAt(pos, c.level) && id !in filed
      ensures id in due && Ahead(origin, pos[id], due[id], now)
    {
      UnvisitedIsAhead(origin, pos[id], due[id], previous, now);
    }
  }
}
