/** The timer wheel and its event iterator, updated in place. */
module TimerWheel {
  import opened Common
  import opened TimerWheelSpec

  class TimerWheel {
    var buckets: map<Pos, seq<Node>>   // `wheels`
    var pos: map<Id, Pos>              // position recorded in each timer node
    var gens: map<Id, nat>             // expiry generation recorded in each timer node
    const origin: Time
    var current: Time
    ghost var due: map<Id, Time>       // time each node was last filed for (`FiledFor`)

    constructor (now: Time)
      ensures origin == now && current == now && !IsEnabled() && pos == map[] && due == map[] && gens == map[]
    {
      origin, current := now, now;
      buckets, pos, gens, due := map[], map[], map[], map[];
    }

    predicate IsEnabled()
      reads this
    {
      buckets != map[]
    }

    ghost function Filed(): Filing
      reads this
    {
      Filing(pos, due)
    }

    /** Structural validity of an enabled wheel: the placements agree, and the clock has not
        gone back behind the creation of the wheel. */
    ghost predicate WellFormed()
      reads this
    {
      && Agree(buckets, pos) && origin <= current
      && (forall id :: id in pos ==> id in due && id in gens)
    }

    /** A node reported as rescheduled is where its second read belongs. */
    ghost predicate FiledAgain(e: TimerEvent, second: Id -> Option<Time>)
      reads this
    {
      e.Rescheduled? ==>
        second(e.id).Some? && e.id in pos && Placed(origin, current, second(e.id).value, pos[e.id])
    }

    /** All nodes lie ahead of the wheel's current time. */
    ghost predicate Timely()
      reads this
    {
      AllAhead(origin, pos, due, current)
    }

    method Enable()
      requires !IsEnabled() && pos == map[] && due == map[] && gens == map[] && origin <= current
      modifies this`buckets
      ensures WellFormed() && Timely()
    {
      buckets := map l: nat, i: nat | l < LEVELS && i < 64 && i < Count(l) :: Pos(l, i) := [Sentinel];
      assert forall p :: ValidPos(p) ==> p == Pos(p.level, p.index) && p.index < 64;
    }

    /** Appends a node to bucket `p`; it is not in the wheel yet. */
    method PushBack(id: Id, p: Pos, gen: nat, ghost t: Time)
      requires WellFormed() && id !in pos && ValidPos(p)
      modifies this`buckets, this`pos, this`gens, this`due
      ensures WellFormed()
      ensures pos == old(pos)[id := p] && due == old(due)[id := t] && gens == old(gens)[id := gen]
      ensures buckets == Push(old(buckets), p, Entry(id))
    {
      PushAgree(buckets, pos, id, p);
      buckets := buckets[p := buckets[p] + [Entry(id)]];
      pos := pos[id := p];
      due := due[id := t];
      gens := gens[id := gen];
    }

    /** Takes a node out of its bucket. */
    method UnlinkTimer(id: Id)
      requires WellFormed() && id in pos
      modifies this`buckets, this`pos, this`gens, this`due
      ensures WellFormed()
      ensures pos == old(pos) - {id} && due == old(due) - {id} && gens == old(gens) - {id}
      ensures buckets == old(buckets)[old(pos)[id] := Without(old(buckets)[old(pos)[id]], Entry(id))]
    {
      UnlinkAgree(buckets, pos, id);
      buckets := buckets[pos[id] := Without(buckets[pos[id]], Entry(id))];
      pos := pos - {id};
      due := due - {id};
      gens := gens - {id};
    }

    /** Takes a node out of its bucket and appends it to bucket `p`. */
    method MoveNode(id: Id, p: Pos, ghost t: Time)
      requires WellFormed() && id in pos && ValidPos(p)
      modifies this`buckets, this`pos, this`gens, this`due
      ensures WellFormed()
      ensures pos == old(pos)[id := p] && due == old(due)[id := t] && gens == old(gens)
    {
      var gen := gens[id];
      UnlinkTimer(id);
      PushBack(id, p, gen, t);
      Reinsert(old(pos), id, p);
      Reinsert(old(due), id, t);
      Reinsert(old(gens), id, gen);
    }

    /** Schedules a new node, unless the expiration state changed since the caller read it or
        there is no expiration time. */
    method Schedule(id: Id, expiration: Option<Time>, currentGen: nat, expiryGen: nat) returns (ok: bool)
      requires WellFormed() && id !in pos
      modifies this`buckets, this`pos, this`gens, this`due
      ensures WellFormed()
      ensures ok == (currentGen == expiryGen && expiration.Some?)
      ensures !ok ==> buckets == old(buckets) && pos == old(pos) && due == old(due) && gens == old(gens)
      ensures ok ==>
        && id in pos && Placed(origin, current, expiration.value, pos[id]) && pos == old(pos)[id := pos[id]]
        && due == old(due)[id := FiledFor(origin, current, expiration.value)] && gens == old(gens)[id := expiryGen]
      ensures old(Timely()) ==> Timely()
    {
      if currentGen != expiryGen || expiration.None? {
        return false;
      }
      if Timely() { FiledTimely(origin, pos, due, current, id, expiration.value); }
      var p := BucketIndices(origin, current, expiration.value);
      PlacedIff(origin, current, expiration.value, p);
      PushBack(id, p, expiryGen, FiledFor(origin, current, expiration.value));
      ok := true;
    }

    /** Removes the node, unless the handle is stale.  No other node moves. */
    method Deschedule(id: Id, expectedGen: nat) returns (ok: bool)
      requires WellFormed() && id in pos
      modifies this`buckets, this`pos, this`gens, this`due
      ensures WellFormed() && (old(Timely()) ==> Timely())
      ensures ok == (old(gens)[id] == expectedGen)
      ensures pos == (if ok then old(pos) - {id} else old(pos))
      ensures due == (if ok then old(due) - {id} else old(due))
      ensures gens == (if ok then old(gens) - {id} else old(gens))
    {
      if gens[id] != expectedGen {
        return false;
      }
      UnlinkTimer(id);
      ok := true;
    }

    /** Files the node again under its present expiration time, or drops it when it has none.
        `None` means the handle is stale.  No other node moves. */
    method Reschedule(id: Id, expiration: Option<Time>, expectedGen: nat) returns (r: Option<bool>)
      requires WellFormed() && id in pos
      modifies this`buckets, this`pos, this`gens, this`due
      ensures WellFormed()
      ensures r == if old(gens)[id] != expectedGen then None else Some(expiration.Some?)
      ensures r == None ==> pos == old(pos) && due == old(due) && buckets == old(buckets)
      ensures r == Some(false) ==> pos == old(pos) - {id} && due == old(due) - {id} && gens == old(gens) - {id}
      ensures r != Some(false) ==> gens == old(gens)
      ensures r == Some(true) ==>
        && id in pos && Placed(origin, current, expiration.value, pos[id]) && pos == old(pos)[id := pos[id]]
        && due == old(due)[id := FiledFor(origin, current, expiration.value)]
      ensures old(Timely()) ==> Timely()
    {
      if gens[id] != expectedGen {
        return None;
      }
      if expiration.None? {
        UnlinkTimer(id);
        return Some(false);
      }
      if Timely() { FiledTimely(origin, pos, due, current, id, expiration.value); }
      var p := BucketIndices(origin, current, expiration.value);
      PlacedIff(origin, current, expiration.value, p);
      MoveNode(id, p, FiledFor(origin, current, expiration.value));
      r := Some(true);
    }

    /** `pop_timer_node`: takes the front node unless it is the sentinel. */
    method PopTimerNode(p: Pos) returns (popped: Option<Id>)
      requires WellFormed() && ValidPos(p)
      modifies this`buckets, this`pos, this`due
      ensures popped.None? ==> buckets == old(buckets) && pos == old(pos) && due == old(due)
      ensures popped.None? <==> old(buckets)[p][0] == Sentinel
      ensures popped.Some? ==>
        && old(buckets)[p][0] == Entry(popped.value)
        && buckets == old(buckets)[p := old(buckets)[p][1..]]
        && pos == old(pos) - {popped.value} && due == old(due) - {popped.value}
    {
      var b := buckets[p];
      if b[0].Sentinel? {
        return None;
      }
      buckets, pos, due := buckets[p := b[1..]], pos - {b[0].id}, due - {b[0].id};
      popped := Some(b[0].id);
    }

    /** Rotates the bucket until its sentinel is at the back. */
    method ResetTimerNodePositions(p: Pos)
      requires WellFormed() && ValidPos(p)
      modifies this`buckets
      ensures WellFormed()
      ensures |buckets[p]| == |old(buckets)[p]| && buckets[p][|buckets[p]| - 1] == Sentinel
      ensures exists n :: 0 <= n < |old(buckets)[p]| && buckets[p] == old(buckets)[p][n..] + old(buckets)[p][..n]
      ensures buckets == old(buckets)[p := buckets[p]]
    {
      hide Distinct, Agree, SentinelAt;
      BucketFacts(buckets, pos, p);
      ghost var b0 := buckets[p];
      var b := buckets[p];
      SentinelAtProps(b);
      ghost var left, n := SentinelAt(b) + 1, 0;
      while b[|b| - 1] != Sentinel
        invariant buckets == old(buckets)[p := b] && |b| == |b0| > 0
        invariant Distinct(b) && forall x :: x in b <==> x in b0
        invariant 0 <= left <= |b| && b[if left == 0 then |b| - 1 else left - 1] == Sentinel
        invariant n == SentinelAt(b0) + 1 - left && 0 <= n <= |b| && b == b0[n..] + b0[..n]
        decreases left
      {
        Rotate(b);
        RotateOnce(b0, n);
        left, n := left - 1, n + 1;
        b := b[1..] + [b[0]];
        buckets := buckets[p := b];
      }
      ReorderAgree(old(buckets), pos, p, b);
    }
  }

  /** What `TimerEventsIter::next` reports. */
  datatype TimerEvent = Expired(id: Id) | Rescheduled(id: Id) | Descheduled(id: Id) | NoMore

  /** The node an event takes out of the wheel. */
  function TakenOut(e: TimerEvent): set<Id> {
    if e.Expired? || e.Descheduled? then {e.id} else {}
  }

  /** The event of a popped node, given the two reads of its expiration time. */
  function EventOf(id: Id, first: Option<Time>, second: Option<Time>, now: Time): (e: Option<TimerEvent>)
    ensures e.None? <==> first.None?
    ensures e.Some? ==> !e.value.NoMore? && e.value.id == id
  {
    if first.None? then None
    else if first.value <= now then Some(Expired(id))
    else if second.None? then Some(Descheduled(id))
    else Some(Rescheduled(id))
  }

  /** The event reports what the two reads of its node's expiration time call for. */
  ghost predicate FromReads(e: TimerEvent, first: Id -> Option<Time>, second: Id -> Option<Time>, now: Time) {
    match e
    case Expired(id) => first(id).Some? && first(id).value <= now
    case Rescheduled(id) => first(id).Some? && first(id).value > now && second(id).Some?
    case Descheduled(id) => first(id).Some? && first(id).value > now && second(id).None?
    case NoMore => false
  }

  ghost function Gone(e: Option<TimerEvent>, dropped: set<Id>): set<Id> {
    if e.Some? then TakenOut(e.value) else dropped
  }

  ghost predicate LexLess(a: (nat, nat, nat), b: (nat, nat, nat)) {
    a.0 < b.0 || (a.0 == b.0 && (a.1 < b.1 || (a.1 == b.1 && a.2 < b.2)))
  }

  /** The iterator over the events of one advance.  Between its calls it has exclusive
      access to the wheel. */
  class TimerEventsIter {
    const wheel: TimerWheel
    const previousTime: Time
    const currentTime: Time
    var isDone: bool
    var level: nat
    var index: nat
    var endIndex: nat
    var isNewLevel: bool
    var isNewIndex: bool
    ghost var start: nat       // first index of the current level
    ghost var filed: set<Id>   // nodes known to lie ahead of `currentTime`

    ghost function Cur(): Cursor
      reads this
    {
      Cursor(level, start, index, endIndex, isNewLevel, isNewIndex)
    }

    /** Whatever has been swept so far, every node lies ahead of the previous time; once
        done, every node lies ahead of the new time. */
    ghost predicate Valid()
      reads this, wheel
    {
      && wheel.WellFormed() && wheel.origin <= previousTime <= currentTime == wheel.current
      && AllAhead(wheel.origin, wheel.pos, wheel.due, previousTime)
      && (isDone ==> wheel.Timely())
      && (!isDone ==>
            && level < LEVELS && Swept(wheel.buckets, wheel.pos, filed, Cur())
            && FiledAhead(wheel.origin, wheel.pos, wheel.due, filed, currentTime)
            && (!isNewLevel ==> InLevel(wheel.origin, previousTime, currentTime, Cur())))
    }

    /** Levels left, buckets left, nodes before the sentinel. */
    ghost function Left(): (nat, nat, nat)
      requires Valid()
      reads this, wheel
    {
      if isDone then (0, 0, 0)
      else if isNewLevel then (LEVELS - level, 200, 0)
      else
        var b := wheel.buckets[BucketOf(Cur())];
        (LEVELS - level, endIndex - index, if isNewIndex then |b| + 1 else SentinelAt(b))
    }

    /** `TimerWheel::advance`. */
    constructor (wheel: TimerWheel, now: Time)
      requires wheel.WellFormed() && wheel.Timely() && wheel.current <= now
      modifies wheel`current
      ensures Valid() && !isDone && this.wheel == wheel && currentTime == now
      ensures previousTime == old(wheel.current)
    {
      this.wheel, previousTime, currentTime := wheel, wheel.current, now;
      isDone, level, index, endIndex, isNewLevel, isNewIndex := false, 0, 0, 0, true, true;
      start, filed := 0, {};
      new;
      wheel.current := now;
    }

    /** Dropping the iterator: an unfinished sweep falls back to the previous time. */
    method Drop()
      requires Valid()
      modifies wheel`current
      ensures wheel.WellFormed() && wheel.Timely()
      ensures wheel.current == if isDone then currentTime else previousTime
    {
      if !isDone {
        wheel.current := previousTime;
      }
    }

    /** Computes the bucket range of a new level, or ends the sweep when its tick has not
        moved. */
    method EnterLevel()
      requires Valid() && !isDone && isNewLevel
      modifies this
      ensures Valid() && (isDone || (!isNewLevel && isNewIndex))
      ensures LexLess(Left(), old(Left()))
    {
      hide AllAhead, FiledAhead, Agree, Tick;
      var a := Tick(wheel.origin, level, previousTime);
      var b := Tick(wheel.origin, level, currentTime);
      if b <= a {
        UnmovedTickIsAhead(wheel.origin, wheel.pos, wheel.due, filed, previousTime, currentTime, level);
        isDone := true;
        return;
      }
      index := a % Count(level);
      endIndex := index + Steps(level, a, b);
      EnterLevelSwept(wheel.buckets, wheel.pos, filed, Cur(), index, endIndex);
      start := index;
      isNewLevel := false;
      isNewIndex := true;
    }

    /** Moves the sentinel of the current bucket to its back. */
    method BeginBucket()
      requires Valid() && !isDone && !isNewLevel && isNewIndex
      modifies this`isNewIndex, wheel`buckets
      ensures Valid() && !isNewIndex && LexLess(Left(), old(Left()))
    {
      var p := Pos(level, index % Count(level));
      wheel.ResetTimerNodePositions(p);
      SentinelAtProps(wheel.buckets[p]);
      isNewIndex := false;
    }

    /** Takes the next node before the sentinel. */
    method PopNode() returns (popped: Option<Id>)
      requires Valid() && !isDone && !isNewLevel && !isNewIndex
      modifies wheel`buckets, wheel`pos, wheel`due
      ensures Valid()
      ensures popped.None? ==>
        && wheel.buckets[BucketOf(Cur())][0] == Sentinel
        && wheel.pos == old(wheel.pos) && wheel.due == old(wheel.due) && Left() == old(Left())
      ensures popped.Some? ==> wheel.due == old(wheel.due) - {popped.value}
      ensures popped.Some? ==>
        && popped.value in old(wheel.pos) && popped.value in wheel.gens
        && InSweep(wheel.origin, previousTime, currentTime, old(wheel.pos)[popped.value])
        && wheel.pos == old(wheel.pos) - {popped.value} && popped.value !in wheel.pos
        && wheel.pos.Keys == old(wheel.pos.Keys) - {popped.value} && LexLess(Left(), old(Left()))
    {
      hide AllAhead, FiledAhead, Swept, InLevel, Agree, Distinct, InSweep;
      var p := Pos(level, index % Count(level));
      BucketFacts(wheel.buckets, wheel.pos, p);
      ghost var b := wheel.buckets[p];
      if b[0].Entry? {
        CursorInSweep(wheel.origin, previousTime, currentTime, Cur());
        PopSwept(wheel.buckets, wheel.pos, filed, Cur());
        DroppedAhead(wheel.origin, wheel.pos, wheel.due, filed, previousTime, currentTime, b[0].id);
      }
      popped := wheel.PopTimerNode(p);
    }

    /** `schedule_existing_node` during the sweep: the popped node was read as not due, and is filed
        against the new time by a second read, which may be any. */
    method ScheduleExistingNode(id: Id, t: Time)
      requires Valid() && !isDone && !isNewLevel && !isNewIndex && id !in wheel.pos
      requires id in wheel.gens
      modifies this`filed, wheel`buckets, wheel`pos, wheel`gens, wheel`due
      ensures Valid() && Left() == old(Left())
      ensures id in wheel.pos && Placed(wheel.origin, wheel.current, t, wheel.pos[id])
      ensures wheel.pos == old(wheel.pos)[id := wheel.pos[id]]
      ensures wheel.due == old(wheel.due)[id := FiledFor(wheel.origin, wheel.current, t)]
      ensures wheel.gens == old(wheel.gens)
    {
      hide AllAhead, FiledAhead, InLevel, Agree, Swept, Tick, BucketIndices, FiledFor, Placed;
      var p := BucketIndices(wheel.origin, wheel.current, t);
      PlacedIff(wheel.origin, wheel.current, t, p);
      FileSwept(wheel.buckets, wheel.pos, filed, Cur(), id, p);
      FileAhead(wheel.origin, wheel.pos, wheel.due, filed, previousTime, currentTime, id, t);
      wheel.PushBack(id, p, wheel.gens[id], FiledFor(wheel.origin, wheel.current, t));
      filed := filed + {id};
      assert Cur() == old(Cur());
    }

    /** The current bucket is done: go to the next bucket, level, or the end. */
    method NextIndex()
      requires Valid() && !isDone && !isNewLevel && !isNewIndex
      requires wheel.buckets[BucketOf(Cur())][0] == Sentinel
      modifies this
      ensures Valid() && LexLess(Left(), old(Left()))
    {
      BucketDone(wheel.buckets, wheel.pos, filed, Cur());
      index := index + 1;
      isNewIndex := true;
      if index >= endIndex {
        EndLevel();
      }
    }

    /** Deals with a popped node: expired, moved, dropped from the wheel, or without expiry
        (no event).  `first` and `second` are the two reads of its expiration time. */
    method HandleNode(id: Id, first: Option<Time>, second: Option<Time>) returns (e: Option<TimerEvent>)
      requires Valid() && !isDone && !isNewLevel && !isNewIndex && id !in wheel.pos
      requires id in wheel.gens
      modifies this`filed, wheel`buckets, wheel`pos, wheel`gens, wheel`due
      ensures Valid() && Left() == old(Left())
      ensures e == EventOf(id, first, second, currentTime)
      ensures wheel.gens == old(wheel.gens)
      ensures e == Some(Rescheduled(id)) ==>
        && id in wheel.pos && Placed(wheel.origin, wheel.current, second.value, wheel.pos[id])
        && wheel.pos == old(wheel.pos)[id := wheel.pos[id]]
      ensures e == Some(Rescheduled(id)) ==>
        wheel.due == old(wheel.due)[id := FiledFor(wheel.origin, wheel.current, second.value)]
      ensures e != Some(Rescheduled(id)) ==> wheel.pos == old(wheel.pos) && wheel.due == old(wheel.due)
      ensures wheel.pos.Keys ==
        old(wheel.pos.Keys) + (if e == Some(Rescheduled(id)) then {id} else {})
    {
      if first.None? {
        return None;
      }
      if first.value <= currentTime {
        return Some(Expired(id));
      }
      if second.None? {
        return Some(Descheduled(id));
      }
      ScheduleExistingNode(id, second.value);
      e := Some(Rescheduled(id));
    }

    /** Deals with the front of the current bucket.  `d` is the node dropped for having no
        expiration time, if any. */
    method FrontNode(first: Id -> Option<Time>, second: Id -> Option<Time>)
        returns (e: Option<TimerEvent>, ghost d: set<Id>)
      requires Valid() && !isDone && !isNewLevel && !isNewIndex
      modifies this, wheel
      ensures Valid() && wheel.current == old(wheel.current) && LexLess(Left(), old(Left()))
      ensures e.Some? ==> !isDone && d == {} && FromReads(e.value, first, second, currentTime)
      ensures wheel.gens == old(wheel.gens) && (e.Some? ==> wheel.FiledAgain(e.value, second))
      ensures forall id :: id in d ==> first(id) == None
      ensures Gone(e, d) <= old(wheel.pos.Keys)
      ensures wheel.pos.Keys == old(wheel.pos.Keys) - Gone(e, d)
      ensures OthersStay(wheel.origin, previousTime, currentTime, old(wheel.Filed()), wheel.Filed())
      ensures LeftOrLater(old(wheel.Filed()), wheel.Filed(), NotDue(first, currentTime))
    {
      hide OthersStay, LeftOrLater, InSweep, AllAhead, FiledAhead, Swept, InLevel, Agree, BucketIndices, Placed;
      e, d := None, {};
      AllStay(wheel.origin, previousTime, currentTime, wheel.Filed());
      NoneLater(wheel.Filed(), NotDue(first, currentTime));
      var popped := PopNode();
      if popped.None? {
        NextIndex();
      } else {
        var id := popped.value;
        ghost var mid := wheel.Filed();
        e := HandleNode(id, first(id), second(id));
        d := if e.Some? then {} else {id};
        KeysAfterNode(old(wheel.pos.Keys), id, e, wheel.pos.Keys);
        NodeMoves(wheel.origin, previousTime, currentTime, old(wheel.Filed()), mid, wheel.Filed(), id);
        OneLater(old(wheel.Filed()), mid, wheel.Filed(), id, NotDue(first, currentTime));
      }
    }

    /** One round of the loop of `next`: prepare the level, prepare the bucket, or deal with the
        front node. */
    method Round(first: Id -> Option<Time>, second: Id -> Option<Time>)
        returns (e: Option<TimerEvent>, ghost d: set<Id>)
      requires Valid() && !isDone
      modifies this, wheel
      ensures Valid() && wheel.current == old(wheel.current) && LexLess(Left(), old(Left()))
      ensures e.Some? ==> !isDone && d == {} && FromReads(e.value, first, second, currentTime)
      ensures wheel.gens == old(wheel.gens) && (e.Some? ==> wheel.FiledAgain(e.value, second))
      ensures forall id :: id in d ==> first(id) == None
      ensures Gone(e, d) <= old(wheel.pos.Keys)
      ensures wheel.pos.Keys == old(wheel.pos.Keys) - Gone(e, d)
      ensures OthersStay(wheel.origin, previousTime, currentTime, old(wheel.Filed()), wheel.Filed())
      ensures LeftOrLater(old(wheel.Filed()), wheel.Filed(), NotDue(first, currentTime))
    {
      e, d := None, {};
      AllStay(wheel.origin, previousTime, currentTime, wheel.Filed());
      NoneLater(wheel.Filed(), NotDue(first, currentTime));
      if isNewLevel {
        EnterLevel();
      } else if isNewIndex {
        BeginBucket();
      } else {
        e, d := FrontNode(first, second);
      }
    }

    /** The next event.  `first` and `second` give the two reads of each node's expiration
        time; nodes whose first read is empty are dropped on the way. */
    method Next(first: Id -> Option<Time>, second: Id -> Option<Time>)
        returns (e: TimerEvent, ghost dropped: set<Id>)
      requires Valid()
      modifies this, wheel
      ensures Valid() && wheel.current == old(wheel.current)
      ensures e.NoMore? <==> isDone
      ensures !old(isDone) ==> LexLess(Left(), old(Left()))
      ensures !e.NoMore? ==>
        LexLess(Left(), old(Left())) && FromReads(e, first, second, currentTime) && e.id !in dropped
      ensures wheel.gens == old(wheel.gens) && wheel.FiledAgain(e, second)
      ensures forall id :: id in dropped ==> first(id) == None
      ensures dropped + TakenOut(e) <= old(wheel.pos.Keys)
      ensures wheel.pos.Keys == old(wheel.pos.Keys) - dropped - TakenOut(e)
      ensures OthersStay(wheel.origin, previousTime, currentTime, old(wheel.Filed()), wheel.Filed())
      ensures LeftOrLater(old(wheel.Filed()), wheel.Filed(), NotDue(first, currentTime))
    {
      hide OthersStay, LeftOrLater, NotDue, FromReads;
      dropped := {};
      AllStay(wheel.origin, previousTime, currentTime, wheel.Filed());
      NoneLater(wheel.Filed(), NotDue(first, currentTime));
      while !isDone
        invariant Valid() && wheel.current == old(wheel.current) && wheel.gens == old(wheel.gens)
        invariant Left() == old(Left()) || LexLess(Left(), old(Left()))
        invariant forall id :: id in dropped ==> first(id) == None
        invariant dropped <= old(wheel.pos.Keys)
        invariant wheel.pos.Keys == old(wheel.pos.Keys) - dropped
        invariant OthersStay(wheel.origin, previousTime, currentTime, old(wheel.Filed()), wheel.Filed())
        invariant LeftOrLater(old(wheel.Filed()), wheel.Filed(), NotDue(first, currentTime))
        decreases Left().0, Left().1, Left().2
      {
        var event; ghost var d;
        ghost var before := wheel.Filed();
        event, d := Round(first, second);
        StayTwice(wheel.origin, previousTime, currentTime, old(wheel.Filed()), before, wheel.Filed());
        LaterTwice(old(wheel.Filed()), before, wheel.Filed(), NotDue(first, currentTime), NotDue(first, currentTime));
        if event.Some? {
          KeysAfterRounds(old(wheel.pos.Keys), dropped, TakenOut(event.value), wheel.pos.Keys);
          return event.value, dropped;
        }
        KeysAfterRounds(old(wheel.pos.Keys), dropped, d, wheel.pos.Keys);
        dropped := dropped + d;
      }
      e := NoMore;
    }

    /** All buckets of the level are done. */
    method EndLevel()
      requires wheel.WellFormed() && wheel.origin <= previousTime <= currentTime == wheel.current
      requires AllAhead(wheel.origin, wheel.pos, wheel.due, previousTime)
      requires !isDone && level < LEVELS && !isNewLevel && isNewIndex && index == endIndex > start
      requires Swept(wheel.buckets, wheel.pos, filed, Cur())
      requires FiledAhead(wheel.origin, wheel.pos, wheel.due, filed, currentTime)
      requires InLevel(wheel.origin, previousTime, currentTime, Cur().(index := index - 1))
      modifies this
      ensures Valid() && Left().0 < LEVELS - old(level)
    {
      LevelDone(wheel.origin, wheel.buckets, wheel.pos, wheel.due, filed, previousTime, currentTime,
                Cur().(index := index - 1));
      filed := filed + NodesAt(wheel.pos, level);
      level := level + 1;
      if level >= LEVELS {
        isDone := true;
      } else {
        isNewLevel := true;
      }
    }
  }

  /** The n-th read of a node's expiration time, for all n and nodes. */
  type Reads = (nat, Id) -> Option<Time>

  ghost predicate SeenDue(readOf: Reads, id: Id, now: Time) {
    exists n: nat :: readOf(n, id).Some? && readOf(n, id).value <= now
  }

  ghost predicate SeenLater(readOf: Reads, id: Id, now: Time) {
    exists n: nat :: readOf(n, id).Some? && readOf(n, id).value > now
  }

  ghost predicate SeenUnset(readOf: Reads, id: Id) {
    exists n: nat :: readOf(n, id).None?
  }

  /** Due after `now`, or in the level-0 tick of `now`. */
  ghost predicate NotOverdue(origin: Time, d: Time, now: Time) {
    d > now || Tick(origin, 0, d) == Tick(origin, 0, now)
  }

  lemma LeftAreNotOverdue(origin: Time, pos: map<Id, Pos>, due: map<Id, Time>, now: Time)
    requires origin <= now && AllAhead(origin, pos, due, now)
    ensures forall id :: id in pos ==> id in due && NotOverdue(origin, due[id], now)
  {
    forall id | id in pos ensures id in due && NotOverdue(origin, due[id], now) {
      AheadIsTimely(origin, pos[id], due[id], now);
    }
  }

  /** The bound holds for the time a node is really due, if that only moved later since the node
      was filed. */
  lemma LaterIsNotOverdue(origin: Time, filedDue: Time, due: Time, now: Time)
    requires filedDue <= due && NotOverdue(origin, filedDue, now)
    ensures NotOverdue(origin, due, now)
  {
  }

  /** Consumes one event. */
  method Consume(it: TimerEventsIter, n: nat, readOf: Reads, expired: seq<Id>, ghost unset: set<Id>,
                 ghost all: set<Id>)
      returns (expired': seq<Id>, ghost unset': set<Id>)
    requires it.Valid() && !it.isDone && Split(all, it.wheel.pos.Keys, expired, unset)
    modifies it, it.wheel
    ensures it.Valid() && Split(all, it.wheel.pos.Keys, expired', unset')
    ensures LexLess(it.Left(), old(it.Left()))
    ensures forall id :: id in expired' ==> id in expired || SeenDue(readOf, id, it.currentTime)
    ensures forall id :: id in unset' ==> id in unset || SeenUnset(readOf, id)
    ensures OthersStay(it.wheel.origin, it.previousTime, it.currentTime, old(it.wheel.Filed()), it.wheel.Filed())
    ensures LeftOrLater(old(it.wheel.Filed()), it.wheel.Filed(), NotDue(id => readOf(n, id), it.currentTime))
  {
    hide Split, LexLess, OthersStay, LeftOrLater, NotDue, AllAhead, FiledAhead, Agree, Swept, InLevel;
    ghost var before := it.wheel.pos.Keys;
    var e; ghost var dropped;
    e, dropped := it.Next(id => readOf(n, id), id => readOf(n + 1, id));
    SplitStep(all, before, it.wheel.pos.Keys, expired, unset, e, dropped);
    expired', unset' := expired, unset;
    if e.Expired? {
      assert readOf(n, e.id).Some? && readOf(n, e.id).value <= it.currentTime;
      expired' := expired + [e.id];
    } else if e.Descheduled? {
      assert readOf(n + 1, e.id).None?;
      unset' := unset + {e.id};
    }
    forall id | id in dropped ensures SeenUnset(readOf, id) {
      assert readOf(n, id).None?;
    }
    unset' := unset' + dropped;
  }

  /** Advances the wheel to `now` and consumes every event.  `readOf(n, id)` is the n-th read of
      the expiration time of `id`; clients may change or unset it between any two reads.

      Every node that was in the wheel is reported expired once, removed for having no
      expiration time, or still in exactly one bucket; what is left is due after `now` or in
      the level-0 tick of `now`. */
  method AdvanceFully(wheel: TimerWheel, now: Time, readOf: Reads)
      returns (expired: seq<Id>, ghost unset: set<Id>)
    requires wheel.WellFormed() && wheel.Timely() && wheel.current <= now
    modifies wheel
    ensures wheel.WellFormed() && wheel.Timely() && wheel.current == now
    ensures forall id :: id in wheel.pos ==>
              id in wheel.due && NotOverdue(wheel.origin, wheel.due[id], now)
    ensures Split(old(wheel.pos.Keys), wheel.pos.Keys, expired, unset)
    ensures forall id :: id in expired ==> SeenDue(readOf, id, now)
    ensures forall id :: id in unset ==> SeenUnset(readOf, id)
    ensures OthersStay(wheel.origin, old(wheel.current), now, old(wheel.Filed()), wheel.Filed())
    ensures LeftOrLater(old(wheel.Filed()), wheel.Filed(), SeenNotDue(readOf, now))
  {
    hide Split, SeenDue, SeenUnset, OthersStay, LeftOrLater, SeenNotDue, NotDue;
    var it := new TimerEventsIter(wheel, now);
    NothingSplit(old(wheel.pos.Keys));
    AllStay(wheel.origin, old(wheel.current), now, wheel.Filed());
    NoneLater(wheel.Filed(), SeenNotDue(readOf, now));
    expired, unset := [], {};
    var n := 0;
    while !it.isDone
      invariant it.Valid() && it.wheel == wheel && it.currentTime == now && fresh(it)
      invariant it.previousTime == old(wheel.current)
      invariant OthersStay(wheel.origin, old(wheel.current), now, old(wheel.Filed()), wheel.Filed())
      invariant LeftOrLater(old(wheel.Filed()), wheel.Filed(), SeenNotDue(readOf, now))
      invariant Split(old(wheel.pos.Keys), wheel.pos.Keys, expired, unset)
      invariant forall id :: id in expired ==> SeenDue(readOf, id, now)
      invariant forall id :: id in unset ==> SeenUnset(readOf, id)
      decreases it.Left().0, it.Left().1, it.Left().2
    {
      ghost var before := wheel.Filed();
      expired, unset := Consume(it, n, readOf, expired, unset, old(wheel.pos.Keys));
      StayTwice(wheel.origin, old(wheel.current), now, old(wheel.Filed()), before, wheel.Filed());
      ReadIsSeen(readOf, n, now);
      LaterTwice(old(wheel.Filed()), before, wheel.Filed(),
                 NotDue(id => readOf(n, id), now), SeenNotDue(readOf, now));
      n := n + 2;
    }
    LeftAreNotOverdue(wheel.origin, wheel.pos, wheel.due, now);
  }

  /** Advances the wheel, but drops the iterator after at most `limit` events.  Nodes may have
      been filed against `now` although the wheel is back at its previous time: it is timely all
      the same, so a later full advance still reports everything due, and no node is lost. */
  method AdvancePartly(wheel: TimerWheel, now: Time, limit: nat, readOf: Reads)
      returns (expired: seq<Id>, ghost unset: set<Id>)
    requires wheel.WellFormed() && wheel.Timely() && wheel.current <= now
    modifies wheel
    ensures wheel.WellFormed() && wheel.Timely() && wheel.current in {old(wheel.current), now}
    ensures Split(old(wheel.pos.Keys), wheel.pos.Keys, expired, unset)
    ensures forall id :: id in expired ==> SeenDue(readOf, id, now)
    ensures forall id :: id in unset ==> SeenUnset(readOf, id)
    ensures OthersStay(wheel.origin, old(wheel.current), now, old(wheel.Filed()), wheel.Filed())
    ensures LeftOrLater(old(wheel.Filed()), wheel.Filed(), SeenNotDue(readOf, now))
  {
    hide Split, SeenDue, SeenUnset, OthersStay, LeftOrLater, SeenNotDue, NotDue;
    var it := new TimerEventsIter(wheel, now);
    NothingSplit(old(wheel.pos.Keys));
    AllStay(wheel.origin, old(wheel.current), now, wheel.Filed());
    NoneLater(wheel.Filed(), SeenNotDue(readOf, now));
    expired, unset := [], {};
    var n := 0;
    var events := 0;
    while !it.isDone && events < limit
      invariant it.Valid() && it.wheel == wheel && it.currentTime == now && fresh(it)
      invariant it.previousTime == old(wheel.current)
      invariant OthersStay(wheel.origin, old(wheel.current), now, old(wheel.Filed()), wheel.Filed())
      invariant LeftOrLater(old(wheel.Filed()), wheel.Filed(), SeenNotDue(readOf, now))
      invariant Split(old(wheel.pos.Keys), wheel.pos.Keys, expired, unset)
      invariant forall id :: id in expired ==> SeenDue(readOf, id, now)
      invariant forall id :: id in unset ==> SeenUnset(readOf, id)
    {
      ghost var before := wheel.Filed();
      expired, unset := Consume(it, n, readOf, expired, unset, old(wheel.pos.Keys));
      StayTwice(wheel.origin, old(wheel.current), now, old(wheel.Filed()), before, wheel.Filed());
      ReadIsSeen(readOf, n, now);
      LaterTwice(old(wheel.Filed()), before, wheel.Filed(),
                 NotDue(id => readOf(n, id), now), SeenNotDue(readOf, now));
      n := n + 2;
      events := events + 1;
    }
    it.Drop();
  }

  lemma NothingSplit(all: set<Id>)
    ensures Split(all, all, [], {})
  {
  }

  /** What a client of the wheel does next: expirations may lie anywhere, also in the past.  `lapse`
      is how far the clock has moved, `limit` after how many events the iterator is dropped. */
  datatype Action =
    | DoSchedule(id: Id, expiry: Time)
    | DoReschedule(id: Id, expiration: Option<Time>)
    | DoDeschedule(id: Id)
    | DoAdvance(lapse: nat, limit: nat)

  /** Performs one action, if it is applicable. */
  method Act(wheel: TimerWheel, a: Action, readOf: Reads)
    requires wheel.WellFormed() && wheel.Timely()
    modifies wheel
    ensures wheel.WellFormed() && wheel.Timely() && wheel.current >= old(wheel.current)
  {
    var now := wheel.current;
    match a {
      case DoSchedule(id, expiration) =>
        if id !in wheel.pos {
          var _ := wheel.Schedule(id, Some(expiration), 0, 0);
        }
      case DoReschedule(id, expiration) =>
        if id in wheel.pos {
          var _ := wheel.Reschedule(id, expiration, wheel.gens[id]);
        }
      case DoDeschedule(id) =>
        if id in wheel.pos {
          var _ := wheel.Deschedule(id, wheel.gens[id]);
        }
      case DoAdvance(lapse, limit) =>
        var _, _ := AdvancePartly(wheel, now + lapse, limit, readOf);
    }
  }

  /** Every run: clients changing expirations at any time, also between the reads of one sweep, and
      iterators dropped at any point.  Then the wheel is well formed and timely, and one more full advance to
      any later time leaves nothing overdue, by the times the nodes are filed for. */
  method RunThenAdvance(wheel: TimerWheel, actions: seq<Action>, readsOf: (nat, nat, Id) -> Option<Time>, wait: nat)
      returns (expired: seq<Id>)
    requires wheel.WellFormed() && wheel.Timely()
    modifies wheel
    ensures wheel.WellFormed() && wheel.Timely() && wheel.current >= old(wheel.current) + wait
    ensures forall id :: id in wheel.pos ==> id in wheel.due && NotOverdue(wheel.origin, wheel.due[id], wheel.current)
  {
    for k := 0 to |actions|
      invariant wheel.WellFormed() && wheel.Timely() && wheel.current >= old(wheel.current)
    {
      Act(wheel, actions[k], (n, id) => readsOf(k, n, id));
    }
    ghost var unset;
    expired, unset := AdvanceFully(wheel, wheel.current + wait, (n, id) => readsOf(|actions|, n, id));
  }

  // ----- timers filed in the past ----------------------------------------------------------------

  /** A timer filed for a tick that was already past is not left by any full advance to a time 64 or
      more ticks after it was filed. */
  lemma FiresWithin64Ticks(origin: Time, current: Time, t: Time, now: Time)
    requires origin <= current && Tick(origin, 0, t) < Tick(origin, 0, current)
    requires current + 64 * Span(0) <= now
    ensures !NotOverdue(origin, FiledFor(origin, current, t), now)
  {
    FiledForAhead(origin, current, t);
    assert Nanos(origin, FiledFor(origin, current, t)) + Span(0) <= Nanos(origin, now);
  }

  /** A wheel at tick 2 in which a timer due at time 0 is filed. */
  method FilePastDue(readOf: Reads) returns (wheel: TimerWheel)
    requires forall n: nat, id :: readOf(n, id) == Some(0)
    ensures fresh(wheel) && wheel.WellFormed() && wheel.Timely() && wheel.origin == 0 && wheel.current == 0x8000_0000
    ensures wheel.pos == map[7 := Pos(0, 0)] && 7 in wheel.due && wheel.due[7] == 0x10_0000_0000
  {
    hide AllAhead, Agree, OthersStay;
    wheel := new TimerWheel(0);
    wheel.Enable();
    var none; ghost var unset;
    none, unset := AdvanceFully(wheel, 0x8000_0000, readOf);
    assert wheel.pos == map[];
    var ok := wheel.Schedule(7, Some(0), 0, 0);
    PastDuePlace();
  }

  /** The full advance to tick 3 misses it, the one to tick 65 reports it. */
  method PastDueIsReportedLate() returns (missed: bool, fired: seq<Id>)
    ensures missed && 7 in fired
  {
    hide AllAhead, Agree, InSweep, NotOverdue, BucketIndices, FiledFor;
    var readOf: Reads := (n, id) => Some(0);
    var wheel := FilePastDue(readOf);
    PastDuePlace();
    var none; ghost var unset;
    none, unset := AdvanceFully(wheel, 0xC000_0000, readOf);
    missed := 7 in wheel.pos;
    assert wheel.due[7] == 0x10_0000_0000;
    fired, unset := AdvanceFully(wheel, 0x10_4000_0000, readOf);
  }

  lemma PastDuePlace()
    ensures BucketIndices(0, 0x8000_0000, 0) == Pos(0, 0) && FiledFor(0, 0x8000_0000, 0) == 0x10_0000_0000
    ensures !InSweep(0, 0x8000_0000, 0xC000_0000, Pos(0, 0))
    ensures !NotOverdue(0, 0x10_0000_0000, 0x10_4000_0000)
  {
    assert Tick(0, 0, 0) == 0 && Tick(0, 0, 0x8000_0000) == 2 && Tick(0, 0, 0xC000_0000) == 3;
    assert Tick(0, 0, 0x10_0000_0000) == 64 && Tick(0, 0, 0x10_4000_0000) == 65;
    hide Tick;
    assert Turn(0, 2, 0) == 2 && Turn(0, 2, 1) == 3 && Steps(0, 2, 3) == 2;
    assert (0 - 2) % 64 == 62;
  }

  /** The nodes of the start are split into those left, expired and unset. */
  ghost predicate Split(all: set<Id>, left: set<Id>, expired: seq<Id>, unset: set<Id>) {
    && Distinct(expired)
    && (forall id :: id in all <==> id in left || id in expired || id in unset)
    && (forall id :: id in expired ==> id !in left && id !in unset)
    && left !! unset
  }

  lemma SplitStep(all: set<Id>, left: set<Id>, left': set<Id>, expired: seq<Id>, unset: set<Id>,
                  e: TimerEvent, dropped: set<Id>)
    requires Split(all, left, expired, unset)
    requires dropped + TakenOut(e) <= left && left' == left - dropped - TakenOut(e)
    requires !e.NoMore? ==> e.id !in dropped
    ensures var expired' := if e.Expired? then expired + [e.id] else expired;
            var unset' := if e.Descheduled? then unset + {e.id} else unset;
            Split(all, left', expired', unset' + dropped)
  {
  }

  lemma KeysAfterNode(before: set<Id>, id: Id, e: Option<TimerEvent>, after: set<Id>)
    requires id in before && (e.Some? ==> !e.value.NoMore? && e.value.id == id)
    requires after == (before - {id}) + (if e == Some(Rescheduled(id)) then {id} else {})
    ensures var gone := Gone(e, if e.Some? then {} else {id});
            gone <= before && after == before - gone
  {
  }

  lemma KeysAfterRounds(before: set<Id>, dropped: set<Id>, more: set<Id>, after: set<Id>)
    requires dropped <= before && more <= before - dropped && after == before - dropped - more
    ensures dropped + more <= before && after == before - (dropped + more)
  {
  }

  /** What is left was either left alone or has been read as not due. */
  ghost predicate LeftOrLater(before: Filing, after: Filing, later: iset<Id>) {
    forall id :: id in after.pos && id !in later ==>
      && id in before.pos && before.pos[id] == after.pos[id]
      && id in before.due && id in after.due && before.due[id] == after.due[id]
  }

  ghost function NotDue(r: Id -> Option<Time>, now: Time): iset<Id> {
    iset id: Id | r(id).Some? && r(id).value > now
  }

  ghost function SeenNotDue(readOf: Reads, now: Time): iset<Id> {
    iset id: Id | SeenLater(readOf, id, now)
  }

  lemma ReadIsSeen(readOf: Reads, n: nat, now: Time)
    ensures NotDue(id => readOf(n, id), now) <= SeenNotDue(readOf, now)
  {
  }

  lemma LaterTwice(a: Filing, b: Filing, c: Filing, l: iset<Id>, later: iset<Id>)
    requires LeftOrLater(a, b, later) && LeftOrLater(b, c, l) && l <= later
    ensures LeftOrLater(a, c, later)
  {
  }

  lemma OneLater(before: Filing, mid: Filing, after: Filing, id: Id, later: iset<Id>)
    requires forall x :: x in before.pos ==> x in before.due
    requires mid == Filing(before.pos - {id}, before.due - {id})
    requires after == mid || (Refiled(mid, after, id) && id in later)
    ensures LeftOrLater(before, after, later)
  {
  }

  lemma NoneLater(a: Filing, later: iset<Id>)
    requires forall x :: x in a.pos ==> x in a.due
    ensures LeftOrLater(a, a, later)
  {
  }

  ghost predicate Refiled(mid: Filing, after: Filing, id: Id) {
    id in after.pos && id in after.due && after == Filing(mid.pos[id := after.pos[id]], mid.due[id := after.due[id]])
  }

  /** Only one node was touched, and it was in a bucket of the sweep. */
  lemma NodeMoves(origin: Time, previous: Time, now: Time, before: Filing, mid: Filing, after: Filing, id: Id)
    requires id in before.pos && InSweep(origin, previous, now, before.pos[id])
    requires mid == Filing(before.pos - {id}, before.due - {id})
    requires after == mid || Refiled(mid, after, id)
    ensures OthersStay(origin, previous, now, before, after)
  {
    hide InSweep;
  }

  lemma StayTwice(origin: Time, previous: Time, now: Time, a: Filing, b: Filing, c: Filing)
    requires OthersStay(origin, previous, now, a, b) && OthersStay(origin, previous, now, b, c)
    ensures OthersStay(origin, previous, now, a, c)
  {
    hide InSweep;
  }

  lemma AllStay(origin: Time, previous: Time, now: Time, a: Filing)
    ensures OthersStay(origin, previous, now, a, a)
  {
  }

  lemma Reinsert<V>(m: map<Id, V>, id: Id, v: V)
    ensures (m - {id})[id := v] == m[id := v]
  {
  }

  lemma BucketFacts(buckets: Buckets, pos: map<Id, Pos>, p: Pos)
    requires Agree(buckets, pos) && ValidPos(p)
    ensures p in buckets && buckets[p] != [] && Distinct(buckets[p]) && Sentinel in buckets[p]
  {
  }

  lemma RotateOnce(b: seq<Node>, n: nat)
    requires n < |b|
    ensures var r := b[n..] + b[..n]; r != [] && r[1..] + [r[0]] == b[n + 1..] + b[..n + 1]
  {
    var r := b[n..] + b[..n];
    assert r[1..] == b[n + 1..] + b[..n];
    assert b[..n + 1] == b[..n] + [b[n]];
  }

  lemma Rotate(b: seq<Node>)
    requires b != [] && Distinct(b)
    ensures Distinct(b[1..] + [b[0]]) && forall x :: x in b[1..] + [b[0]] <==> x in b
  {
  }

  lemma DroppedAhead(origin: Time, pos: map<Id, Pos>, due: map<Id, Time>, filed: set<Id>,
                     previous: Time, now: Time, id: Id)
    requires AllAhead(origin, pos, due, previous) && FiledAhead(origin, pos, due, filed, now)
    ensures AllAhead(origin, pos - {id}, due - {id}, previous) && FiledAhead(origin, pos - {id}, due - {id}, filed, now)
  {
  }

  lemma FiledTimely(origin: Time, pos: map<Id, Pos>, due: map<Id, Time>, current: Time, id: Id, t: Time)
    requires origin <= current && AllAhead(origin, pos, due, current)
    ensures var pos', due' := pos[id := BucketIndices(origin, current, t)], due[id := FiledFor(origin, current, t)];
      AllAhead(origin, pos', due', current)
  {
    FiledForAhead(origin, current, t);
  }
}
