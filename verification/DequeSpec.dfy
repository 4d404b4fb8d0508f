/** The deque as a sequence with a live cursor, and what one pass of the cursor returns. */
module DequeSpec {
  import opened Common

  /** `NoCursor`: the next call starts at the front; `Done`: the pass is over. */
  datatype Cursor = NoCursor | At(i: nat) | Done

  datatype View<X> = View(s: seq<X>, cursor: Cursor)

  ghost predicate Ok<X>(v: View<X>) {
    Distinct(v.s) && (v.cursor.At? ==> v.cursor.i < |v.s|)
  }

  function PushBack<X>(v: View<X>, x: X): View<X> {
    v.(s := v.s + [x])
  }

  /** Removing the node at the cursor first advances the cursor. */
  function RemoveAt<X>(v: View<X>, j: nat): View<X>
    requires j < |v.s| && (v.cursor.At? ==> v.cursor.i < |v.s|)
  {
    View(v.s[..j] + v.s[j + 1..],
         match v.cursor
         case At(i) =>
           if i == j then (if j == |v.s| - 1 then Done else At(i))
           else if j < i then At(i - 1) else At(i)
         case _ => v.cursor)
  }

  function PopFront<X>(v: View<X>): View<X>
    requires v.cursor.At? ==> v.cursor.i < |v.s|
  {
    if v.s == [] then v else RemoveAt(v, 0)
  }

  function MoveToBack<X>(v: View<X>, j: nat): (r: View<X>)
    requires j < |v.s| && (v.cursor.At? ==> v.cursor.i < |v.s|)
    ensures r.s == ToBack(v.s, j)
  {
    if j == |v.s| - 1 then v else PushBack(RemoveAt(v, j), v.s[j])
  }

  function Advance(n: nat, c: Cursor): Cursor {
    match c
    case NoCursor => NoCursor
    case At(i) => if i + 1 < n then At(i + 1) else Done
    case Done => NoCursor
  }

  /** `Iterator::next`: where the cursor is placed, what is returned, where it goes. */
  function Placed<X>(v: View<X>): Cursor {
    if v.cursor.NoCursor? && v.s != [] then At(0) else v.cursor
  }

  function Returned<X>(v: View<X>): Option<X>
    requires v.cursor.At? ==> v.cursor.i < |v.s|
  {
    if Placed(v).At? then Some(v.s[Placed(v).i]) else None
  }

  function Next<X>(v: View<X>): View<X> {
    v.(cursor := Advance(|v.s|, Placed(v)))
  }

  // ----- one pass, interleaved with changes ------------------------------------------------

  datatype Op<X> = Push(x: X) | Pop | Move(j: nat) | Unlink(j: nat) | Step

  ghost predicate Enabled<X>(v: View<X>, op: Op<X>)
    requires Ok(v)
  {
    match op
    case Push(x) => x !in v.s
    case Pop => v.s != []
    case Move(j) => j < |v.s|
    case Unlink(j) => j < |v.s|
    case Step => Returned(v).Some?   // a call that ends the pass is not part of it
  }

  ghost function Do<X>(v: View<X>, op: Op<X>): View<X>
    requires Ok(v) && Enabled(v, op)
  {
    match op
    case Push(x) => PushBack(v, x)
    case Pop => PopFront(v)
    case Move(j) => MoveToBack(v, j)
    case Unlink(j) => RemoveAt(v, j)
    case Step => Next(v)
  }

  /** The element an operation adds, removes or moves. */
  ghost function Touched<X>(v: View<X>, op: Op<X>): Option<X>
    requires Ok(v) && Enabled(v, op)
  {
    match op
    case Push(x) => Some(x)
    case Pop => Some(v.s[0])
    case Move(j) => Some(v.s[j])
    case Unlink(j) => Some(v.s[j])
    case Step => None
  }

  /** What the pass has still to return. */
  ghost function ToCome<X>(v: View<X>): seq<X>
    requires Ok(v)
  {
    match v.cursor
    case NoCursor => v.s
    case At(i) => v.s[i..]
    case Done => []
  }

  lemma RemoveAtOk<X>(v: View<X>, j: nat)
    requires Ok(v) && j < |v.s|
    ensures Ok(RemoveAt(v, j))
    ensures forall x :: x in RemoveAt(v, j).s <==> x in v.s && x != v.s[j]
  {
    hide Distinct;
    DropAt(v.s, j);
  }

  lemma PushBackOk<X>(v: View<X>, x: X)
    requires Ok(v) && x !in v.s
    ensures Ok(PushBack(v, x)) && forall y :: y in PushBack(v, x).s <==> y in v.s || y == x
  {
  }

  lemma DoOk<X>(v: View<X>, op: Op<X>)
    requires Ok(v) && Enabled(v, op)
    ensures Ok(Do(v, op))
    ensures forall x :: Touched(v, op) != Some(x) ==> (x in Do(v, op).s <==> x in v.s)
  {
    match op
    case Push(x) => PushBackOk(v, x);
    case Pop => RemoveAtOk(v, 0);
    case Move(j) =>
      if j < |v.s| - 1 {
        RemoveAtOk(v, j);
        PushBackOk(RemoveAt(v, j), v.s[j]);
      }
    case Unlink(j) => RemoveAtOk(v, j);
    case Step =>
  }

  /** Removing one element leaves the question open or answered for all others. */
  lemma RemoveToCome<X>(v: View<X>, j: nat, x: X)
    requires Ok(v) && j < |v.s| && x != v.s[j]
    ensures Ok(RemoveAt(v, j)) && (x in ToCome(RemoveAt(v, j)) <==> x in ToCome(v))
  {
    RemoveAtOk(v, j);
    var v' := RemoveAt(v, j);
    if v.cursor.At? {
      hide Distinct;
      var i := v.cursor.i;
      if i == j {
        assert v.s[i..] == [v.s[j]] + v.s[j + 1..];
        if v'.cursor.At? { assert v'.s[i..] == v.s[j + 1..]; }
      } else if j < i {
        assert v'.s[i - 1..] == v.s[i..];
      } else {
        RemovedAhead(v.s, i, j);
      }
    }
  }

  lemma RemovedAhead<X>(s: seq<X>, i: nat, j: nat)
    requires i <= j < |s|
    ensures forall x :: x in s[i..] <==> x == s[j] || x in (s[..j] + s[j + 1..])[i..]
  {
    assert s[i..] == s[i..j] + [s[j]] + s[j + 1..];
    assert (s[..j] + s[j + 1..])[i..] == s[i..j] + s[j + 1..];
  }

  lemma PushToCome<X>(v: View<X>, y: X, x: X)
    requires Ok(v) && y !in v.s && x != y
    ensures Ok(PushBack(v, y)) && (x in ToCome(PushBack(v, y)) <==> x in ToCome(v))
  {
    PushBackOk(v, y);
    if v.cursor.At? {
      assert (v.s + [y])[v.cursor.i..] == v.s[v.cursor.i..] + [y];
    }
  }

  lemma DoToCome<X>(v: View<X>, op: Op<X>, x: X)
    requires Ok(v) && Enabled(v, op) && !op.Step? && Touched(v, op) != Some(x)
    ensures Ok(Do(v, op)) && (x in ToCome(Do(v, op)) <==> x in ToCome(v))
  {
    match op
    case Push(y) => PushToCome(v, y, x);
    case Pop => RemoveToCome(v, 0, x);
    case Move(j) =>
      if j < |v.s| - 1 {
        RemoveAtOk(v, j);
        RemoveToCome(v, j, x);
        PushToCome(RemoveAt(v, j), v.s[j], x);
      }
    case Unlink(j) => RemoveToCome(v, j, x);
  }

  /** A step of the pass returns exactly the first element to come. */
  lemma StepToCome<X>(v: View<X>)
    requires Ok(v) && Returned(v).Some?
    ensures Ok(Next(v)) && ToCome(v) == [Returned(v).value] + ToCome(Next(v))
    ensures Distinct(ToCome(v))
  {
  }

  function Count<X(==)>(s: seq<X>, x: X): nat {
    if s == [] then 0 else (if s[|s| - 1] == x then 1 else 0) + Count(s[..|s| - 1], x)
  }

  /** The elements returned while performing `ops`. */
  ghost function Output<X>(v: View<X>, ops: seq<Op<X>>): seq<X>
    requires Ok(v) && Runs(v, ops)
    decreases |ops|
  {
    if ops == [] then []
    else
      DoOk(v, ops[0]);
      (if ops[0].Step? then [Returned(v).value] else []) + Output(Do(v, ops[0]), ops[1..])
  }

  ghost predicate Runs<X>(v: View<X>, ops: seq<Op<X>>)
    requires Ok(v)
    decreases |ops|
  {
    ops == [] || (Enabled(v, ops[0]) && (DoOk(v, ops[0]); Runs(Do(v, ops[0]), ops[1..])))
  }

  ghost function After<X>(v: View<X>, ops: seq<Op<X>>): (v': View<X>)
    requires Ok(v) && Runs(v, ops)
    ensures Ok(v')
    decreases |ops|
  {
    if ops == [] then v else DoOk(v, ops[0]); After(Do(v, ops[0]), ops[1..])
  }

  /** No operation of the run adds, removes or moves `x`. */
  ghost predicate Untouched<X>(v: View<X>, ops: seq<Op<X>>, x: X)
    requires Ok(v) && Runs(v, ops)
    decreases |ops|
  {
    ops == [] || (Touched(v, ops[0]) != Some(x) && (DoOk(v, ops[0]); Untouched(Do(v, ops[0]), ops[1..], x)))
  }

  lemma {:induction false} CountCons<X>(y: X, s: seq<X>, x: X)
    ensures Count([y] + s, x) == (if y == x then 1 else 0) + Count(s, x)
  {
    if s == [] {
      assert [y] + s == [y];
    } else {
      assert ([y] + s)[..|s|] == [y] + s[..|s| - 1];
      CountCons(y, s[..|s| - 1], x);
    }
  }

  /** Whatever happens in between, an element that is left alone is returned once if it was
      still to come and no longer is, and otherwise not at all. */
  lemma {:induction false} UntouchedReturned<X>(v: View<X>, ops: seq<Op<X>>, x: X)
    requires Ok(v) && Runs(v, ops) && Untouched(v, ops, x)
    ensures Count(Output(v, ops), x)
         == (if x in ToCome(v) then 1 else 0) - (if x in ToCome(After(v, ops)) then 1 else 0)
    decreases |ops|
  {
    if ops != [] {
      var op := ops[0];
      DoOk(v, op);
      var v' := Do(v, op);
      UntouchedReturned(v', ops[1..], x);
      if op.Step? {
        StepToCome(v);
        CountCons(Returned(v).value, Output(v', ops[1..]), x);
      } else {
        DoToCome(v, op, x);
        assert [] + Output(v', ops[1..]) == Output(v', ops[1..]);
      }
    }
  }

  /** One pass: it starts with no cursor, and ends when `next` has nothing to return.  Every
      element that was in the deque at the start and was left alone is returned exactly once. */
  lemma PassReturnsEachOnce<X>(v: View<X>, ops: seq<Op<X>>, x: X)
    requires Ok(v) && v.cursor.NoCursor? && Runs(v, ops) && Returned(After(v, ops)).None?
    requires x in v.s && Untouched(v, ops, x)
    ensures Count(Output(v, ops), x) == 1
  {
    UntouchedReturned(v, ops, x);
  }

  /** The call that ends a pass returns nothing, and the next one starts over from the front. */
  lemma EndStartsOver<X>(v: View<X>)
    requires Ok(v) && Returned(v).None?
    ensures Ok(Next(v)) && Next(v) == View(v.s, NoCursor) && ToCome(Next(v)) == v.s
    ensures v.s != [] ==> Returned(Next(v)) == Some(v.s[0])
  {
  }

  lemma {:induction false} UntouchedStays<X>(v: View<X>, ops: seq<Op<X>>, x: X)
    requires Ok(v) && Runs(v, ops) && Untouched(v, ops, x)
    ensures x in After(v, ops).s <==> x in v.s
    decreases |ops|
  {
    if ops != [] {
      DoOk(v, ops[0]);
      UntouchedStays(Do(v, ops[0]), ops[1..], x);
    }
  }

  /** The pass after the call that ended one returns every element left alone exactly once again. */
  lemma NextPassReturnsEachOnce<X>(v: View<X>, first: seq<Op<X>>, second: seq<Op<X>>, x: X)
    requires Ok(v) && v.cursor.NoCursor? && Runs(v, first) && Returned(After(v, first)).None?
    requires x in v.s && Untouched(v, first, x)
    requires var w := View(After(v, first).s, NoCursor);
      Ok(w) && Runs(w, second) && Returned(After(w, second)).None? && Untouched(w, second, x)
    ensures var w := Next(After(v, first));
      && Ok(w) && Runs(w, second)
      && Count(Output(v, first), x) == 1 && Count(Output(w, second), x) == 1
  {
    EndStartsOver(After(v, first));
    UntouchedStays(v, first, x);
    PassReturnsEachOnce(v, first, x);
    PassReturnsEachOnce(Next(After(v, first)), second, x);
  }
}
