/** Weight accounting with a weigher: what `weighted_size` is after any run, entry by entry, and what
    removals by current weight leave behind. */
module WriteLogWeights {
  import opened Common
  import opened PolicyRecord
  import opened WriteLog
  import opened WriteLogInvariant
  import opened WriteLogSteps

  /** A history beside the state: what has been added to the counter on behalf of each record, and
      what removals have left of it (or taken too much). */
  datatype Book = Book(counted: map<Id, int>, leak: int)

  function CountOf(b: Book, id: Id): int {
    if id in b.counted then b.counted[id] else 0
  }

  function Credit(b: Book, id: Id, amount: int): Book {
    b.(counted := b.counted[id := amount])
  }

  /** A removal takes out the record's current weight, whatever had been counted. */
  function Close(s: State, b: Book, id: Id): Book
    requires id < |s.infos|
  {
    if s.infos[id].admitted then Book(b.counted - {id}, b.leak + CountOf(b, id) - s.infos[id].weight) else b
  }

  function Entered(c: Config, s: State, b: Book, step: Step): Book
    requires Enabled(c, s, step)
  {
    match step
    case AdmitSet => Credit(b, s.maint.op.id, s.maint.op.newWeight)
    case ApplyUpdate =>
      Credit(b, s.maint.op.id, CountOf(b, s.maint.op.id) - s.maint.op.oldWeight + s.maint.op.newWeight)
    case DrainRemove => Close(s, b, s.channel[0].id)
    case EvictFinalize(id) => Close(s, b, id)
    case _ => b
  }

  /** The step's saturating operations on the counter do not saturate. */
  ghost predicate Unsaturated(c: Config, s: State, step: Step)
    requires Enabled(c, s, step)
  {
    match step
    case AdmitSet => s.weightedSize + s.maint.op.newWeight <= U64_MAX
    case ApplyUpdate =>
      s.maint.op.oldWeight <= s.weightedSize && s.weightedSize - s.maint.op.oldWeight + s.maint.op.newWeight <= U64_MAX
    case DrainRemove => s.infos[s.channel[0].id].admitted ==> s.infos[s.channel[0].id].weight <= s.weightedSize
    case EvictFinalize(id) => s.infos[id].admitted ==> s.infos[id].weight <= s.weightedSize
    case _ => true
  }

  ghost predicate BookRun(c: Config, s0: State, b0: Book, steps: seq<Step>, s: State, b: Book)
    decreases |steps|
  {
    if steps == [] then s == s0 && b == b0
    else
      && Enabled(c, s0, steps[0]) && Unsaturated(c, s0, steps[0])
      && BookRun(c, Apply(c, s0, steps[0]), Entered(c, s0, b0, steps[0]), steps[1..], s, b)
  }

  function CountSum(b: Book, ids: seq<Id>): int {
    if ids == [] then 0 else CountSum(b, ids[..|ids| - 1]) + CountOf(b, ids[|ids| - 1])
  }

  ghost predicate Balanced(s: State, b: Book) {
    s.weightedSize == CountSum(b, s.deque) + b.leak
  }

  lemma {:induction false} CountSumConcat(b: Book, u: seq<Id>, v: seq<Id>)
    ensures CountSum(b, u + v) == CountSum(b, u) + CountSum(b, v)
  {
    if v == [] {
      assert u + v == u;
    } else {
      assert (u + v)[..|u + v| - 1] == u + v[..|v| - 1];
      CountSumConcat(b, u, v[..|v| - 1]);
    }
  }

  lemma CountSumOne(b: Book, id: Id)
    ensures CountSum(b, [id]) == CountOf(b, id)
  {
    assert CountSum(b, []) == 0;
  }

  lemma {:induction false} CountSumSame(b: Book, b': Book, ids: seq<Id>)
    requires forall id :: id in ids ==> CountOf(b, id) == CountOf(b', id)
    ensures CountSum(b, ids) == CountSum(b', ids)
  {
    if ids != [] { CountSumSame(b, b', ids[..|ids| - 1]); }
  }

  lemma CountSumWithout(b: Book, ids: seq<Id>, id: Id)
    requires id in ids
    ensures CountSum(b, ids) == CountSum(b, Without(ids, id)) + CountOf(b, id)
  {
    var j := PositionOf(ids, id);
    hide CountSum, PositionOf;
    assert ids == ids[..j] + ([id] + ids[j + 1..]);
    CountSumConcat(b, ids[..j], [id] + ids[j + 1..]);
    CountSumConcat(b, [id], ids[j + 1..]);
    CountSumOne(b, id);
    CountSumConcat(b, ids[..j], ids[j + 1..]);
  }

  lemma CountSumToBack(b: Book, ids: seq<Id>, j: nat)
    requires j < |ids|
    ensures CountSum(b, ToBack(ids, j)) == CountSum(b, ids)
  {
    hide CountSum;
    var front, x, rest := ids[..j], [ids[j]], ids[j + 1..];
    assert ids == front + (x + rest) && ToBack(ids, j) == (front + rest) + x;
    CountSumConcat(b, front, x + rest);
    CountSumConcat(b, x, rest);
    CountSumConcat(b, front + rest, x);
    CountSumConcat(b, front, rest);
  }

  lemma AdmitBalanced(c: Config, s: State, b: Book)
    requires Inv(s) && Balanced(s, b) && Enabled(c, s, AdmitSet) && Unsaturated(c, s, AdmitSet)
    ensures Balanced(Apply(c, s, AdmitSet), Entered(c, s, b, AdmitSet))
  {
    var op, b' := s.maint.op, Entered(c, s, b, AdmitSet);
    assert MaintOk(s) && DequeOk(s);
    hide Inv, CountSum, Distinct;
    CountSumSame(b, b', s.deque);
    CountSumConcat(b', s.deque, [op.id]);
    CountSumOne(b', op.id);
  }

  lemma UpdateBalanced(c: Config, s: State, b: Book)
    requires Inv(s) && Balanced(s, b) && Enabled(c, s, ApplyUpdate) && Unsaturated(c, s, ApplyUpdate)
    ensures Balanced(Apply(c, s, ApplyUpdate), Entered(c, s, b, ApplyUpdate))
  {
    var op, b' := s.maint.op, Entered(c, s, b, ApplyUpdate);
    assert DequeOk(s);
    WithoutKeeps(s.deque, op.id);
    hide Inv, CountSum, Distinct, Without;
    var others := Without(s.deque, op.id);
    CountSumWithout(b, s.deque, op.id);
    CountSumSame(b, b', others);
    CountSumConcat(b', others, [op.id]);
    CountSumOne(b', op.id);
  }

  lemma CloseBalanced(s: State, b: Book, id: Id)
    requires DequeOk(s) && Balanced(s, b) && id < |s.infos|
    requires s.infos[id].admitted ==> s.infos[id].weight <= s.weightedSize
    ensures Balanced(HandleRemove(s, id), Close(s, b, id))
  {
    WithoutKeeps(s.deque, id);
    hide CountSum, Distinct, Without;
    if s.infos[id].admitted {
      CountSumWithout(b, s.deque, id);
      CountSumSame(b, Close(s, b, id), Without(s.deque, id));
    }
  }

  lemma RemovalBalanced(c: Config, s: State, b: Book, step: Step)
    requires Inv(s) && Balanced(s, b) && Enabled(c, s, step) && Unsaturated(c, s, step)
    requires step.DrainRemove? || step.EvictFinalize?
    ensures Balanced(Apply(c, s, step), Entered(c, s, b, step))
  {
    var id := if step.DrainRemove? then s.channel[0].id else step.id;
    assert DequeOk(s);
    hide Inv, CountSum, DequeOk, Without, SetPolicyGen, CountOf, Close;
    CloseBalanced(s, b, id);
  }

  /** Reordering the deque, and the steps that count nothing. */
  lemma UncountedBalanced(c: Config, s: State, b: Book, step: Step)
    requires Balanced(s, b) && Enabled(c, s, step)
    requires !(step.AdmitSet? || step.ApplyUpdate? || step.DrainRemove? || step.EvictFinalize?)
    ensures Balanced(Apply(c, s, step), b)
  {
    hide CountSum, SetPolicyGen, HasEnoughCapacity, ToBack;
    if step.Reorder? { CountSumToBack(b, s.deque, step.i); }
  }

  lemma StepBalanced(c: Config, s: State, b: Book, step: Step)
    requires Inv(s) && Balanced(s, b) && Enabled(c, s, step) && Unsaturated(c, s, step)
    ensures Balanced(Apply(c, s, step), Entered(c, s, b, step))
  {
    hide Inv, Balanced, Apply, Unsaturated;
    match step {
      case AdmitSet => AdmitBalanced(c, s, b);
      case ApplyUpdate => UpdateBalanced(c, s, b);
      case DrainRemove => RemovalBalanced(c, s, b, step);
      case EvictFinalize(_) => RemovalBalanced(c, s, b, step);
      case _ => UncountedBalanced(c, s, b, step);
    }
  }

  lemma {:induction false} RunBalanced(c: Config, s0: State, b0: Book, steps: seq<Step>, s: State, b: Book)
    requires Inv(s0) && Balanced(s0, b0) && BookRun(c, s0, b0, steps, s, b)
    ensures Inv(s) && Balanced(s, b)
    decreases |steps|
  {
    if steps != [] {
      hide Inv, Balanced, Enabled, Apply, Unsaturated, Entered;
      StepBalanced(c, s0, b0, steps[0]);
      StepInv(c, s0, steps[0]);
      RunBalanced(c, Apply(c, s0, steps[0]), Entered(c, s0, b0, steps[0]), steps[1..], s, b);
    }
  }

  /** Over every run in which nothing saturates, with any weigher: the counter is what has been counted
      for the entries in the deque, plus exactly what removals have left behind. */
  lemma WeightedSizeIsCounted(c: Config, s0: State, steps: seq<Step>, s: State, b: Book)
    requires Init(s0) && BookRun(c, s0, Book(map[], 0), steps, s, b)
    ensures s.weightedSize == CountSum(b, s.deque) + b.leak
  {
    InitInv(s0);
    RunBalanced(c, s0, Book(map[], 0), steps, s, b);
  }
}
