/** The access-order deque is ordered by last use, over every run. */
module WriteLogRecency {
  import opened Common
  import opened PolicyRecord
  import opened WriteLog
  import opened WriteLogInvariant
  import opened WriteLogSteps
  import opened WriteLogEffects

  /** The node a step uses: one that is admitted, updated, or moved to the back. */
  function Used(c: Config, s: State, step: Step): seq<Id>
    requires Enabled(c, s, step)
  {
    match step
    case AdmitSet => [s.maint.op.id]
    case ApplyUpdate => [s.maint.op.id]
    case Reorder(i) => [s.deque[i]]
    case _ => []
  }

  /** A run, with the history of uses. */
  ghost predicate UseRun(c: Config, s0: State, uses0: seq<Id>, steps: seq<Step>, s: State, uses: seq<Id>)
    decreases |steps|
  {
    if steps == [] then s == s0 && uses == uses0
    else
      && Enabled(c, s0, steps[0])
      && UseRun(c, Apply(c, s0, steps[0]), uses0 + Used(c, s0, steps[0]), steps[1..], s, uses)
  }

  /** When `id` was last used; -1 if never. */
  function LastUse(uses: seq<Id>, id: Id): (n: int)
    ensures -1 <= n < |uses| && (n >= 0 ==> uses[n] == id)
  {
    if uses == [] then -1
    else if uses[|uses| - 1] == id then |uses| - 1
    else LastUse(uses[..|uses| - 1], id)
  }

  ghost predicate ByLastUse(uses: seq<Id>, deque: seq<Id>) {
    forall i, j :: 0 <= i < j < |deque| ==> LastUse(uses, deque[i]) < LastUse(uses, deque[j])
  }

  lemma LastUseNext(uses: seq<Id>, x: Id, id: Id)
    ensures LastUse(uses + [x], id) == if x == id then |uses| else LastUse(uses, id)
  {
    assert (uses + [x])[..|uses|] == uses;
  }

  lemma DroppedByLastUse(uses: seq<Id>, deque: seq<Id>, n: nat)
    requires ByLastUse(uses, deque) && n < |deque|
    ensures ByLastUse(uses, deque[..n] + deque[n + 1..])
  {
    hide LastUse;
    var rest := deque[..n] + deque[n + 1..];
    forall i, j | 0 <= i < j < |rest| ensures LastUse(uses, rest[i]) < LastUse(uses, rest[j]) {
      var a, b := if i < n then i else i + 1, if j < n then j else j + 1;
      assert rest[i] == deque[a];
      assert rest[j] == deque[b];
      assert LastUse(uses, deque[a]) < LastUse(uses, deque[b]);
    }
  }

  lemma RemovedByLastUse(uses: seq<Id>, deque: seq<Id>, id: Id)
    requires ByLastUse(uses, deque)
    ensures ByLastUse(uses, Without(deque, id))
  {
    hide ByLastUse, PositionOf;
    if id in deque { DroppedByLastUse(uses, deque, PositionOf(deque, id)); }
  }

  lemma UsedByLastUse(uses: seq<Id>, deque: seq<Id>, id: Id)
    requires ByLastUse(uses, deque) && id !in deque
    ensures ByLastUse(uses + [id], deque + [id])
  {
    hide LastUse;
    var d := deque + [id];
    forall i, j | 0 <= i < j < |d| ensures LastUse(uses + [id], d[i]) < LastUse(uses + [id], d[j]) {
      LastUseNext(uses, id, d[i]);
      LastUseNext(uses, id, d[j]);
    }
  }

  lemma MovedByLastUse(uses: seq<Id>, deque: seq<Id>, id: Id)
    requires ByLastUse(uses, deque) && Distinct(deque)
    ensures ByLastUse(uses + [id], Without(deque, id) + [id])
  {
    hide LastUse, ByLastUse;
    WithoutKeeps(deque, id);
    RemovedByLastUse(uses, deque, id);
    UsedByLastUse(uses, Without(deque, id), id);
  }

  lemma ToBackIsWithout(deque: seq<Id>, i: nat)
    requires Distinct(deque) && i < |deque|
    ensures ToBack(deque, i) == Without(deque, deque[i]) + [deque[i]]
  {
    assert PositionOf(deque, deque[i]) == i;
  }

  lemma StepByLastUse(c: Config, s: State, uses: seq<Id>, step: Step)
    requires Inv(s) && Enabled(c, s, step) && ByLastUse(uses, s.deque)
    ensures ByLastUse(uses + Used(c, s, step), Apply(c, s, step).deque)
  {
    hide Apply, ByLastUse, LastUse, Without, ToBack, RemovePending, HasEnoughCapacity;
    PolicyChanges(c, s, step);
    assert DequeOk(s) && MaintOk(s);
    hide Inv, Distinct;
    assert uses + [] == uses;
    match step
    case AdmitSet => UsedByLastUse(uses, s.deque, s.maint.op.id);
    case ApplyUpdate => MovedByLastUse(uses, s.deque, s.maint.op.id);
    case Reorder(i) =>
      ToBackIsWithout(s.deque, i);
      MovedByLastUse(uses, s.deque, s.deque[i]);
    case DrainRemove => RemovedByLastUse(uses, s.deque, s.channel[0].id);
    case EvictFinalize(id) => RemovedByLastUse(uses, s.deque, id);
    case _ =>
  }

  lemma {:induction false} RunByLastUse(c: Config, s0: State, uses0: seq<Id>, steps: seq<Step>, s: State, uses: seq<Id>)
    requires Inv(s0) && ByLastUse(uses0, s0.deque) && UseRun(c, s0, uses0, steps, s, uses)
    ensures ByLastUse(uses, s.deque)
    decreases |steps|
  {
    if steps != [] {
      hide Inv, Enabled, Apply, ByLastUse, Used;
      StepByLastUse(c, s0, uses0, steps[0]);
      StepInv(c, s0, steps[0]);
      RunByLastUse(c, Apply(c, s0, steps[0]), uses0 + Used(c, s0, steps[0]), steps[1..], s, uses);
    }
  }

  /** Over every run the deque lists its nodes in the order of their last uses, so its front is the
      least recently used entry. */
  lemma DequeIsByLastUse(c: Config, s0: State, steps: seq<Step>, s: State, uses: seq<Id>)
    requires Init(s0) && UseRun(c, s0, [], steps, s, uses)
    ensures forall i, j :: 0 <= i < j < |s.deque| ==> LastUse(uses, s.deque[i]) < LastUse(uses, s.deque[j])
  {
    InitInv(s0);
    RunByLastUse(c, s0, [], steps, s, uses);
  }
}
