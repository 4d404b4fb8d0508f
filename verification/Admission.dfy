/** TinyLFU admission: the greedy walk over the access-order deque that looks for victims, proved
    against "the shortest LRU prefix that is heavy enough, if it is less popular". */
module Admission {
  import opened Common
  import opened PolicyRecord

  const MAX_CONSECUTIVE_RETRIES: nat := 5
  const MAX_FREQUENCY: nat := 15

  /** What one visit reads about a node: the flags of its record, and the weight of the entry the
      table holds under its key.  Clients run between visits, so every visit may read anew. */
  datatype Glimpse = Glimpse(dirty: bool, alive: bool, lastAccessed: Option<nat>, weight: Option<nat>)

  predicate Clean(g: Glimpse) {
    !g.dirty && g.alive && g.weight.Some?
  }

  type Look = (nat, Id) -> Glimpse

  /** A victim as it is remembered: its node and the access time read with it. */
  datatype Victim = Victim(node: Id, lastAccessed: Option<nat>)

  ghost predicate Rearranged(s: seq<Id>, t: seq<Id>) {
    |s| == |t| && Distinct(t) && forall x :: x in s <==> x in t
  }

  lemma MoveRearranges(s: seq<Id>, t: seq<Id>, j: nat)
    requires Rearranged(s, t) && j < |t|
    ensures Rearranged(s, ToBack(t, j)) && ToBack(t, j)[..j] == t[..j]
  {
  }

  function Sum(ws: seq<nat>): (n: nat) {
    if ws == [] then 0 else Sum(ws[..|ws| - 1]) + ws[|ws| - 1]
  }

  lemma SumSnoc(ws: seq<nat>, w: nat)
    ensures Sum(ws + [w]) == Sum(ws) + w
  {
  }

  lemma {:induction false} SumPrefix(ws: seq<nat>, k: nat)
    requires k <= |ws|
    ensures Sum(ws[..k]) <= Sum(ws)
    decreases |ws|
  {
    if k < |ws| {
      assert ws[..|ws| - 1][..k] == ws[..k];
      SumPrefix(ws[..|ws| - 1], k);
    } else {
      assert ws[..k] == ws;
    }
  }

  // ----- the reference -----------------------------------------------------------------------

  ghost function WeightsOf(look: Look, s: seq<Id>): (ws: seq<nat>)
    ensures |ws| == |s| && forall i :: 0 <= i < |s| ==> ws[i] == WeightSeen(look(0, s[i]))
  {
    if s == [] then [] else WeightsOf(look, s[..|s| - 1]) + [WeightSeen(look(0, s[|s| - 1]))]
  }

  function WeightSeen(g: Glimpse): nat {
    if g.weight.Some? then g.weight.value else 0
  }

  ghost function FreqsOf(freq: Id -> nat, s: seq<Id>): (fs: seq<nat>)
    ensures |fs| == |s| && forall i :: 0 <= i < |s| ==> fs[i] == freq(s[i])
  {
    seq(|s|, i requires 0 <= i < |s| => freq(s[i]))
  }

  /** The first `k` of `ws` are the fewest that add up to `need`. */
  ghost predicate ShortestCover(ws: seq<nat>, need: nat, k: nat) {
    k <= |ws| && Sum(ws[..k]) >= need && (k > 0 ==> Sum(ws[..k - 1]) < need)
  }

  lemma ShortestCoverUnique(ws: seq<nat>, need: nat, k: nat, l: nat)
    requires ShortestCover(ws, need, k) && ShortestCover(ws, need, l)
    ensures k == l
  {
    if k < l { assert ws[..l - 1][..k] == ws[..k]; SumPrefix(ws[..l - 1], k); }
    if l < k { assert ws[..k - 1][..l] == ws[..l]; SumPrefix(ws[..k - 1], l); }
  }

  /** Should the candidate be admitted at the cost of the first `k` entries? */
  ghost predicate ShouldAdmit(a: Ask, k: nat) {
    ShortestCover(WeightsOf(a.look, a.deq), a.weight, k) && Sum(FreqsOf(a.freq, a.deq[..k])) < a.f
  }

  /** Nothing the walk could read changes, and every node is clean. */
  ghost predicate AllClean(look: Look, s: seq<Id>) {
    forall n: nat, id :: id in s ==> Clean(look(n, id)) && look(n, id) == look(0, id)
  }

  // ----- the walk ----------------------------------------------------------------------------

  /** The record of a walk: visit `n` looked at `log[n]`, and `at[i]` is the visit that took the
      `i`-th victim. */
  datatype Trace = Trace(log: seq<Id>, at: seq<nat>)

  ghost predicate TraceOk(look: Look, tr: Trace, vs: seq<Victim>, ws: seq<nat>) {
    && |tr.at| == |vs| == |ws|
    && (forall i :: 0 <= i < |vs| ==> Took(look, tr, i, vs[i], ws[i]))
    && (forall i, j :: 0 <= i < j < |vs| ==> tr.at[i] < tr.at[j])
  }

  /** Victim `i` was clean when it was taken, and `w` is the weight read there. */
  ghost predicate Took(look: Look, tr: Trace, i: nat, v: Victim, w: nat)
    requires i < |tr.at|
  {
    var n := tr.at[i];
    n < |tr.log| && tr.log[n] == v.node && Clean(look(n, v.node))
    && look(n, v.node).lastAccessed == v.lastAccessed && look(n, v.node).weight == Some(w)
  }

  /** The last `r` visits all found nodes to skip. */
  ghost predicate Skipped(look: Look, s: seq<Id>, log: seq<Id>, r: nat) {
    r <= |log| && forall n :: |log| - r <= n < |log| ==> log[n] in s && !Clean(look(n, log[n]))
  }

  function Nodes(vs: seq<Victim>): (ids: seq<Id>)
    ensures |ids| == |vs| && forall i :: 0 <= i < |vs| ==> ids[i] == vs[i].node
  {
    seq(|vs|, i requires 0 <= i < |vs| => vs[i].node)
  }

  /** What stops a walk that is neither heavy enough nor too popular: it has looked at the last
      node, or has just skipped six in a row. */
  ghost predicate Stuck(look: Look, s: seq<Id>, taken: nat, log: seq<Id>) {
    || taken == |s|
    || (log != [] && s != [] && log[|log| - 1] == s[|s| - 1] && Skipped(look, s, log, 1))
    || Skipped(look, s, log, 6)
  }

  /** The six visits before `m` all found nodes to skip. */
  ghost predicate SixSkips(look: Look, log: seq<Id>, m: nat) {
    6 <= m <= |log| && forall n :: m - 6 <= n < m ==> !Clean(look(n, log[n]))
  }

  /** The walk never goes on after six skips in a row. */
  ghost predicate StopsAtSix(look: Look, log: seq<Id>) {
    forall m :: 0 <= m < |log| ==> !SixSkips(look, log, m)
  }

  /** The deque once every node that was skipped has moved to the back, in the order of the visits. */
  ghost function AfterSkips(deq: seq<Id>, look: Look, log: seq<Id>): seq<Id> {
    if log == [] then deq
    else
      var n, x := |log| - 1, log[|log| - 1];
      var s := AfterSkips(deq, look, log[..n]);
      if Clean(look(n, x)) then s else Without(s, x) + [x]
  }

  /** What the visits so far have done: `retries` counts the last skips in a row. */
  ghost predicate Paced(look: Look, deq: seq<Id>, s: seq<Id>, log: seq<Id>, retries: nat) {
    && s == AfterSkips(deq, look, log) && StopsAtSix(look, log)
    && retries <= |log| && (retries < |log| ==> Clean(look(|log| - retries - 1, log[|log| - retries - 1])))
  }

  lemma NextPace(look: Look, log: seq<Id>, retries: nat, x: Id)
    requires StopsAtSix(look, log) && retries <= 5 && retries <= |log|
    requires retries < |log| ==> Clean(look(|log| - retries - 1, log[|log| - retries - 1]))
    ensures StopsAtSix(look, log + [x])
  {
    var log' := log + [x];
    assert forall n :: 0 <= n < |log| ==> log'[n] == log[n];
    forall m | 0 <= m < |log'| ensures !SixSkips(look, log', m) {
      if m < |log| { assert !SixSkips(look, log, m); }
    }
  }

  lemma SkipPaced(look: Look, deq: seq<Id>, s: seq<Id>, log: seq<Id>, retries: nat, next: nat)
    requires Paced(look, deq, s, log, retries) && Distinct(s) && next < |s| && retries <= 5
    requires !Clean(look(|log|, s[next]))
    ensures Paced(look, deq, ToBack(s, next), log + [s[next]], retries + 1)
  {
    NextPace(look, log, retries, s[next]);
    assert (log + [s[next]])[..|log|] == log;
    assert PositionOf(s, s[next]) == next;
    hide StopsAtSix, PositionOf;
  }

  lemma TakePaced(look: Look, deq: seq<Id>, s: seq<Id>, log: seq<Id>, retries: nat, x: Id)
    requires Paced(look, deq, s, log, retries) && retries <= 5 && Clean(look(|log|, x))
    ensures Paced(look, deq, s, log + [x], 0)
  {
    NextPace(look, log, retries, x);
    assert (log + [x])[..|log|] == log;
    hide StopsAtSix;
  }

  // The loop invariant, in five parts, and what the two kinds of visit do to each.

  /** Nodes are only reordered, and those before `next` are the victims (or the walk is over). */
  ghost predicate FrontTaken(deq: seq<Id>, s: seq<Id>, vs: seq<Victim>, next: nat) {
    && Rearranged(deq, s)
    && |vs| <= next <= |s|
    && Nodes(vs) == s[..|vs|]
    && (next < |s| ==> |vs| == next)
  }

  /** The running totals are those of the victims, and without the last of them they would not
      have been enough. */
  ghost predicate Totals(weight: nat, f: nat, freq: Id -> nat, vs: seq<Victim>, ws: seq<nat>, sumW: nat, sumF: nat) {
    && |vs| == |ws|
    && sumW == Sum(ws)
    && sumF == Popularity(freq, vs) <= f + MAX_FREQUENCY
    && (|vs| > 0 ==> Sum(ws[..|vs| - 1]) < weight && Popularity(freq, vs[..|vs| - 1]) <= f)
  }

  ghost function Popularity(freq: Id -> nat, vs: seq<Victim>): nat {
    Sum(FreqsOf(freq, Nodes(vs)))
  }

  ghost predicate Retrying(look: Look, s: seq<Id>, next: nat, taken: nat, log: seq<Id>, retries: nat) {
    && retries <= MAX_CONSECUTIVE_RETRIES + 1
    && Skipped(look, s, log, retries)
    && (next == |s| ==> Stuck(look, s, taken, log))
  }

  ghost predicate Undisturbed(look: Look, deq: seq<Id>, s: seq<Id>, ws: seq<nat>) {
    AllClean(look, deq) ==>
      s == deq && |ws| <= |s| && ws == WeightsOf(look, s)[..|ws|]
  }

  lemma TakeFront(deq: seq<Id>, s: seq<Id>, vs: seq<Victim>, next: nat, v: Victim)
    requires FrontTaken(deq, s, vs, next) && next < |s| && v.node == s[next]
    ensures FrontTaken(deq, s, vs + [v], next + 1)
  {
    assert s[..next + 1] == s[..next] + [s[next]];
  }

  lemma SkipFront(deq: seq<Id>, s: seq<Id>, vs: seq<Victim>, next: nat)
    requires FrontTaken(deq, s, vs, next) && next < |s|
    ensures FrontTaken(deq, ToBack(s, next), vs, if next == |s| - 1 then |s| else next)
  {
  }

  lemma TakeTrace(look: Look, tr: Trace, vs: seq<Victim>, ws: seq<nat>, v: Victim, w: nat)
    requires TraceOk(look, tr, vs, ws)
    requires var g := look(|tr.log|, v.node); Clean(g) && g.lastAccessed == v.lastAccessed && g.weight == Some(w)
    ensures TraceOk(look, Trace(tr.log + [v.node], tr.at + [|tr.log|]), vs + [v], ws + [w])
  {
    var tr' := Trace(tr.log + [v.node], tr.at + [|tr.log|]);
    forall i | 0 <= i < |vs| + 1 ensures Took(look, tr', i, (vs + [v])[i], (ws + [w])[i]) {
      if i < |vs| { assert Took(look, tr, i, vs[i], ws[i]); }
    }
    forall i | 0 <= i < |vs| ensures tr.at[i] < |tr.log| {
      assert Took(look, tr, i, vs[i], ws[i]);
    }
  }

  lemma SkipTrace(look: Look, tr: Trace, vs: seq<Victim>, ws: seq<nat>, id: Id)
    requires TraceOk(look, tr, vs, ws)
    ensures TraceOk(look, tr.(log := tr.log + [id]), vs, ws)
  {
  }

  lemma TakeTotals(weight: nat, f: nat, freq: Id -> nat, vs: seq<Victim>, ws: seq<nat>, sumW: nat, sumF: nat,
                   v: Victim, w: nat)
    requires Totals(weight, f, freq, vs, ws, sumW, sumF) && sumW < weight && sumF <= f
    requires freq(v.node) <= MAX_FREQUENCY
    ensures Totals(weight, f, freq, vs + [v], ws + [w], sumW + w, sumF + freq(v.node))
    ensures sumW + w == Sum(ws + [w]) && sumF + freq(v.node) == Popularity(freq, vs + [v])
  {
    SumSnoc(ws, w);
    SumSnoc(FreqsOf(freq, Nodes(vs)), freq(v.node));
    assert FreqsOf(freq, Nodes(vs + [v])) == FreqsOf(freq, Nodes(vs)) + [freq(v.node)];
    assert (vs + [v])[..|vs|] == vs && (ws + [w])[..|vs|] == ws;
  }

  lemma SkipRetrying(look: Look, s: seq<Id>, next: nat, log: seq<Id>, retries: nat)
    requires Retrying(look, s, next, next, log, retries) && next < |s| && retries <= MAX_CONSECUTIVE_RETRIES
    requires !Clean(look(|log|, s[next]))
    ensures Retrying(look, ToBack(s, next), if next == |s| - 1 then |s| else next, next, log + [s[next]], retries + 1)
  {
  }

  lemma TakeRetrying(look: Look, s: seq<Id>, next: nat, log: seq<Id>)
    requires next < |s|
    ensures Retrying(look, s, next + 1, next + 1, log, 0)
  {
  }

  lemma TakeUndisturbed(look: Look, deq: seq<Id>, s: seq<Id>, ws: seq<nat>, n: nat, w: nat)
    requires Undisturbed(look, deq, s, ws) && |ws| < |s| && look(n, s[|ws|]).weight == Some(w)
    ensures Undisturbed(look, deq, s, ws + [w])
  {
  }

  lemma SkipUndisturbed(look: Look, deq: seq<Id>, s: seq<Id>, ws: seq<nat>, n: nat, next: nat)
    requires Undisturbed(look, deq, s, ws) && next < |s| && !Clean(look(n, s[next]))
    ensures Undisturbed(look, deq, ToBack(s, next), ws)
  {
  }

  /** One call: the deque it starts from, the candidate's weight and frequency, what it may read. */
  datatype Ask = Ask(deq: seq<Id>, weight: nat, f: nat, look: Look, freq: Id -> nat)

  /** The loop's variables; `next == |s|` stands for "no next victim". */
  datatype Walk = Walk(s: seq<Id>, vs: seq<Victim>, ws: seq<nat>, sumW: nat, sumF: nat, retries: nat, next: nat)

  ghost predicate Asked(a: Ask) {
    Distinct(a.deq) && a.f <= MAX_FREQUENCY && forall id :: a.freq(id) <= MAX_FREQUENCY
  }

  ghost predicate Walking(a: Ask, w: Walk, tr: Trace) {
    && FrontTaken(a.deq, w.s, w.vs, w.next)
    && TraceOk(a.look, tr, w.vs, w.ws)
    && Totals(a.weight, a.f, a.freq, w.vs, w.ws, w.sumW, w.sumF)
    && Retrying(a.look, w.s, w.next, |w.vs|, tr.log, w.retries)
    && Undisturbed(a.look, a.deq, w.s, w.ws)
    && Paced(a.look, a.deq, w.s, tr.log, w.retries)
  }

  predicate Continues(a: Ask, w: Walk) {
    w.sumW < a.weight && w.sumF <= a.f && w.retries <= MAX_CONSECUTIVE_RETRIES && w.next < |w.s|
  }

  lemma WalkStarts(a: Ask)
    requires Asked(a)
    ensures Walking(a, Walk(a.deq, [], [], 0, 0, 0, 0), Trace([], []))
  {
  }

  /** One visit: the next node is skipped, moving to the back, or becomes a victim. */
  function Visit(a: Ask, w: Walk, g: Glimpse): Walk
    requires w.next < |w.s|
  {
    var victim := w.s[w.next];
    if g.dirty || !g.alive || g.weight.None? then
      w.(s := ToBack(w.s, w.next), retries := w.retries + 1,
         next := if w.next == |w.s| - 1 then |w.s| else w.next)
    else
      Walk(w.s, w.vs + [Victim(victim, g.lastAccessed)], w.ws + [g.weight.value],
           w.sumW + g.weight.value, w.sumF + a.freq(victim), 0, w.next + 1)
  }

  ghost function Visited(w: Walk, tr: Trace, g: Glimpse): Trace
    requires w.next < |w.s|
  {
    Trace(tr.log + [w.s[w.next]], if Clean(g) then tr.at + [|tr.log|] else tr.at)
  }

  lemma WalkLengths(a: Ask, w: Walk, tr: Trace)
    requires Walking(a, w, tr) && w.next < |w.s|
    ensures |w.vs| == |w.ws| == w.next
  {
  }

  lemma WalkSkips(a: Ask, w: Walk, tr: Trace, g: Glimpse)
    requires Walking(a, w, tr) && Continues(a, w) && g == a.look(|tr.log|, w.s[w.next]) && !Clean(g)
    ensures Walking(a, Visit(a, w, g), Visited(w, tr, g))
  {
    assert Distinct(w.s);
    hide FrontTaken, TraceOk, Totals, Retrying, Undisturbed, ToBack, Distinct, Paced;
    WalkLengths(a, w, tr);
    SkipPaced(a.look, a.deq, w.s, tr.log, w.retries, w.next);
    SkipFront(a.deq, w.s, w.vs, w.next);
    SkipTrace(a.look, tr, w.vs, w.ws, w.s[w.next]);
    SkipRetrying(a.look, w.s, w.next, tr.log, w.retries);
    SkipUndisturbed(a.look, a.deq, w.s, w.ws, |tr.log|, w.next);
  }

  lemma WalkTakes(a: Ask, w: Walk, tr: Trace, g: Glimpse)
    requires Asked(a) && Walking(a, w, tr) && Continues(a, w) && g == a.look(|tr.log|, w.s[w.next]) && Clean(g)
    ensures Walking(a, Visit(a, w, g), Visited(w, tr, g))
  {
    hide FrontTaken, TraceOk, Totals, Retrying, Undisturbed, Distinct, Paced;
    WalkLengths(a, w, tr);
    TakePaced(a.look, a.deq, w.s, tr.log, w.retries, w.s[w.next]);
    var v, weight := Victim(w.s[w.next], g.lastAccessed), g.weight.value;
    TakeFront(a.deq, w.s, w.vs, w.next, v);
    TakeTrace(a.look, tr, w.vs, w.ws, v, weight);
    TakeRetrying(a.look, w.s, w.next, tr.log + [v.node]);
    TakeTotals(a.weight, a.f, a.freq, w.vs, w.ws, w.sumW, w.sumF, v, weight);
    TakeUndisturbed(a.look, a.deq, w.s, w.ws, |tr.log|, weight);
  }

  /** What a finished walk has established about its victims, whatever clients did meanwhile:
      they are distinct nodes that were clean when taken and now form the front of the deque;
      the nodes skipped have moved to the back, in order, and no others; no victim could have been
      spared; and a walk that is neither heavy enough nor too popular was stuck, which it was not
      before. */
  ghost predicate Walked(a: Ask, s: seq<Id>, vs: seq<Victim>, ws: seq<nat>, tr: Trace) {
    && FrontTaken(a.deq, s, vs, |vs|)
    && TraceOk(a.look, tr, vs, ws)
    && Totals(a.weight, a.f, a.freq, vs, ws, Sum(ws), Popularity(a.freq, vs))
    && (Sum(ws) < a.weight && Popularity(a.freq, vs) <= a.f ==> Stuck(a.look, s, |vs|, tr.log))
    && Undisturbed(a.look, a.deq, s, ws)
    && s == AfterSkips(a.deq, a.look, tr.log) && StopsAtSix(a.look, tr.log)
  }

  lemma WalkEnds(a: Ask, w: Walk, tr: Trace)
    requires Walking(a, w, tr) && !Continues(a, w)
    ensures Walked(a, w.s, w.vs, w.ws, tr) && w.sumW == Sum(w.ws) && w.sumF == Popularity(a.freq, w.vs)
  {
  }

  /** `admit`, over any deque: the verdict rests on exactly the victims of a finished walk. */
  method Admit(a: Ask) returns (s: seq<Id>, admitted: bool, vs: seq<Victim>, ws: seq<nat>, ghost tr: Trace)
    requires Asked(a)
    ensures Walked(a, s, vs, ws, tr)
    ensures admitted <==> Wins(a, vs, ws)
  {
    hide Walked, Walking, Asked, Sum, Popularity;
    var w := Walk(a.deq, [], [], 0, 0, 0, 0);
    var n: nat := 0;
    tr := Trace([], []);
    WalkStarts(a);
    while Continues(a, w)
      invariant Walking(a, w, tr) && n == |tr.log|
      invariant w.next <= |w.s| && w.retries <= MAX_CONSECUTIVE_RETRIES + 1
      decreases |w.s| - w.next, MAX_CONSECUTIVE_RETRIES + 1 - w.retries
    {
      var g := a.look(n, w.s[w.next]);
      if Clean(g) { WalkTakes(a, w, tr, g); } else { WalkSkips(a, w, tr, g); }
      tr := Visited(w, tr, g);
      w := Visit(a, w, g);
      n := n + 1;
    }
    WalkEnds(a, w, tr);
    s, vs, ws := w.s, w.vs, w.ws;
    admitted := w.sumW >= a.weight && a.f > w.sumF;
  }

  // ----- a quiet cache -------------------------------------------------------------------------

  /** The walk's verdict. */
  ghost predicate Wins(a: Ask, vs: seq<Victim>, ws: seq<nat>) {
    Sum(ws) >= a.weight && Popularity(a.freq, vs) < a.f
  }

  /** With every node clean, the deque is left as it was and the victims are a prefix of it. */
  lemma CleanWalkIsPrefix(a: Ask, s: seq<Id>, vs: seq<Victim>, ws: seq<nat>, tr: Trace)
    requires AllClean(a.look, a.deq) && Walked(a, s, vs, ws, tr)
    ensures s == a.deq && |vs| == |ws| <= |a.deq|
    ensures Nodes(vs) == a.deq[..|vs|] && ws == WeightsOf(a.look, a.deq)[..|vs|]
    ensures |vs| > 0 ==> Sum(WeightsOf(a.look, a.deq)[..|vs| - 1]) < a.weight
    ensures Sum(ws) < a.weight && Popularity(a.freq, vs) <= a.f ==> |vs| == |a.deq|
  {
    hide Stuck, TraceOk, Distinct, WeightsOf, Popularity, Sum, Skipped;
    assert |vs| > 0 ==> ws[..|vs| - 1] == WeightsOf(a.look, a.deq)[..|vs| - 1];
    if Stuck(a.look, s, |vs|, tr.log) { CleanIsNeverStuck(a, tr.log, |vs|); }
  }

  /** Then the walk's verdict is the reference's, for the reference's prefix: neither the early
      exit on frequency nor the retry limit can change the answer. */
  lemma CleanWalkIsReference(a: Ask, s: seq<Id>, vs: seq<Victim>, ws: seq<nat>, tr: Trace)
    requires AllClean(a.look, a.deq) && Walked(a, s, vs, ws, tr)
    ensures s == a.deq && |vs| <= |a.deq| && Nodes(vs) == a.deq[..|vs|]
    ensures Wins(a, vs, ws) ==> ShouldAdmit(a, |vs|)
    ensures forall k: nat :: ShouldAdmit(a, k) ==> Wins(a, vs, ws) && k == |vs|
  {
    CleanWalkIsPrefix(a, s, vs, ws, tr);
    hide Walked, AllClean, WeightsOf;
    assert Popularity(a.freq, vs) == Sum(FreqsOf(a.freq, a.deq[..|vs|]));
    forall k: nat | ShouldAdmit(a, k) ensures Wins(a, vs, ws) && k == |vs| {
      ReferenceWins(a, vs, ws, k);
    }
  }

  lemma ReferenceWins(a: Ask, vs: seq<Victim>, ws: seq<nat>, k: nat)
    requires ShouldAdmit(a, k) && |vs| <= |a.deq| && ws == WeightsOf(a.look, a.deq)[..|vs|]
    requires |vs| > 0 ==> Sum(WeightsOf(a.look, a.deq)[..|vs| - 1]) < a.weight
    requires Popularity(a.freq, vs) == Sum(FreqsOf(a.freq, a.deq[..|vs|]))
    requires Sum(ws) < a.weight && Popularity(a.freq, vs) <= a.f ==> |vs| == |a.deq|
    ensures Wins(a, vs, ws) && k == |vs|
  {
    hide Sum, WeightsOf, FreqsOf, Popularity;
    NotTooFar(WeightsOf(a.look, a.deq), a.weight, k, |vs|);
    FreqPrefix(a.freq, a.deq, |vs|, k);
    if Sum(ws) >= a.weight {
      ShortestCoverUnique(WeightsOf(a.look, a.deq), a.weight, k, |vs|);
    }
  }

  lemma CleanIsNeverSkipped(look: Look, s: seq<Id>, log: seq<Id>, r: nat)
    requires AllClean(look, s) && r > 0
    ensures !Skipped(look, s, log, r)
  {
    assert r <= |log| ==> log[|log| - 1] in s ==> Clean(look(|log| - 1, log[|log| - 1]));
  }

  lemma CleanIsNeverStuck(a: Ask, log: seq<Id>, m: nat)
    requires AllClean(a.look, a.deq) && Stuck(a.look, a.deq, m, log)
    ensures m == |a.deq|
  {
    CleanIsNeverSkipped(a.look, a.deq, log, 1);
    CleanIsNeverSkipped(a.look, a.deq, log, 6);
  }

  /** A walk that stops as soon as it has enough does not pass the shortest cover. */
  lemma NotTooFar(all: seq<nat>, need: nat, k: nat, m: nat)
    requires ShortestCover(all, need, k) && m <= |all| && (m > 0 ==> Sum(all[..m - 1]) < need)
    ensures m <= k
  {
    if k < m {
      assert all[..m - 1][..k] == all[..k];
      SumPrefix(all[..m - 1], k);
    }
  }

  lemma FreqPrefix(freq: Id -> nat, s: seq<Id>, m: nat, k: nat)
    requires m <= k <= |s|
    ensures Sum(FreqsOf(freq, s[..m])) <= Sum(FreqsOf(freq, s[..k]))
  {
    assert FreqsOf(freq, s[..k])[..m] == FreqsOf(freq, s[..m]);
    SumPrefix(FreqsOf(freq, s[..k]), m);
  }
}
