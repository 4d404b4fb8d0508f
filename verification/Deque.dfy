/** The intrusive doubly linked deque: nodes are linked and unlinked in place, and every
    operation is proved to be the sequence operation of `DequeSpec`, cursor included. */
module Deque {
  import opened Common
  import opened DequeSpec

  class Node<T> {
    var prev: Node?<T>
    var next: Node?<T>
    const element: T

    constructor (element: T)
      ensures this.element == element && prev == null && next == null
    {
      this.element := element;
      prev, next := null, null;
    }
  }

  /** `Option<DeqCursor<T>>`. */
  datatype NodeCursor<T> = Unset | OnNode(node: Node<T>) | PassDone

  ghost function NodeAt<T>(s: seq<Node<T>>, i: int): Node?<T> {
    if 0 <= i < |s| then s[i] else null
  }

  ghost predicate LinkAt<T>(s: seq<Node<T>>, i: int)
    reads s
  {
    0 <= i < |s| ==> s[i].prev == NodeAt(s, i - 1) && s[i].next == NodeAt(s, i + 1)
  }

  ghost predicate Linked<T>(s: seq<Node<T>>)
    reads s
  {
    forall i :: 0 <= i < |s| ==> LinkAt(s, i)
  }

  /** The links of node `k` once node `j` is bypassed. */
  ghost predicate Bypassing<T>(s: seq<Node<T>>, j: nat, k: int)
    requires 0 <= k < |s|
    reads s
  {
    && s[k].prev == NodeAt(s, if k == j + 1 then j - 1 else k - 1)
    && s[k].next == NodeAt(s, if k == j - 1 then j + 1 else k + 1)
  }

  lemma BypassedLinked<T>(s: seq<Node<T>>, j: nat)
    requires j < |s| && forall k :: 0 <= k < |s| && k != j ==> Bypassing(s, j, k)
    ensures Linked(s[..j] + s[j + 1..])
  {
    var s' := s[..j] + s[j + 1..];
    forall k | 0 <= k < |s'| ensures LinkAt(s', k) {
      assert Bypassing(s, j, if k < j then k else k + 1);
    }
  }

  /** The node cursor stands for the index cursor. */
  ghost predicate Marks<T>(c: NodeCursor<T>, v: View<Node<T>>) {
    match v.cursor
    case NoCursor => c.Unset?
    case At(i) => i < |v.s| && c == OnNode(v.s[i])
    case Done => c.PassDone?
  }

  ghost function SteppedOff(n: nat, c: Cursor, j: nat): Cursor {
    if c == At(j) then Advance(n, c) else c
  }

  /** A cursor that has stepped off node `j` survives its removal unchanged. */
  lemma RemovalKeepsMark<T>(c: NodeCursor<T>, v: View<Node<T>>, j: nat)
    requires Ok(v) && j < |v.s| && Marks(c, v.(cursor := SteppedOff(|v.s|, v.cursor, j)))
    ensures Marks(c, RemoveAt(v, j))
    ensures forall x :: Marks(c, PushBack(RemoveAt(v, j), x))
  {
  }

  lemma OthersDiffer<T>(s: seq<T>, j: nat)
    requires Distinct(s) && j < |s|
    ensures forall k :: 0 <= k < |s| && k != j ==> s[k] != s[j]
  {
  }

  class Deque<T> {
    var len: nat
    var head: Node?<T>
    var tail: Node?<T>
    var cursor: NodeCursor<T>
    ghost var view: View<Node<T>>

    ghost predicate Valid()
      reads this, view.s
    {
      && Ok(view)
      && Linked(view.s)
      && len == |view.s|
      && Ends(view.s)
      && Marks(cursor, view)
    }

    ghost predicate Ends(s: seq<Node<T>>)
      reads this
    {
      head == NodeAt(s, 0) && tail == NodeAt(s, |s| - 1)
    }

    constructor ()
      ensures Valid() && view == View([], NoCursor)
    {
      len, head, tail, cursor := 0, null, null, Unset;
      view := View([], NoCursor);
    }

    /** Exact for every node that is either in this deque or fully unlinked. */
    method Contains(node: Node<T>) returns (r: bool)
      requires Valid()
      requires node in view.s || node.prev == null
      ensures r <==> node in view.s
    {
      r := node.prev != null || IsHead(node);
      if node in view.s {
        var i :| 0 <= i < |view.s| && view.s[i] == node;
        assert LinkAt(view.s, i);
      }
    }

    predicate IsHead(node: Node<T>) reads this { head == node }

    predicate IsTail(node: Node<T>) reads this { tail == node }

    predicate IsAtCursor(node: Node<T>) reads this { cursor == OnNode(node) }

    method AdvanceCursor()
      requires Valid()
      modifies this`cursor, this`view
      ensures Valid()
      ensures view == old(view).(cursor := Advance(|old(view.s)|, old(view.cursor)))
    {
      match cursor {
        case Unset =>
        case OnNode(node) =>
          assert LinkAt(view.s, view.cursor.i);
          if node.next != null {
            cursor := OnNode(node.next);
          } else {
            cursor := PassDone;
          }
        case PassDone => cursor := Unset;
      }
      view := view.(cursor := Advance(|view.s|, view.cursor));
    }

    method ResetCursor()
      requires Valid()
      modifies this`cursor, this`view
      ensures Valid() && view == old(view).(cursor := NoCursor)
    {
      cursor := Unset;
      view := view.(cursor := NoCursor);
    }

    /** `Iterator::next`. */
    method Next() returns (r: Option<Node<T>>)
      requires Valid()
      modifies this`cursor, this`view
      ensures Valid()
      ensures r == Returned(old(view)) && view == DequeSpec.Next(old(view))
    {
      if cursor.Unset? && head != null {
        cursor := OnNode(head);
        view := view.(cursor := At(0));
      }
      r := if cursor.OnNode? then Some(cursor.node) else None;
      AdvanceCursor();
    }

    /** The link part of adding at the back. */
    method LinkLast(node: Node<T>, ghost s: seq<Node<T>>)
      requires Linked(s) && Ends(s) && node !in s
      modifies this`head, this`tail, s, node
      ensures Linked(s + [node]) && Ends(s + [node])
    {
      assert s != [] ==> LinkAt(s, |s| - 1);
      node.next := null;
      node.prev := tail;
      if tail == null {
        head := node;
      } else {
        tail.next := node;
      }
      tail := node;
      forall k | 0 <= k < |s + [node]| ensures LinkAt(s + [node], k) {
        assert k < |s| ==> old(LinkAt(s, k));
      }
    }

    /** The link part of taking a node out. */
    method Bypass(node: Node<T>, ghost s: seq<Node<T>>, ghost j: nat)
      requires Linked(s) && Ends(s) && Distinct(s) && j < |s| && s[j] == node
      modifies this`head, this`tail, s
      ensures Linked(s[..j] + s[j + 1..]) && Ends(s[..j] + s[j + 1..])
    {
      OthersDiffer(s, j);
      if j > 0 { OthersDiffer(s, j - 1); }
      if j < |s| - 1 { OthersDiffer(s, j + 1); }
      hide Distinct;
      assert LinkAt(s, j);
      if node.prev != null {
        node.prev.next := node.next;
      } else {
        head := node.next;
      }
      if node.next != null {
        node.next.prev := node.prev;
      } else {
        tail := node.prev;
      }
      forall k | 0 <= k < |s| && k != j ensures Bypassing(s, j, k) {
        assert old(LinkAt(s, k));
      }
      BypassedLinked(s, j);
    }

    /** The cursor leaves a node that is about to be removed or moved. */
    method StepOff(node: Node<T>, ghost j: nat)
      requires Valid() && j < |view.s| && view.s[j] == node
      modifies this`cursor, this`view
      ensures Valid() && view.s == old(view.s)
      ensures view.cursor == SteppedOff(|view.s|, old(view.cursor), j)
    {
      if IsAtCursor(node) {
        AdvanceCursor();
      }
    }

    method PushBack(node: Node<T>)
      requires Valid() && node !in view.s
      modifies this, view.s, node
      ensures Valid()
      ensures view == DequeSpec.PushBack(old(view), node)
    {
      PushBackOk(view, node);
      LinkLast(node, view.s);
      len := len + 1;
      view := DequeSpec.PushBack(view, node);
    }

    method Unlink(node: Node<T>, ghost j: nat)
      requires Valid() && j < |view.s| && view.s[j] == node
      modifies this, view.s
      ensures Valid()
      ensures view == RemoveAt(old(view), j)
      ensures node.prev == null && node.next == null
    {
      ghost var v := view;
      RemoveAtOk(v, j);
      StepOff(node, j);
      Bypass(node, v.s, j);
      RemovalKeepsMark(cursor, v, j);
      node.prev := null;
      node.next := null;
      len := len - 1;
      view := RemoveAt(v, j);
    }

    /** At the head, the general removal does what popping does: the predecessor is null. */
    method PopFront() returns (r: Option<Node<T>>)
      requires Valid()
      modifies this, view.s
      ensures Valid()
      ensures view == DequeSpec.PopFront(old(view))
      ensures r == (if old(view.s) == [] then None else Some(old(view.s[0])))
      ensures r.Some? ==> r.value.prev == null && r.value.next == null
    {
      if head == null { return None; }
      r := Some(head);
      Unlink(head, 0);
    }

    method MoveToBack(node: Node<T>, ghost j: nat)
      requires Valid() && j < |view.s| && view.s[j] == node
      modifies this, view.s
      ensures Valid()
      ensures view == DequeSpec.MoveToBack(old(view), j)
    {
      hide Distinct, Linked, LinkAt;
      OthersDiffer(view.s, j);
      if IsTail(node) {
        return;
      }
      ghost var v := view;
      RemoveAtOk(v, j);
      hide Distinct;
      PushBackOk(RemoveAt(v, j), node);
      StepOff(node, j);
      Bypass(node, v.s, j);
      RemovalKeepsMark(cursor, v, j);
      LinkLast(node, RemoveAt(v, j).s);
      view := DequeSpec.MoveToBack(v, j);
    }

    method MoveFrontToBack()
      requires Valid()
      modifies this, view.s
      ensures Valid()
      ensures view == if old(view.s) == [] then old(view) else DequeSpec.MoveToBack(old(view), 0)
    {
      if head != null {
        MoveToBack(head, 0);
      }
    }
  }
}
