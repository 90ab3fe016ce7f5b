/** A sibling list while it is being built: parse_array, parse_object and
    cJSON_Duplicate_rec append at the tail, and only the finished list gets the
    head.prev link to its tail. */
module Construction {
  import opened Lists
  import opened Options
  import opened Heap

  /** The siblings in done, the most recent one first, are linked; next of the most
      recent one is after, and prev of the oldest one is null. */
  ghost predicate Back(done: List<Shape>, after: Node?)
    reads OwnedList(done)
    decreases done
  {
    match done
    case Nil => true
    case Cons(t, older) =>
      Holds(t) && t.node.next == after && t.node.prev == HeadNode(older) && Back(older, t.node)
  }

  /** The local variables head and current of a loop that has built done. */
  ghost predicate Built(done: List<Shape>, head: Node?, current: Node?)
    reads OwnedList(done)
  {
    Back(done, null) && ApartList(done) && LastNode(done) == head && HeadNode(done) == current
  }

  lemma NoneBuilt()
    ensures Built(Nil, null, null) && RevOnto<Shape>(Nil, Nil) == Nil && OwnedList(Nil) == {}
  {
  }

  lemma {:induction false} BackIsChained(done: List<Shape>, rest: List<Shape>)
    requires Back(done, HeadNode(rest)) && Chained(rest, HeadNode(done))
    ensures Chained(RevOnto(done, rest), null)
    decreases done
  {
    if done.Cons? {
      BackIsChained(done.tail, Cons(done.head, rest));
    }
  }

  lemma {:induction false} OwnedInOrder(done: List<Shape>, rest: List<Shape>)
    ensures OwnedList(RevOnto(done, rest)) == OwnedList(done) + OwnedList(rest)
    decreases done
  {
    if done.Cons? {
      OwnedInOrder(done.tail, Cons(done.head, rest));
    }
  }

  lemma {:induction false} ApartInOrder(done: List<Shape>, rest: List<Shape>)
    requires ApartList(done) && ApartList(rest) && OwnedList(done) !! OwnedList(rest)
    ensures ApartList(RevOnto(done, rest))
    decreases done
  {
    if done.Cons? {
      ApartInOrder(done.tail, Cons(done.head, rest));
    }
  }

  lemma {:induction false} EndsInOrder(done: List<Shape>, rest: List<Shape>)
    ensures HeadNode(RevOnto(done, rest)) == if done.Nil? then HeadNode(rest) else LastNode(done)
    ensures LastNode(RevOnto(done, rest)) == if rest.Nil? then HeadNode(done) else LastNode(rest)
    decreases done
  {
    if done.Cons? {
      EndsInOrder(done.tail, Cons(done.head, rest));
    }
  }

  lemma {:induction false} ValuesInOrder(done: List<Shape>, rest: List<Shape>)
    ensures ValuesOf(RevOnto(done, rest)) == RevOnto(ValuesOf(done), ValuesOf(rest))
    ensures MembersOf(RevOnto(done, rest)) == RevOnto(MembersOf(done), MembersOf(rest))
    decreases done
  {
    if done.Cons? {
      ValuesInOrder(done.tail, Cons(done.head, rest));
    }
  }

  lemma {:induction false} UnsharedInOrder(done: List<Shape>, rest: List<Shape>)
    requires UnsharedList(done) && UnsharedList(rest)
    ensures UnsharedList(RevOnto(done, rest))
    ensures AllNamed(done) && AllNamed(rest) ==> AllNamed(RevOnto(done, rest))
    decreases done
  {
    if done.Cons? {
      UnsharedInOrder(done.tail, Cons(done.head, rest));
    }
  }

  /** A fresh node. */
  function Empty(node: Node): Shape {
    Shape(node, Invalid, 0.0, 0, None, None, false, false, false, Nil)
  }

  lemma EmptyIsHeld(node: Node)
    requires node.child == null && node.kind == Invalid && node.valuedouble == 0.0 && node.valueint == 0
    requires !node.isReference && !node.constName && node.valuestring == null && node.name == null
    ensures var t := Empty(node); Holds(t) && Apart(t) && Owned(t) == {node}
  {
  }

  lemma {:induction false} EndsAreOwned(ts: List<Shape>)
    ensures ts.Cons? ==> ts.head.node in Owned(ts.head) && ts.head.node in OwnedList(ts)
    ensures ts.Cons? ==> LastNode(ts) in OwnedList(ts)
    decreases ts
  {
    if ts.Cons? {
      EndsAreOwned(ts.tail);
    }
  }

  // A node's own next and prev are not part of what Holds describes.

  method SetNext(n: Node, next: Node?, ghost t: Shape)
    requires t.node == n && Holds(t) && Apart(t)
    modifies n`next
    ensures Holds(t) && n.next == next
  {
    n.next := next;
  }

  method SetPrev(n: Node, prev: Node?, ghost t: Shape)
    requires t.node == n && Holds(t) && Apart(t)
    modifies n`prev
    ensures Holds(t) && n.prev == prev
  {
    n.prev := prev;
  }

  /** Links a node behind the last one. */
  method Append(head: Node?, current: Node?, node: Node, ghost done: List<Shape>, ghost t: Shape,
                ghost live: set<object>)
    returns (newHead: Node)
    requires Built(done, head, current)
    requires t.node == node && Holds(t) && Apart(t) && node.next == null && node.prev == null
    requires Owned(t) !! OwnedList(done) && Owned(t) + OwnedList(done) <= live
    modifies node`prev, (if done.Nil? then {} else {done.head.node})`next
    ensures Built(Cons(t, done), newHead, node)
  {
    hide Holds, Apart;
    if head == null {
      newHead := node;
    } else {
      newHead := head;
      SetNext(current, node, done.head);
      SetPrev(node, current, t);
      assert Back(done, node);
    }
    assert Back(Cons(t, done), null);
    assert ApartList(Cons(t, done));
    assert LastNode(Cons(t, done)) == newHead;
  }

  /** The last step: head.prev becomes the tail. */
  method Close(head: Node?, current: Node?, ghost done: List<Shape>, ghost live: set<object>)
    requires Built(done, head, current) && OwnedList(done) <= live
    modifies (if head == null then {} else {head})`prev
    ensures var kids := RevOnto(done, Nil);
      && Chained(kids, LastNode(kids)) && HeadNode(kids) == head && ApartList(kids)
      && OwnedList(kids) == OwnedList(done)
  {
    ghost var kids := RevOnto(done, Nil);
    BackIsChained(done, Nil);
    OwnedInOrder(done, Nil);
    ApartInOrder(done, Nil);
    EndsInOrder(done, Nil);
    if head != null {
      SetPrev(head, current, kids.head);
    }
  }

  /** The fail label: what has been built is deleted. */
  method Abandon(heap: Allocator, head: Node?, ghost current: Node?, ghost done: List<Shape>)
    requires Built(done, head, current) && OwnedList(done) <= heap.live
    modifies heap`live, OwnedList(done)
    ensures heap.live == old(heap.live) - OwnedList(done)
  {
    BackIsChained(done, Nil);
    OwnedInOrder(done, Nil);
    ApartInOrder(done, Nil);
    EndsInOrder(done, Nil);
    if head != null {
      Delete(heap, head, RevOnto(done, Nil), null);
    }
  }

  /** The start of each turn: a new node behind the last one, or the list is abandoned. */
  method NewSibling(heap: Allocator, head: Node?, current: Node?, ghost done: List<Shape>)
    returns (node: Node?, newHead: Node?)
    requires Built(done, head, current) && OwnedList(done) <= heap.live
    modifies heap, OwnedList(done)
    ensures heap.denials >= old(heap.denials)
    ensures node == null ==> heap.denials > old(heap.denials) && heap.live == old(heap.live) - OwnedList(done)
    ensures node != null ==> heap.denials == old(heap.denials) && fresh(node) && heap.live == old(heap.live) + {node}
    ensures node != null ==> Built(Cons(Empty(node), done), newHead, node) && Owned(Empty(node)) == {node}
  {
    hide Holds, Owned, Apart, LastNode, HeadNode, Back;
    newHead := head;
    NotOwned(heap, done);
    node := heap.NewItem();
    if node == null {
      Abandon(heap, head, current, done);
    } else {
      EmptyIsHeld(node);
      EndsAreOwned(done);
      newHead := Append(head, current, node, done, Empty(node), heap.live);
    }
  }

  /** Built speaks about the most recent sibling and, apart from it, the older ones. */
  lemma BuiltParts(t: Shape, older: List<Shape>, head: Node?)
    ensures Built(Cons(t, older), head, t.node) <==>
            && Holds(t) && t.node.next == null && t.node.prev == HeadNode(older)
            && Back(older, t.node) && Apart(t) && ApartList(older) && Owned(t) !! OwnedList(older)
            && head == if older.Nil? then t.node else LastNode(older)
  {
    hide Holds, Apart, Owned;
  }

  // ---- a node and the children it is being given -------------------------------------------

  /** The shape of a node before its children are there. */
  predicate Leafy(d: Shape) {
    !d.lent && !d.open && d.kids == Nil
  }

  method DeleteAlone(heap: Allocator, item: Node, ghost t: Shape)
    requires t.node == item && Holds(t) && Apart(t) && item.next == null && Owned(t) <= heap.live
    modifies heap`live, Owned(t)
    ensures heap.live == old(heap.live) - Owned(t)
  {
    hide Holds, Apart, Owned;
    assert OwnedList(Cons(t, Nil)) == Owned(t);
    Delete(heap, item, Cons(t, Nil), item.prev);
  }

  /** Links newchild behind the children that newitem already has. */
  method LinkChild(newitem: Node, current: Node?, newchild: Node, ghost d: Shape, ghost done: List<Shape>,
                   ghost t: Shape, ghost live: set<object>)
    requires d.node == newitem && Leafy(d) && Fields(d) && Built(done, newitem.child, current)
    requires t.node == newchild && Holds(t) && Apart(t) && newchild.next == null && newchild.prev == null
    requires Owned(d) !! Owned(t) && Owned(d) !! OwnedList(done) && Owned(t) !! OwnedList(done)
    requires Owned(d) + Owned(t) + OwnedList(done) <= live
    modifies newitem`child, Owned(t), OwnedList(done)
    ensures Built(Cons(t, done), newitem.child, newchild) && Fields(d)
  {
    hide Holds, Apart, CellIs, Back, LastNode, HeadNode, Built;
    LeafOwns(d);
    EndsAreOwned(done);
    EndsAreOwned(Cons(t, Nil));
    var head := Append(newitem.child, current, newchild, done, t, live);
    assert OwnedList(Cons(t, done)) == Owned(t) + OwnedList(done);
    newitem.child := head;
    assert Built(Cons(t, done), head, newchild);
  }

  /** The list of children is complete. */
  method CloseChildren(newitem: Node, current: Node?, ghost d: Shape, ghost done: List<Shape>, ghost live: set<object>)
    returns (ghost full: Shape)
    requires d.node == newitem && Leafy(d) && Fields(d) && Apart(d) && Built(done, newitem.child, current)
    requires Owned(d) !! OwnedList(done) && Owned(d) + OwnedList(done) <= live
    modifies OwnedList(done)
    ensures full == d.(kids := RevOnto(done, Nil)) && Holds(full) && Apart(full)
    ensures Owned(full) == Owned(d) + OwnedList(done)
  {
    EndsAreOwned(done);
    LeafOwns(d);
    Close(newitem.child, current, done, live);
    full := d.(kids := RevOnto(done, Nil));
  }

  lemma LeafOwns(d: Shape)
    requires Leafy(d)
    ensures Owned(d) == {d.node} + Buffers(d.str) + if d.constName then {} else Buffers(d.name)
  {
  }

  /** A node is deleted with the children it has so far. */
  method Discard(heap: Allocator, newitem: Node, ghost current: Node?, ghost d: Shape, ghost done: List<Shape>)
    requires d.node == newitem && Leafy(d) && Fields(d) && Apart(d) && Built(done, newitem.child, current)
    requires Owned(d) !! OwnedList(done) && Owned(d) + OwnedList(done) <= heap.live && newitem.next == null
    modifies heap`live, Owned(d), OwnedList(done)
    ensures heap.live == old(heap.live) - Owned(d) - OwnedList(done)
  {
    BackIsChained(done, Nil);
    OwnedInOrder(done, Nil);
    ApartInOrder(done, Nil);
    EndsInOrder(done, Nil);
    LeafOwns(d);
    DeleteAlone(heap, newitem, d.(kids := RevOnto(done, Nil), open := true));
  }
}
