/** cJSON_Duplicate: a deep copy that owns everything it reaches, except constant names. */
module Duplication {
  import opened Bytes
  import opened Options
  import opened Lists
  import opened Json
  import opened Heap
  import opened View
  import opened Construction

  const CIRCULAR_LIMIT: nat := 10000

  predicate SameText(c: Option<Cell>, d: Option<Cell>) {
    c.Some? == d.Some? && TextOf(c) == TextOf(d)
  }

  /** d is a copy of t: the same contents in a tree without references. A constant name
      is shared. */
  predicate Copies(d: Shape, t: Shape, recurse: bool)
    decreases d, 1
  {
    && d.kind == t.kind && d.num == t.num && d.whole == t.whole
    && SameText(d.str, t.str) && SameText(d.name, t.name)
    && !d.lent && !d.open && d.constName == t.constName && (t.constName ==> d.name == t.name)
    && if recurse then CopiesList(d.kids, t.kids) else d.kids == Nil
  }

  predicate CopiesList(ds: List<Shape>, ts: List<Shape>)
    decreases ds, 0
  {
    match ds
    case Nil => ts.Nil?
    case Cons(d, rest) => ts.Cons? && Copies(d, ts.head, true) && CopiesList(rest, ts.tail)
  }

  /** All that a tree says, apart from where it is stored and who owns it. */
  datatype Content = Content(kind: Kind, num: real, whole: int, str: Option<bytes>, name: Option<bytes>,
                             constName: bool, kids: List<Content>)

  function TextIn(c: Option<Cell>): Option<bytes> {
    if c.None? then None else Some(c.value.text)
  }

  function ContentOf(t: Shape): Content
    decreases t, 1
  {
    Content(t.kind, t.num, t.whole, TextIn(t.str), TextIn(t.name), t.constName, ContentsOf(t.kids))
  }

  function ContentsOf(ts: List<Shape>): List<Content>
    decreases ts, 0
  {
    match ts
    case Nil => Nil
    case Cons(t, rest) => Cons(ContentOf(t), ContentsOf(rest))
  }

  /** No node of d borrows anything; and constant names are those of t, pointer for pointer. */
  predicate Independent(d: Shape, t: Shape)
    decreases d, 1
  {
    !d.lent && !d.open && (d.constName ==> d.name == t.name) && IndependentEach(d.kids, t.kids)
  }

  predicate IndependentEach(ds: List<Shape>, ts: List<Shape>)
    decreases ds, 0
  {
    ds.Cons? && ts.Cons? ==> Independent(ds.head, ts.head) && IndependentEach(ds.tail, ts.tail)
  }

  /** A copy is exactly a tree with the same content that borrows nothing but constant
      names; without recursion, a node with that content and no children. */
  lemma {:induction false} CopyIsExact(d: Shape, t: Shape, recurse: bool)
    ensures Copies(d, t, recurse)
       <==> Independent(d, t) && ContentOf(d) == if recurse then ContentOf(t) else ContentOf(t).(kids := Nil)
    decreases d, 1
  {
    CopiesAreExact(d.kids, t.kids);
  }

  lemma {:induction false} CopiesAreExact(ds: List<Shape>, ts: List<Shape>)
    ensures CopiesList(ds, ts) <==> IndependentEach(ds, ts) && ContentsOf(ds) == ContentsOf(ts)
    decreases ds, 0
  {
    if ds.Cons? && ts.Cons? {
      CopyIsExact(ds.head, ts.head, true);
      CopiesAreExact(ds.tail, ts.tail);
    }
  }

  /** The number of levels below a node. */
  function Height(t: Shape): nat
    decreases t, 1
  {
    if t.kids.Nil? then 0 else 1 + HeightList(t.kids)
  }

  function HeightList(ts: List<Shape>): nat
    decreases ts, 0
  {
    match ts
    case Nil => 0
    case Cons(t, rest) => Max(Height(t), HeightList(rest))
  }

  // ---- what a copy is worth -----------------------------------------------------------------

  /** A copy means the same value, so it prints to the same bytes. */
  lemma {:induction false} CopyMeansTheSame(d: Shape, t: Shape)
    requires Copies(d, t, true)
    ensures ValueOf(d) == ValueOf(t)
    decreases d, 1
  {
    CopiesMeanTheSame(d.kids, t.kids);
  }

  lemma {:induction false} CopiesMeanTheSame(ds: List<Shape>, ts: List<Shape>)
    requires CopiesList(ds, ts)
    ensures ValuesOf(ds) == ValuesOf(ts) && MembersOf(ds) == MembersOf(ts)
    decreases ds, 0
  {
    if ds.Cons? {
      CopyMeansTheSame(ds.head, ts.head);
      CopiesMeanTheSame(ds.tail, ts.tail);
    }
  }

  /** A copy can be read like its source, through nothing of the source but names that
      are constants. */
  lemma {:induction false} CopyIsShown(d: Shape, t: Shape)
    requires Copies(d, t, true) && Holds(d) && Shows(t)
    ensures Shows(d) && Reach(d) <= Owned(d) + ConstNames(t) && (Typed(t) ==> Typed(d))
    decreases d, 1
  {
    CopiesAreShown(d.kids, t.kids, LastNode(d.kids));
  }

  lemma {:induction false} CopiesAreShown(ds: List<Shape>, ts: List<Shape>, before: Node?)
    requires CopiesList(ds, ts) && Chained(ds, before) && ShowsList(ts)
    ensures ShowsList(ds) && ReachList(ds) <= OwnedList(ds) + ConstNamesIn(ts) && (TypedList(ts) ==> TypedList(ds))
    decreases ds, 0
  {
    if ds.Cons? {
      CopyIsShown(ds.head, ts.head);
      CopiesAreShown(ds.tail, ts.tail, ds.head.node);
    }
  }

  /** The buffers of constant names. */
  function ConstNames(t: Shape): set<object>
    decreases t, 1
  {
    (if t.constName then Buffers(t.name) else {}) + ConstNamesIn(t.kids)
  }

  function ConstNamesIn(ts: List<Shape>): set<object>
    decreases ts, 0
  {
    match ts
    case Nil => {}
    case Cons(t, rest) => ConstNames(t) + ConstNamesIn(rest)
  }

  // ---- cJSON_Duplicate_rec --------------------------------------------------------------------

  /** cJSON_strdup of a C string. */
  method Strdup(heap: Allocator, source: array<byte>, ghost cell: Option<Cell>)
    returns (copy: array?<byte>, ghost made: Option<Cell>)
    requires CellIs(source, cell)
    modifies heap
    ensures heap.denials >= old(heap.denials) && (copy != null <==> heap.denials == old(heap.denials))
    ensures copy != null ==> fresh(copy) && CellIs(copy, made) && SameText(made, cell)
    ensures heap.live == old(heap.live) + Buffers(made) && (copy == null ==> made == None)
  {
    ghost var text := TextOf(cell);
    var length := 0;
    CellEnds(source, cell, length);
    while source[length] != NUL
      modifies {}
      invariant length <= |text| && (source[length] == NUL <==> length == |text|)
      decreases |text| - length
    {
      length := length + 1;
      CellEnds(source, cell, length);
    }
    made := None;
    copy := heap.NewBytes(length + 1);
    if copy == null {
      return;
    }
    for i := 0 to length + 1
      modifies copy
      invariant forall k :: 0 <= k < i ==> copy[k] == source[k]
    {
      copy[i] := source[i];
    }
    made := Some(Cell(copy, text));
    assert copy[..|text|] == source[..|text|];
  }

  method CopyValuestring(heap: Allocator, newitem: Node, source: array?<byte>, ghost cell: Option<Cell>, ghost d: Shape)
    returns (ok: bool, ghost copy: Shape)
    requires CellIs(source, cell) && d.node == newitem && Leafy(d) && d.str == None && d.name == None
    requires Holds(d) && newitem.name == null && newitem.next == null && newitem in heap.live
    requires source != null ==> source != (newitem as object) && source != (heap as object)
    modifies heap, newitem
    ensures heap.denials >= old(heap.denials) && (ok <==> heap.denials == old(heap.denials))
    ensures ok ==> copy == d.(str := copy.str) && SameText(copy.str, cell) && fresh(Buffers(copy.str)) && Holds(copy)
    ensures ok ==> newitem.next == null && newitem.prev == old(newitem.prev) && newitem.name == null
    ensures heap.live == if ok then old(heap.live) + Buffers(copy.str) else old(heap.live) - {newitem}
  {
    ok, copy := true, d;
    if source != null {
      var text;
      ghost var made;
      text, made := Strdup(heap, source, cell);
      if text == null {
        assert Owned(d) == {newitem};
        DeleteAlone(heap, newitem, d);
        return false, d;
      }
      newitem.valuestring := text;
      copy := d.(str := made);
    }
  }

  method CopyName(heap: Allocator, newitem: Node, source: array?<byte>, ghost cell: Option<Cell>, ghost d: Shape)
    returns (ok: bool, ghost copy: Shape)
    requires CellIs(source, cell) && d.node == newitem && Leafy(d) && d.name == None && source !in Buffers(d.str)
    requires Holds(d) && newitem.next == null && Owned(d) <= heap.live
    requires newitem.name == null
    modifies heap, newitem, Buffers(d.str)
    ensures heap.denials >= old(heap.denials) && (ok <==> heap.denials == old(heap.denials))
    ensures ok ==> copy == d.(name := copy.name) && SameText(copy.name, cell) && (d.constName ==> copy.name == cell)
    ensures ok ==> Holds(copy) && Apart(copy)
    ensures ok ==> Owned(copy) == Owned(d) + (if d.constName then {} else Buffers(copy.name))
    ensures ok && !d.constName ==> fresh(Buffers(copy.name))
    ensures ok ==> newitem.next == null && newitem.prev == old(newitem.prev)
    ensures heap.live == if ok then old(heap.live) + Owned(copy) else old(heap.live) - Owned(d)
  {
    ok, copy := true, d;
    if source != null {
      if newitem.constName {
        newitem.name := source;
        copy := d.(name := cell);
      } else {
        var text;
        ghost var made;
        text, made := Strdup(heap, source, cell);
        if text == null {
          DeleteAlone(heap, newitem, d);
          return false, d;
        }
        newitem.name := text;
        copy := d.(name := made);
      }
    }
  }

  method CopyScalars(newitem: Node, item: Node, ghost t: Shape) returns (ghost d: Shape)
    requires t.node == item && Shows(t) && newitem !in Reach(t)
    requires newitem.child == null && newitem.valuestring == null && newitem.name == null && !newitem.isReference
    modifies newitem`kind, newitem`constName, newitem`valueint, newitem`valuedouble
    ensures d == Shape(newitem, t.kind, t.num, t.whole, None, None, false, t.constName, false, Nil) && Holds(d)
  {
    newitem.kind, newitem.constName := item.kind, item.constName;
    newitem.valueint, newitem.valuedouble := item.valueint, item.valuedouble;
    d := Shape(newitem, t.kind, t.num, t.whole, None, None, false, t.constName, false, Nil);
  }

  lemma CellsAreShown(t: Shape)
    requires Shows(t)
    ensures CellIs(t.node.name, t.name) && CellIs(t.node.valuestring, t.str)
    ensures Buffers(t.name) + Buffers(t.str) + {t.node} <= Reach(t)
  {
  }

  /** Both strings of a node, or the node is freed. */
  method CopyTexts(heap: Allocator, newitem: Node, item: Node, ghost t: Shape, ghost d: Shape, ghost tree: set<object>)
    returns (ok: bool, ghost copy: Shape)
    requires t.node == item && Shows(t) && Reach(t) <= tree && heap !in tree && newitem !in tree
    requires d.node == newitem && Leafy(d) && d.str == None && d.name == None && d.constName == t.constName && Holds(d)
    requires newitem.name == null && newitem.next == null && newitem.prev == null && newitem in heap.live
    modifies heap, newitem
    ensures heap.denials >= old(heap.denials) && (ok <==> heap.denials == old(heap.denials))
    ensures ok ==> copy == d.(str := copy.str, name := copy.name) && SameText(copy.str, t.str)
    ensures ok ==> SameText(copy.name, t.name) && (t.constName ==> copy.name == t.name)
    ensures ok ==> Holds(copy) && Apart(copy) && newitem.next == null && newitem.prev == null
    ensures ok ==> fresh(Owned(copy) - {newitem}) && heap.live == old(heap.live) + Owned(copy)
    ensures !ok ==> heap.live == old(heap.live) - {newitem}
  {
    hide Reach, Shows, Holds, Fields, Apart, CellIs, SameText;
    CellsAreShown(t);
    LeafOwns(d);
    ok, copy := CopyValuestring(heap, newitem, item.valuestring, t.str, d);
    if ok {
      LeafOwns(copy);
      ok, copy := CopyName(heap, newitem, item.name, t.name, copy);
    }
  }

  /** The part of cJSON_Duplicate_rec that copies the fields. */
  method CopyNode(heap: Allocator, item: Node, ghost t: Shape, ghost tree: set<object>)
    returns (newitem: Node?, ghost d: Option<Shape>)
    requires t.node == item && Shows(t) && Reach(t) <= tree && heap !in tree
    modifies heap
    ensures heap.denials >= old(heap.denials) && (newitem != null <==> heap.denials == old(heap.denials))
    ensures newitem == null ==> heap.live == old(heap.live)
    ensures newitem != null ==> d.Some? && d.value.node == newitem && newitem.next == null && newitem.prev == null
    ensures newitem != null ==> Holds(d.value) && Apart(d.value) && Copies(d.value, t, false)
    ensures newitem != null ==> fresh(Owned(d.value)) && heap.live == old(heap.live) + Owned(d.value)
  {
    hide Copies, Reach, Shows, Holds, Fields, Apart, CellIs, SameText;
    d := None;
    newitem := heap.NewItem();
    if newitem == null {
      return;
    }
    ghost var copy := CopyScalars(newitem, item, t);
    CellsAreShown(t);
    var ok;
    ok, copy := CopyTexts(heap, newitem, item, t, copy, tree);
    if !ok {
      return null, None;
    }
    d := Some(copy);
    CopiesFields(copy, t);
  }

  lemma CopiesFields(d: Shape, t: Shape)
    requires d.kind == t.kind && d.num == t.num && d.whole == t.whole
    requires SameText(d.str, t.str) && SameText(d.name, t.name)
    requires !d.lent && !d.open && d.constName == t.constName && (t.constName ==> d.name == t.name) && d.kids == Nil
    ensures Copies(d, t, false)
  {
  }

  // What the loop over the children keeps.

  lemma {:induction false} CopiesInOrder(done: List<Shape>, seen: List<Shape>, ds: List<Shape>, ts: List<Shape>)
    requires CopiesList(done, seen) && CopiesList(ds, ts)
    ensures CopiesList(RevOnto(done, ds), RevOnto(seen, ts))
    decreases done
  {
    if done.Cons? {
      CopiesInOrder(done.tail, seen.tail, Cons(done.head, ds), Cons(seen.head, ts));
    }
  }

  /** Whether the children ts of a node at this depth are within the limit. */
  predicate WithinLimit(ts: List<Shape>, depth: nat) {
    ts.Cons? ==> depth + 1 + HeightList(ts) <= CIRCULAR_LIMIT
  }

  lemma LimitUnfolds(ts: List<Shape>, depth: nat)
    requires ts.Cons?
    ensures WithinLimit(ts, depth)
        <==> depth < CIRCULAR_LIMIT && depth + 1 + Height(ts.head) <= CIRCULAR_LIMIT && WithinLimit(ts.tail, depth)
  {
    assert HeightList(ts) == Max(Height(ts.head), HeightList(ts.tail));
  }

  /** The same limit, by the height of the parent. */
  lemma LimitIsHeight(t: Shape, depth: nat)
    requires depth <= CIRCULAR_LIMIT
    ensures WithinLimit(t.kids, depth) <==> depth + Height(t) <= CIRCULAR_LIMIT
  {
  }

  lemma NoLimit(depth: nat)
    ensures WithinLimit(Nil, depth)
  {
  }

  /** One turn of the loop over the children: the copy of child behind the others, or
      newitem and all of them are deleted. */
  method CopyNextChild(heap: Allocator, newitem: Node, current: Node?, child: Node, depth: nat, ghost d: Shape,
                       ghost done: List<Shape>, ghost rest: List<Shape>, ghost tree: set<object>)
    returns (newchild: Node?, ghost made: List<Shape>)
    requires d.node == newitem && Leafy(d) && Fields(d) && Apart(d) && newitem.next == null
    requires Built(done, newitem.child, current) && Owned(d) !! OwnedList(done)
    requires Owned(d) + OwnedList(done) <= heap.live && (Owned(d) + OwnedList(done)) !! tree
    requires rest.Cons? && rest.head.node == child && Shows(rest.head) && Reach(rest.head) <= tree && heap !in tree
    modifies heap, Owned(d), OwnedList(done)
    ensures heap.denials >= old(heap.denials)
    ensures newchild != null <==> heap.denials == old(heap.denials) && depth < CIRCULAR_LIMIT
                                  && depth + 1 + Height(rest.head) <= CIRCULAR_LIMIT
    ensures newchild != null ==> made.Cons? && Copies(made.head, rest.head, true) && fresh(Owned(made.head))
    ensures newchild != null ==> Built(Cons(made.head, done), newitem.child, newchild) && Fields(d)
    ensures newchild != null ==> newitem.next == null && newitem.prev == old(newitem.prev)
    ensures heap.live == if newchild != null then old(heap.live) + Owned(made.head)
                         else old(heap.live) - Owned(d) - OwnedList(done)
    decreases rest, 2
  {
    hide Shows, Apart, Owned, Copies, Height, WithinLimit, Fields, LastNode, Back, Built, Holds;
    newchild, made := null, Nil;
    NotOwnedBy(heap, d);
    NotOwned(heap, done);
    LeafOwns(d);
    if depth < CIRCULAR_LIMIT {
      LimitIsHeight(rest.head, depth + 1);
      newchild, made := DuplicateRec(heap, child, depth + 1, true, rest, tree);
    }
    if newchild == null {
      Discard(heap, newitem, current, d, done);
    } else {
      EndsAreOwned(Cons(made.head, Nil));
      LinkChild(newitem, current, newchild, d, done, made.head, heap.live);
    }
  }

  /** The loop over the children of item. */
  method CopyChildren(heap: Allocator, newitem: Node, child: Node?, depth: nat, ghost d: Shape, ghost kids: List<Shape>,
                      ghost tree: set<object>)
    returns (ok: bool, ghost full: Shape)
    requires d.node == newitem && Leafy(d) && Holds(d) && Apart(d) && newitem.next == null
    requires Owned(d) <= heap.live && Owned(d) !! tree
    requires HeadNode(kids) == child && ShowsList(kids) && ReachList(kids) <= tree && heap !in tree
    modifies heap, Owned(d)
    ensures heap.denials >= old(heap.denials)
    ensures ok <==> heap.denials == old(heap.denials) && WithinLimit(kids, depth)
    ensures ok ==> full == d.(kids := full.kids) && CopiesList(full.kids, kids) && Holds(full) && Apart(full)
    ensures ok ==> newitem.next == null && newitem.prev == old(newitem.prev)
    ensures ok ==> fresh(Owned(full) - Owned(d)) && heap.live == old(heap.live) + Owned(full)
    ensures !ok ==> heap.live == old(heap.live) - Owned(d)
    decreases kids, 3
  {
    hide Shows, Apart, Owned, Copies, Height, WithinLimit, HeightList, Fields, Chained, LastNode, Back, Built;
    full := d;
    NotOwnedBy(heap, d);
    LeafOwns(d);
    NoneBuilt();
    NoLimit(depth);
    var child, current: Node? := child, null;
    ghost var done: List<Shape>, seen: List<Shape>, rest := Nil, Nil, kids;
    while child != null
      invariant HeadNode(rest) == child && ShowsList(rest) && ReachList(rest) <= tree
      invariant RevOnto(seen, rest) == kids && CopiesList(done, seen)
      invariant Built(done, newitem.child, current) && fresh(OwnedList(done))
      invariant Fields(d) && newitem.next == null && newitem.prev == old(newitem.prev)
      invariant heap.live == old(heap.live) + OwnedList(done) && heap.denials == old(heap.denials)
      invariant WithinLimit(rest, depth) == WithinLimit(kids, depth)
      decreases rest
    {
      LimitUnfolds(rest, depth);
      ghost var t;
      current, t := CopyNextChild(heap, newitem, current, child, depth, d, done, rest, tree);
      if current == null {
        return false, d;
      }
      child := child.next;
      done, seen, rest := Cons(t.head, done), Cons(rest.head, seen), rest.tail;
    }
    full := CloseChildren(newitem, current, d, done, heap.live);
    CopiesInOrder(done, seen, Nil, Nil);
    ok := true;
  }

  /** The copy exists exactly when there is something to copy, no allocation is refused,
      and (with recursion) no descendant lies more than 10000 levels down. It is made of
      new objects only, its root is in no list, and a failure frees what it allocated. */
  method DuplicateRec(heap: Allocator, item: Node?, depth: nat, recurse: bool, ghost root: List<Shape>,
                      ghost tree: set<object>)
    returns (newitem: Node?, ghost made: List<Shape>)
    requires HeadNode(root) == item && heap !in tree
    requires root.Cons? ==> Shows(root.head) && Reach(root.head) <= tree
    modifies heap
    ensures heap.denials >= old(heap.denials)
    ensures newitem != null <==> item != null && heap.denials == old(heap.denials)
                                 && (recurse ==> WithinLimit(root.head.kids, depth))
    ensures newitem != null ==> made.Cons? && made.head.node == newitem && newitem.next == null && newitem.prev == null
    ensures newitem != null ==> Copies(made.head, root.head, recurse) && Holds(made.head) && Apart(made.head)
    ensures newitem != null ==> fresh(Owned(made.head)) && heap.live == old(heap.live) + Owned(made.head)
    ensures newitem == null ==> heap.live == old(heap.live)
    decreases root, 1
  {
    newitem, made := null, Nil;
    if item == null {
      return;
    }
    ghost var d;
    newitem, d := CopyNode(heap, item, root.head, tree);
    if newitem == null {
      return;
    }
    if !recurse {
      made := Cons(d.value, Nil);
      return;
    }
    ghost var full;
    var ok;
    ok, full := CopyChildren(heap, newitem, item.child, depth, d.value, root.head.kids, tree);
    if !ok {
      newitem := null;
      return;
    }
    made := Cons(full, Nil);
  }

  method Duplicate(heap: Allocator, item: Node?, recurse: bool, ghost root: List<Shape>, ghost tree: set<object>)
    returns (newitem: Node?, ghost made: List<Shape>)
    requires HeadNode(root) == item && heap !in tree
    requires root.Cons? ==> Shows(root.head) && Reach(root.head) <= tree
    modifies heap
    ensures heap.denials >= old(heap.denials)
    ensures newitem != null <==> item != null && heap.denials == old(heap.denials)
                                 && (recurse ==> Height(root.head) <= 10000)
    ensures newitem != null ==> made.Cons? && made.head.node == newitem && newitem.next == null && newitem.prev == null
    ensures newitem != null ==> Copies(made.head, root.head, recurse) && Holds(made.head) && Apart(made.head)
    ensures newitem != null ==> fresh(Owned(made.head)) && heap.live == old(heap.live) + Owned(made.head)
    ensures newitem == null ==> heap.live == old(heap.live)
  {
    if item != null {
      LimitIsHeight(root.head, 0);
    }
    newitem, made := DuplicateRec(heap, item, 0, recurse, root, tree);
  }
}
