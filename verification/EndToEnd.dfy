/** Printing, parsing and comparing real trees, one after the other. */
module EndToEnd {
  import opened Bytes
  import opened Lists
  import opened Json
  import opened Heap
  import opened View
  import opened Parser
  import opened Printer
  import opened RoundTrip
  import opened Comparison

  /** A tree that is printed and parsed again comes back with the same value, unless it is
      nested too deeply, has a node without a type, its text is too long for the printer, or
      memory is refused; and whatever happens, exactly the new tree stays allocated. */
  method Reparse(heap: Allocator, item: Node, format: bool, hasRealloc: bool, requireNul: bool, ghost t: Shape,
                 ghost tree: set<object>)
    returns (again: Node?, ghost made: List<Shape>)
    requires t.node == item && Shows(t) && Printable(ValueOf(t)) && Reach(t) <= tree && heap !in tree
    modifies heap
    ensures heap.denials >= old(heap.denials)
    ensures again != null <==> heap.denials == old(heap.denials) && Nesting(ValueOf(t)) <= 1000 && Typed(t)
                               && |Render(ValueOf(t), format, 0)| + 2 <= 0x7FFF_FFFF
    ensures again != null ==> HeadNode(made) == again && Chained(made, null) && ApartList(made) && UnsharedList(made)
    ensures again != null ==> ValueOf(made.head) == ValueOf(t)
    ensures again != null ==> fresh(OwnedList(made)) && heap.live == old(heap.live) + OwnedList(made)
    ensures again == null ==> heap.live == old(heap.live)
  {
    hide Shows, Typed, Printable, ValueOf, Nesting, Render, ParseText, UpToNul, Chained, ApartList, UnsharedList;
    again, made := null, Nil;
    PrintIsReadBack(ValueOf(t), format, requireNul);
    var printed, _ := Print(item, format, hasRealloc, heap, Cons(t, Nil), tree);
    if printed == null {
      return;
    }
    var stop;
    again, stop, made := ParseWithOpts(heap, printed[..], requireNul);
    heap.Free(printed);
  }

  lemma {:induction false} ComparableByValue(a: Shape, b: Shape, cs: bool)
    requires Unshared(a) && Comparable(b, cs) && ValueOf(a) == ValueOf(b)
    ensures Comparable(a, cs)
    decreases a, 1
  {
    if a.kind == ArrayKind || a.kind == ObjectKind {
      ListsComparableByValue(a.kids, b.kids, cs);
    }
  }

  lemma {:induction false} ListsComparableByValue(xs: List<Shape>, ys: List<Shape>, cs: bool)
    requires UnsharedList(xs)
    ensures ValuesOf(xs) == ValuesOf(ys) && ComparableItems(ys, cs) ==> ComparableItems(xs, cs)
    ensures AllNamed(xs) && MembersOf(xs) == MembersOf(ys) && ComparableMembers(ys, cs) ==> ComparableMembers(xs, cs)
    decreases xs, 0
  {
    hide KeysMatch, Canonical;
    if xs.Cons? && ys.Cons? {
      if ValueOf(xs.head) == ValueOf(ys.head) && Comparable(ys.head, cs) {
        ComparableByValue(xs.head, ys.head, cs);
      }
      ListsComparableByValue(xs.tail, ys.tail, cs);
      if MembersOf(xs.tail) == MembersOf(ys.tail) {
        KeysOfMap(xs.tail, TextOf(xs.head.name), cs);
        KeysOfMap(ys.tail, TextOf(xs.head.name), cs);
      }
    }
  }

  /** And cJSON_Compare finds what Reparse returns equal to the original, with the case of
      keys or without. */
  lemma ReparsedIsEqual(again: Shape, t: Shape, cs: bool)
    requires Holds(again) && Unshared(again) && Shows(t) && Comparable(t, cs) && ValueOf(again) == ValueOf(t)
    ensures Equal(again, t, cs)
  {
    HeldIsShown(again);
    ComparableByValue(again, t, cs);
    EqualMeansSame(again, t, cs);
  }
}
